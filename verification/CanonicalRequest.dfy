/** The text that SigV4 hashes: `src/signing/request/common.rs`. */
module CanonicalRequest {
  import opened Wire
  import opened PercentCodec
  import opened CanonicalQuery
  import opened CanonicalHeaders

  datatype SigningError =
    | InvalidMethod
    | InvalidPayloadHash
    | InvalidHeaders(error: HeaderError)
    | InvalidPath

  /** What is signed, with the path in its encoded wire form. */
  datatype Request = Request(
    signedMethod: Text,
    path: Text,
    query: seq<Param>,
    headers: seq<Header>,
    payloadHash: Text)

  predicate ValidMethod(name: Text) {
    && name != []
    && forall i :: 0 <= i < |name| ==>
         'A' as int <= name[i] <= 'Z' as int || '0' as int <= name[i] <= '9' as int || name[i] == '-' as int
  }

  predicate IsSha256Hex(hash: Text) {
    && |hash| == 64
    && forall i :: 0 <= i < 64 ==> '0' as int <= hash[i] <= '9' as int || 'a' as int <= hash[i] <= 'f' as int
  }

  predicate ValidPayloadHash(hash: Text) {
    || IsSha256Hex(hash)
    || hash == Ascii("UNSIGNED-PAYLOAD")
    || hash == Ascii("STREAMING-AWS4-HMAC-SHA256-PAYLOAD")
    || hash == Ascii("STREAMING-AWS4-HMAC-SHA256-PAYLOAD-TRAILER")
    || hash == Ascii("STREAMING-UNSIGNED-PAYLOAD-TRAILER")
  }

  /** `build_canonical_request`'s format string. */
  function Assemble(name: Text, path: Text, query: Text, headers: Canonical, hash: Text): Text {
    name + [NEWLINE] + path + [NEWLINE] + query + [NEWLINE] + headers.block + [NEWLINE]
    + headers.signed + [NEWLINE] + hash
  }

  /** Validation and assembly in the order of `sign_headers`. */
  function Build(r: Request): Result<Text, SigningError> {
    if !ValidMethod(r.signedMethod) then Err(InvalidMethod)
    else if !ValidPayloadHash(r.payloadHash) then Err(InvalidPayloadHash)
    else
      match Canonicalize(r.headers)
      case Err(e) => Err(InvalidHeaders(e))
      case Ok(headers) =>
        match CanonicalUri(r.path)
        case Err(_) => Err(InvalidPath)
        case Ok(path) => Ok(Assemble(r.signedMethod, path, QueryText(r.query), headers, r.payloadHash))
  }

  // ----- no field but the header block contains a newline -----------------------------

  lemma {:induction false} SignedNamesNoNewline(entries: seq<Entry>)
    requires AllValid(entries)
    ensures NEWLINE !in SignedNames(entries)
  {
    if entries != [] {
      assert ValidEntry(entries[|entries| - 1]);
      SignedNamesNoNewline(entries[..|entries| - 1]);
    }
  }

  lemma AsciiNoNewline(s: string)
    requires forall i :: 0 <= i < |s| ==> '\n' < s[i] < 128 as char
    ensures NEWLINE !in Ascii(s)
  {
    forall i | 0 <= i < |s| ensures Ascii(s)[i] != NEWLINE {
      assert 10 < s[i] as int < 128;
    }
  }

  lemma PayloadHashNoNewline(hash: Text)
    requires ValidPayloadHash(hash)
    ensures NEWLINE !in hash
  {
    if !IsSha256Hex(hash) {
      hide Ascii;
      AsciiNoNewline("UNSIGNED-PAYLOAD");
      AsciiNoNewline("STREAMING-AWS4-HMAC-SHA256-PAYLOAD");
      AsciiNoNewline("STREAMING-AWS4-HMAC-SHA256-PAYLOAD-TRAILER");
      AsciiNoNewline("STREAMING-UNSIGNED-PAYLOAD-TRAILER");
    }
  }

  lemma FieldsNoNewline(r: Request)
    requires Build(r).Ok?
    ensures NEWLINE !in r.signedMethod && NEWLINE !in r.payloadHash
    ensures NEWLINE !in CanonicalUri(r.path).value
    ensures NEWLINE !in QueryText(r.query)
    ensures NEWLINE !in Canonicalize(r.headers).value.signed
  {
    hide ValidPayloadHash, CanonicalUri, QueryText, Collect, SignedNames;
    CanonicalUriProperties(r.path);
    QueryTextBytes(r.query);
    CollectMeaning(r.headers);
    SignedNamesNoNewline(Collect(r.headers).value);
    PayloadHashNoNewline(r.payloadHash);
  }

  // ----- unique decodability -------------------------------------------------------------

  lemma AssembleInjective(m: Text, p: Text, q: Text, h: Canonical, s: Text,
                          m': Text, p': Text, q': Text, h': Canonical, s': Text)
    requires NEWLINE !in m && NEWLINE !in p && NEWLINE !in q && NEWLINE !in h.signed && NEWLINE !in s
    requires NEWLINE !in m' && NEWLINE !in p' && NEWLINE !in q' && NEWLINE !in h'.signed && NEWLINE !in s'
    requires Assemble(m, p, q, h, s) == Assemble(m', p', q', h', s')
    ensures m == m' && p == p' && q == q' && h == h' && s == s'
  {
    var front := m + [NEWLINE] + p + [NEWLINE] + q + [NEWLINE] + h.block;
    var front' := m' + [NEWLINE] + p' + [NEWLINE] + q' + [NEWLINE] + h'.block;
    LastSeparator(front + [NEWLINE] + h.signed, front' + [NEWLINE] + h'.signed, NEWLINE, s, s');
    LastSeparator(front, front', NEWLINE, h.signed, h'.signed);
    var rest, rest' := q + [NEWLINE] + h.block, q' + [NEWLINE] + h'.block;
    assert front == m + [NEWLINE] + (p + [NEWLINE] + rest);
    assert front' == m' + [NEWLINE] + (p' + [NEWLINE] + rest');
    FirstSeparator(m, m', NEWLINE, p + [NEWLINE] + rest, p' + [NEWLINE] + rest');
    FirstSeparator(p, p', NEWLINE, rest, rest');
    FirstSeparator(q, q', NEWLINE, h.block, h'.block);
  }

  /**
    Two accepted requests have the same canonical request text exactly when they
    agree on method, canonical path, query multiset, the combined value of every
    header, and payload hash.
   */
  lemma CanonicalRequestDetermines(r: Request, s: Request)
    requires Build(r).Ok? && Build(s).Ok?
    ensures Build(r) == Build(s) <==>
            && r.signedMethod == s.signedMethod
            && CanonicalUri(r.path) == CanonicalUri(s.path)
            && multiset(r.query) == multiset(s.query)
            && (forall n :: Combined(r.headers, n) == Combined(s.headers, n))
            && r.payloadHash == s.payloadHash
  {
    QueryTextIffSameMultiset(r.query, s.query);
    SameBlockIffSameMeaning(r.headers, s.headers);
    if Build(r) == Build(s) {
      FieldsNoNewline(r);
      FieldsNoNewline(s);
      AssembleInjective(
        r.signedMethod, CanonicalUri(r.path).value, QueryText(r.query), Canonicalize(r.headers).value, r.payloadHash,
        s.signedMethod, CanonicalUri(s.path).value, QueryText(s.query), Canonicalize(s.headers).value, s.payloadHash);
    }
  }

  /** In particular the signature covers the bytes the path stands for. */
  lemma CanonicalRequestFixesPath(r: Request, s: Request)
    requires Build(r).Ok? && Build(s).Ok? && Build(r) == Build(s)
    requires |r.path| > 0 && r.path[0] == SLASH && |s.path| > 0 && s.path[0] == SLASH
    ensures Decode(r.path) == Decode(s.path)
  {
    CanonicalRequestDetermines(r, s);
    CanonicalUriProperties(r.path);
    CanonicalUriProperties(s.path);
  }
}
