/** Request targets: `object_url`, `with_query` and `with_authority` of `src/endpoint/mod.rs`. */
module Endpoint {
  import opened Wire
  import opened PercentCodec
  import opened CanonicalQuery

  const QUESTION: Byte := '?' as int
  const HASH: Byte := '#' as int
  const BACKSLASH: Byte := '\\' as int
  const AT_SIGN: Byte := '@' as int
  const DOT: Byte := '.' as int
  const HYPHEN: Byte := '-' as int

  datatype Style = PathStyle | VirtualHosted

  datatype EndpointError =
    | InvalidBucket
    | InvalidVirtualHostBucket
    | IpEndpoint
    | InvalidAuthority
    | InvalidQuery
    | InvalidUri

  /** An absolute URL whose path and query are kept byte for byte. */
  datatype Url = Url(scheme: Text, authority: Text, pathAndQuery: Text)

  predicate ValidBucket(bucket: Text) {
    && 0 < |bucket| <= 255
    && forall i :: 0 <= i < |bucket| ==> bucket[i] != SLASH && bucket[i] != BACKSLASH && !IsControl(bucket[i])
  }

  /** What the HTTP library's parsers say: of URIs, of authorities, and of IP addresses. */
  datatype Parsers = Parsers(
    uriOk: Text -> bool,
    authority: Text -> Option<HostPort>,
    isIp: Text -> bool)

  datatype HostPort = HostPort(host: Text, port: Option<nat>)

  predicate IsDnsByte(b: Byte) {
    'a' as int <= b <= 'z' as int || '0' as int <= b <= '9' as int || b == HYPHEN || b == DOT
  }

  /** `validate_virtual_host_bucket`. */
  predicate ValidVirtualHostBucket(isIp: Text -> bool, bucket: Text) {
    && 3 <= |bucket| <= 63
    && bucket[0] != HYPHEN && bucket[0] != DOT
    && bucket[|bucket| - 1] != HYPHEN && bucket[|bucket| - 1] != DOT
    && (forall i :: 0 < i < |bucket| ==> !(bucket[i - 1] == DOT && bucket[i] == DOT))
    && (forall i :: 0 <= i < |bucket| ==> IsDnsByte(bucket[i]))
    && !isIp(bucket)
  }

  predicate IsBracket(b: Byte) {
    b == '[' as int || b == ']' as int
  }

  /** `trim_matches(['[', ']'])`. */
  function TrimBrackets(t: Text): Text {
    if t != [] && IsBracket(t[0]) then TrimBrackets(t[1..])
    else if t != [] && IsBracket(t[|t| - 1]) then TrimBrackets(t[..|t| - 1])
    else t
  }

  function HostSuffix(parsed: HostPort): Text {
    match parsed.port
    case None => [DOT] + parsed.host
    case Some(port) => [DOT] + parsed.host + [COLON] + Decimal(port)
  }

  /** The authority that a bucket is addressed at. */
  function BucketAuthority(parsers: Parsers, authority: Text, bucket: Text, style: Style): Result<Text, EndpointError> {
    if style == PathStyle then Ok(authority)
    else if !ValidVirtualHostBucket(parsers.isIp, bucket) then Err(InvalidVirtualHostBucket)
    else
      match parsers.authority(authority)
      case None => Err(InvalidAuthority)
      case Some(parsed) =>
        if parsers.isIp(TrimBrackets(parsed.host)) then Err(IpEndpoint)
        else Ok(bucket + HostSuffix(parsed))
  }

  /** A base path as `Endpoint::new` stores it: absolute and ending in a slash. */
  predicate ValidBase(base: Text) {
    base != [] && base[0] == SLASH && base[|base| - 1] == SLASH
  }

  // ----- paths ----------------------------------------------------------------------

  function WirePath(base: Text, bucket: Text, key: Option<Text>, style: Style): Text
    requires ValidBase(base)
  {
    match (style, key)
    case (PathStyle, Some(k)) => base + Encode(bucket, true) + [SLASH] + Encode(k, false)
    case (PathStyle, None) => base + Encode(bucket, true)
    case (VirtualHosted, Some(k)) => base + Encode(k, false)
    case (VirtualHosted, None) => if |base| > 1 then base[..|base| - 1] else base
  }

  /** `encode_object_key` and `encode_path_component`, which push onto the path. */
  method PushEncoded(bytes: Text, output: Text, keepSlash: bool) returns (r: Text)
    ensures r == output + Encode(bytes, !keepSlash)
  {
    hide Encode, IsUnreserved, HexDigit;
    r := output;
    EncodeEmpty(!keepSlash);
    for i := 0 to |bytes|
      invariant r == output + Encode(bytes[..i], !keepSlash)
    {
      var b := bytes[i];
      EncodeConcat(bytes[..i], [b], !keepSlash);
      EncodeOne(b, !keepSlash);
      assert bytes[..i] + [b] == bytes[..i + 1];
      ghost var before := r;
      if (keepSlash && b == SLASH) || IsUnreserved(b) {
        r := r + [b];
      } else {
        r := r + [PERCENT];
        r := r + [HexDigit(b / 16)];
        r := r + [HexDigit(b % 16)];
      }
      assert r == before + EncodeByte(b, !keepSlash);
      assert output + Encode(bytes[..i], !keepSlash) + EncodeByte(b, !keepSlash)
          == output + (Encode(bytes[..i], !keepSlash) + EncodeByte(b, !keepSlash));
    }
    assert bytes[..|bytes|] == bytes;
  }

  lemma EncodeEmpty(encodeSlash: bool)
    ensures Encode([], encodeSlash) == []
  {
  }

  function FromParts(uriOk: Text -> bool, scheme: Text, authority: Text, pathAndQuery: Text)
    : Result<Url, EndpointError>
  {
    var serialized := scheme + [':' as int, SLASH, SLASH] + authority + pathAndQuery;
    if uriOk(serialized) then Ok(Url(scheme, authority, pathAndQuery)) else Err(InvalidUri)
  }

  function ObjectUrlOf(parsers: Parsers, scheme: Text, endpoint: Text, base: Text,
                       bucket: Text, key: Option<Text>, style: Style): Result<Url, EndpointError>
    requires ValidBase(base)
  {
    if !ValidBucket(bucket) then Err(InvalidBucket)
    else
      match BucketAuthority(parsers, endpoint, bucket, style)
      case Err(e) => Err(e)
      case Ok(authority) => FromParts(parsers.uriOk, scheme, authority, WirePath(base, bucket, key, style))
  }

  /**
    `object_url` of an endpoint with this scheme, authority and base path. The parsers of the HTTP
    library are parameters.
   */
  method ObjectUrl(parsers: Parsers, scheme: Text, endpoint: Text, base: Text,
                   bucket: Text, key: Option<Text>, style: Style)
    returns (r: Result<Url, EndpointError>)
    requires ValidBase(base)
    ensures r == ObjectUrlOf(parsers, scheme, endpoint, base, bucket, key, style)
  {
    if !ValidBucket(bucket) {
      return Err(InvalidBucket);
    }
    var authority: Text;
    if style == VirtualHosted {
      if !ValidVirtualHostBucket(parsers.isIp, bucket) {
        return Err(InvalidVirtualHostBucket);
      }
      var parsed := parsers.authority(endpoint);
      if parsed.None? {
        return Err(InvalidAuthority);
      }
      if parsers.isIp(TrimBrackets(parsed.value.host)) {
        return Err(IpEndpoint);
      }
      authority := bucket + [DOT] + parsed.value.host;
      if parsed.value.port.Some? {
        authority := authority + [COLON] + Decimal(parsed.value.port.value);
      }
      assert authority == bucket + HostSuffix(parsed.value);
    } else {
      authority := endpoint;
    }
    var path := base;
    if style == PathStyle {
      path := PushEncoded(bucket, path, false);
    }
    if key.Some? {
      EncodedComponent(bucket);
      if style == PathStyle && path[|path| - 1] != SLASH {
        path := path + [SLASH];
      }
      path := PushEncoded(key.value, path, true);
    } else if style == VirtualHosted && |path| > 1 {
      path := path[..|path| - 1];
    }
    assert path == WirePath(base, bucket, key, style);
    r := FromParts(parsers.uriOk, scheme, authority, path);
  }

  lemma EncodedComponent(bucket: Text)
    requires bucket != []
    ensures Encode(bucket, true) != [] && SLASH !in Encode(bucket, true)
  {
    EncodedBytes(bucket, true);
  }

  // ----- the signed path is the wire path ------------------------------------------------

  predicate CanonicalBase(base: Text) {
    Recode(base) == Some(base)
  }

  lemma {:induction false} RecodeRejectsPrefix(a: Text, b: Text)
    requires Recode(a).None? && a != []
    requires a[|a| - 1] == SLASH || (b != [] && b[0] == SLASH)
    ensures Recode(a + b).None?
  {
    if a[0] == PERCENT {
      if TripletValue(a).Some? {
        assert (a + b)[3..] == a[3..] + b;
        RecodeRejectsPrefix(a[3..], b);
      }
    } else {
      assert (a + b)[1..] == a[1..] + b;
      RecodeRejectsPrefix(a[1..], b);
    }
  }

  /** What follows the base path is already canonical. */
  lemma WirePathTail(base: Text, bucket: Text, key: Option<Text>, style: Style) returns (tail: Text)
    requires ValidBase(base) && ValidBucket(bucket) && !(style == VirtualHosted && key.None?)
    ensures WirePath(base, bucket, key, style) == base + tail
    ensures Recode(tail) == Some(tail)
  {
    hide Encode, Recode;
    EncodedIsFixed(bucket, true);
    if key.Some? {
      EncodedIsFixed(key.value, false);
      EncodedIsFixed([SLASH], false);
      EncodeOne(SLASH, false);
    }
    var b := Encode(bucket, true);
    match (style, key)
    case (PathStyle, Some(k)) =>
      RecodeConcat(b, [SLASH]);
      RecodeConcat(b + [SLASH], Encode(k, false));
      tail := b + [SLASH] + Encode(k, false);
    case (PathStyle, None) => tail := b;
    case (VirtualHosted, Some(k)) => tail := Encode(k, false);
  }

  /**
    Signing canonicalisation leaves the wire path of an object alone exactly when
    the endpoint's own base path is canonical.
   */
  lemma SignedPathIsWirePath(base: Text, bucket: Text, key: Option<Text>, style: Style)
    requires ValidBase(base) && ValidBucket(bucket)
    ensures CanonicalUri(WirePath(base, bucket, key, style)) == Ok(WirePath(base, bucket, key, style))
       <==> CanonicalBase(base)
  {
    if style == VirtualHosted && key.None? {
      if |base| > 1 {
        var x := base[..|base| - 1];
        assert base == x + [SLASH];
        SlashIsFixed();
        FixedUpToTail(x, [SLASH]);
      }
    } else {
      var tail := WirePathTail(base, bucket, key, style);
      FixedUpToTail(base, tail);
    }
  }

  lemma SlashIsFixed()
    ensures Recode([SLASH]) == Some([SLASH])
  {
    EncodedIsFixed([SLASH], false);
    EncodeOne(SLASH, false);
  }

  /** A canonical tail neither breaks nor mends what comes before a slash. */
  lemma FixedUpToTail(a: Text, tail: Text)
    requires a != [] && Recode(tail) == Some(tail)
    requires a[|a| - 1] == SLASH || (tail != [] && tail[0] == SLASH)
    ensures Recode(a + tail) == Some(a + tail) <==> Recode(a) == Some(a)
  {
    if Recode(a).None? {
      RecodeRejectsPrefix(a, tail);
    } else {
      RecodeConcat(a, tail);
      var c := Recode(a).value;
      if c + tail == a + tail {
        assert |c| == |a|;
        assert c == (c + tail)[..|c|] == a;
      }
    }
  }

  /** Base paths that are not canonical exist: `/+/` is one. */
  lemma UncanonicalBase(base: Text, bucket: Text, key: Option<Text>, style: Style)
    requires base == [SLASH, '+' as int, SLASH] && ValidBucket(bucket)
    ensures ValidBase(base) && !CanonicalBase(base)
    ensures CanonicalUri(WirePath(base, bucket, key, style)) != Ok(WirePath(base, bucket, key, style))
  {
    hide Recode, WirePath;
    assert !IsWireByte(base[1]);
    RecodeProperties(base);
    assert base[1] in base;
    SignedPathIsWirePath(base, bucket, key, style);
  }

  /** Bucket and key can be read back from a path-style wire path. */
  lemma PathStyleInjective(base: Text, b1: Text, k1: Option<Text>, b2: Text, k2: Option<Text>)
    requires ValidBase(base) && ValidBucket(b1) && ValidBucket(b2)
    requires WirePath(base, b1, k1, PathStyle) == WirePath(base, b2, k2, PathStyle)
    ensures b1 == b2 && k1 == k2
  {
    hide Encode, WirePath;
    PathStyleTail(base, b1, k1);
    PathStyleTail(base, b2, k2);
    var t1, t2 := Tail(b1, k1), Tail(b2, k2);
    assert t1 == (base + t1)[|base|..] == (base + t2)[|base|..] == t2;
    TailHasKey(b1, k1);
    TailHasKey(b2, k2);
    EncodedComponent(b1);
    EncodedComponent(b2);
    if k1.Some? {
      FirstSeparator(Encode(b1, true), Encode(b2, true), SLASH, Encode(k1.value, false), Encode(k2.value, false));
      EncodeInjective(k1.value, k2.value, false);
    }
    EncodeInjective(b1, b2, true);
  }

  /** What a path-style path says below the base. */
  function Tail(bucket: Text, key: Option<Text>): Text {
    if key.Some? then Encode(bucket, true) + [SLASH] + Encode(key.value, false) else Encode(bucket, true)
  }

  lemma PathStyleTail(base: Text, bucket: Text, key: Option<Text>)
    requires ValidBase(base)
    ensures WirePath(base, bucket, key, PathStyle) == base + Tail(bucket, key)
  {
    hide Encode;
  }

  lemma TailHasKey(bucket: Text, key: Option<Text>)
    requires ValidBucket(bucket)
    ensures SLASH in Tail(bucket, key) <==> key.Some?
  {
    EncodedComponent(bucket);
    hide Encode;
  }

  /** The same place with no key, or with the empty key that no object has. */
  predicate SameKey(base: Text, k1: Option<Text>, k2: Option<Text>) {
    k1 == k2 || (base == [SLASH] && k1 in {None, Some([])} && k2 in {None, Some([])})
  }

  lemma VirtualPathInjective(base: Text, bucket: Text, k1: Option<Text>, k2: Option<Text>)
    requires ValidBase(base)
    ensures WirePath(base, bucket, k1, VirtualHosted) == WirePath(base, bucket, k2, VirtualHosted)
       <==> SameKey(base, k1, k2)
  {
    hide Encode;
    EncodeEmpty(false);
    var t1 := if k1.Some? then Encode(k1.value, false) else [];
    var t2 := if k2.Some? then Encode(k2.value, false) else [];
    assert (base + t1)[|base|..] == t1 && (base + t2)[|base|..] == t2;
    if k1.Some? && k2.Some? && t1 == t2 {
      EncodeInjective(k1.value, k2.value, false);
    }
    if k1.Some? && t1 == [] {
      EncodeInjective(k1.value, [], false);
    }
    if k2.Some? && t2 == [] {
      EncodeInjective(k2.value, [], false);
    }
    assert |base| == 1 ==> base == [SLASH];
    assert base + [] == base;
  }

  /**
    A virtual-hosted URL names one bucket and one key: two of them on the same endpoint are equal
    exactly when bucket and key are, the empty key and no key being one place below the root path.
   */
  lemma VirtualHostedInjective(parsers: Parsers, scheme: Text, endpoint: Text, base: Text,
                               b1: Text, k1: Option<Text>, b2: Text, k2: Option<Text>)
    requires ValidBase(base)
    requires ObjectUrlOf(parsers, scheme, endpoint, base, b1, k1, VirtualHosted).Ok?
    requires ObjectUrlOf(parsers, scheme, endpoint, base, b2, k2, VirtualHosted).Ok?
    ensures ObjectUrlOf(parsers, scheme, endpoint, base, b1, k1, VirtualHosted)
         == ObjectUrlOf(parsers, scheme, endpoint, base, b2, k2, VirtualHosted)
       <==> b1 == b2 && SameKey(base, k1, k2)
  {
    hide WirePath, ValidBucket, ValidVirtualHostBucket, HostSuffix;
    var suffix := HostSuffix(parsers.authority(endpoint).value);
    VirtualPathInjective(base, b1, k1, k2);
    VirtualPathIgnoresBucket(base, b1, b2, k2);
    if b1 + suffix == b2 + suffix {
      assert |b1| == |b2|;
      assert b1 == (b1 + suffix)[..|b1|] == b2;
    }
  }

  lemma VirtualPathIgnoresBucket(base: Text, b1: Text, b2: Text, key: Option<Text>)
    requires ValidBase(base)
    ensures WirePath(base, b1, key, VirtualHosted) == WirePath(base, b2, key, VirtualHosted)
  {
  }

  // ----- queries and authorities ------------------------------------------------------------

  /** `split_once('?')`: the part before the first question mark. */
  function PathOf(t: Text): Text {
    if t == [] || t[0] == QUESTION then [] else [t[0]] + PathOf(t[1..])
  }

  function WithQuery(parsers: Parsers, url: Url, query: Text): Result<Url, EndpointError> {
    if (query != [] && query[0] == QUESTION) || HASH in query then Err(InvalidQuery)
    else
      var path := PathOf(url.pathAndQuery);
      FromParts(parsers.uriOk, url.scheme, url.authority, if query == [] then path else path + [QUESTION] + query)
  }

  /** `with_authority`. */
  function WithAuthority(parsers: Parsers, url: Url, authority: Text): Result<Url, EndpointError> {
    var parsed := parsers.authority(authority);
    if parsed.None? || AT_SIGN in authority || parsed.value.host == [] then Err(InvalidAuthority)
    else FromParts(parsers.uriOk, url.scheme, authority, url.pathAndQuery)
  }

  lemma {:induction false} PathOfSplit(path: Text, rest: Text)
    requires QUESTION !in path
    ensures PathOf(path) == path && PathOf(path + [QUESTION] + rest) == path
  {
    if path == [] {
      assert path + [QUESTION] + rest == [QUESTION] + rest;
    } else {
      assert (path + [QUESTION] + rest)[1..] == path[1..] + [QUESTION] + rest;
      PathOfSplit(path[1..], rest);
      assert path == [path[0]] + path[1..];
    }
  }

  lemma {:induction false} PathOfNoQuestion(t: Text)
    ensures QUESTION !in PathOf(t)
  {
    if t != [] && t[0] != QUESTION {
      PathOfNoQuestion(t[1..]);
    }
  }

  /** Neither attaching a query nor moving to another authority touches the path. */
  lemma TargetPathIsStable(parsers: Parsers, url: Url, query: Text, authority: Text)
    ensures var q := WithQuery(parsers, url, query);
            q.Ok? ==> && PathOf(q.value.pathAndQuery) == PathOf(url.pathAndQuery)
                      && q.value.scheme == url.scheme && q.value.authority == url.authority
    ensures var a := WithAuthority(parsers, url, authority);
            a.Ok? ==> a.value == url.(authority := authority)
  {
    PathOfNoQuestion(url.pathAndQuery);
    PathOfSplit(PathOf(url.pathAndQuery), query);
  }

  /** A canonical query is never refused for its bytes. */
  lemma CanonicalQueryIsAccepted(parsers: Parsers, url: Url, parameters: seq<Param>)
    ensures WithQuery(parsers, url, QueryText(parameters)) != Err(InvalidQuery)
  {
    QueryTextBytes(parameters);
    var query := QueryText(parameters);
    assert query != [] ==> query[0] in query;
  }

  /**
    End to end: whatever the parameters and the redirect, the path that is signed
    is the path that was built, byte for byte.
   */
  lemma SignedTarget(parsers: Parsers, url: Url, base: Text, bucket: Text,
                     key: Option<Text>, style: Style, parameters: seq<Param>, authority: Text)
    requires ValidBase(base) && CanonicalBase(base) && ValidBucket(bucket)
    requires url.pathAndQuery == WirePath(base, bucket, key, style)
    ensures var q := WithQuery(parsers, url, QueryText(parameters));
            q.Ok? ==>
              var a := WithAuthority(parsers, q.value, authority);
              a.Ok? ==> && PathOf(a.value.pathAndQuery) == url.pathAndQuery
                        && CanonicalUri(PathOf(a.value.pathAndQuery)) == Ok(url.pathAndQuery)
  {
    SignedPathIsWirePath(base, bucket, key, style);
    CanonicalUriProperties(url.pathAndQuery);
    PathOfSplit(url.pathAndQuery, []);
    var q := WithQuery(parsers, url, QueryText(parameters));
    TargetPathIsStable(parsers, url, QueryText(parameters), authority);
    if q.Ok? {
      TargetPathIsStable(parsers, q.value, [], authority);
    }
  }
}
