/**
  What the canonical texts look like, read with a splitter that knows nothing of how they are built:
  "Create a canonical request" of the AWS Signature Version 4 documentation.
 */
module CanonicalLayout {
  import opened Wire
  import opened TextSplit
  import opened TextOrder
  import opened PercentCodec
  import opened CanonicalQuery
  import opened CanonicalHeaders
  import opened CanonicalRequest

  // ----- the query -----------------------------------------------------------------------

  function Texts(pairs: seq<Param>): seq<Text> {
    seq(|pairs|, i requires 0 <= i < |pairs| =>
        Encode(pairs[i].name, true) + ['=' as int] + Encode(pairs[i].value, true))
  }

  /** Ascending by encoded name, and by encoded value among equal names, in byte order. */
  ghost predicate InByteOrder(pairs: seq<Param>) {
    forall i, j :: 0 <= i < j < |pairs| ==> PairBefore(pairs[i], pairs[j])
  }

  ghost predicate PairBefore(p: Param, q: Param) {
    var m, n := Encode(p.name, true), Encode(q.name, true);
    Before(m, n) && (m == n ==> Before(Encode(p.value, true), Encode(q.value, true)))
  }

  lemma {:induction false} SplitJoin(s: seq<Param>)
    requires s != [] && forall i :: 0 <= i < |s| ==> Encoded(s[i])
    ensures |Split(Join(s), '&' as int)| == |s|
    ensures forall i :: 0 <= i < |s| ==> Split(Join(s), '&' as int)[i] == s[i].name + ['=' as int] + s[i].value
  {
    ItemNoAmpersand(s[0]);
    if |s| == 1 {
      SplitPiece(Item(s[0]), AMPERSAND);
    } else {
      SplitJoin(s[1..]);
      SplitCons(Item(s[0]), AMPERSAND, Join(s[1..]));
    }
  }

  lemma DecodeEncodedParam(p: Param)
    ensures DecodeParam(EncodeParam(p)) == p
  {
    DecodeInvertsEncode(p.name, true);
    DecodeInvertsEncode(p.value, true);
  }

  lemma LeIsPairBefore(p: Param, q: Param)
    requires Le(EncodeParam(p), EncodeParam(q))
    ensures PairBefore(p, q)
  {
    TextLeMeaning(Encode(p.name, true), Encode(q.name, true));
    TextLeMeaning(Encode(p.value, true), Encode(q.value, true));
    TextLeTotal(Encode(p.name, true), Encode(q.name, true));
    hide Before, Encode, TextLe;
  }

  /**
    A canonical query is the parameters, all of them, percent-encoded, `name=value`, joined by
    ampersands, in byte order of the encoded forms.
   */
  lemma {:induction false} QueryLayout(p: seq<Param>) returns (pairs: seq<Param>)
    ensures multiset(pairs) == multiset(p) && InByteOrder(pairs)
    ensures if p == [] then QueryText(p) == [] else Split(QueryText(p), '&' as int) == Texts(pairs)
  {
    var encoded := Map(EncodeParam, p);
    var sorted := Sort(encoded);
    hide Sort, Before, Encode, Join;
    SortSorts(encoded);
    pairs := Map(DecodeParam, sorted);
    MapKeepsMultiset(DecodeParam, sorted, encoded);
    DecodeEncodedParams(p);
    forall i | 0 <= i < |sorted| ensures EncodeParam(pairs[i]) == sorted[i] {
      assert sorted[i] in multiset(encoded);
      var k :| 0 <= k < |p| && encoded[k] == sorted[i];
      DecodeEncodedParam(p[k]);
    }
    forall i, j | 0 <= i < j < |pairs| ensures PairBefore(pairs[i], pairs[j]) {
      LeIsPairBefore(pairs[i], pairs[j]);
    }
    SortedEncoded(p);
    SameLength(sorted, encoded);
    if p == [] {
      JoinNothing();
    } else {
      SplitJoin(sorted);
      assert Split(QueryText(p), '&' as int) == Texts(pairs);
    }
  }

  lemma SameLength(a: seq<Param>, b: seq<Param>)
    requires multiset(a) == multiset(b)
    ensures |a| == |b|
  {
    assert |multiset(a)| == |a| && |multiset(b)| == |b|;
  }

  // ----- header names ------------------------------------------------------------------------

  /** ASCII letters that differ only in case. */
  predicate SameLetter(a: Byte, b: Byte) {
    || a == b
    || ('A' as int <= a <= 'Z' as int && b == a + 32)
    || ('A' as int <= b <= 'Z' as int && a == b + 32)
  }

  predicate SameName(a: Text, b: Text) {
    |a| == |b| && forall i :: 0 <= i < |a| ==> SameLetter(a[i], b[i])
  }

  predicate HasUpperCase(t: Text) {
    exists i :: 0 <= i < |t| && 'A' as int <= t[i] <= 'Z' as int
  }

  lemma LowerIffSameName(a: Text, b: Text)
    ensures Lower(a) == Lower(b) <==> SameName(a, b)
  {
    if |a| == |b| {
      forall i | 0 <= i < |a| ensures Lower(a)[i] == Lower(b)[i] <==> SameLetter(a[i], b[i]) {
      }
    }
  }

  lemma LowerIsCanonical(name: Text)
    ensures SameName(name, Lower(name)) && !HasUpperCase(Lower(name)) && Lower(Lower(name)) == Lower(name)
  {
  }

  /** Section 3.2.6 of RFC 7230: visible ASCII without the delimiters. */
  lemma TokenBytesExactly(b: Byte)
    ensures IsTokenByte(b) <==> 0x21 <= b <= 0x7E && b !in Ascii("\"(),/:;<=>?@[\\]{}")
  {
    hide Ascii, IsTokenByte;
    Delimiters(b);
    TokenRanges(b);
  }

  lemma Delimiters(b: Byte)
    ensures b in Ascii("\"(),/:;<=>?@[\\]{}") <==>
            b == 34 || 40 <= b <= 41 || b == 44 || b == 47 || 58 <= b <= 64 || 91 <= b <= 93 || b == 123 || b == 125
  {
    assert Ascii("\"(),/:;<=>?@[\\]{}") == [34, 40, 41, 44, 47, 58, 59, 60, 61, 62, 63, 64, 91, 92, 93, 123, 125];
    hide Ascii;
  }

  lemma TokenRanges(b: Byte)
    ensures IsTokenByte(b) <==>
            || IsAlphanumeric(b) || b == 33 || 35 <= b <= 39 || 42 <= b <= 43 || 45 <= b <= 46 || 94 <= b <= 96
            || b == 124 || b == 126
  {
  }

  lemma SameNameSameValidity(a: Text, b: Text)
    requires SameName(a, b)
    ensures ValidName(a) <==> ValidName(b)
  {
    hide IsTokenByte;
    forall i | 0 <= i < |a| ensures IsTokenByte(a[i]) == IsTokenByte(b[i]) {
      SameLetterSameToken(a[i], b[i]);
    }
  }

  lemma SameLetterSameToken(a: Byte, b: Byte)
    requires SameLetter(a, b)
    ensures IsTokenByte(a) == IsTokenByte(b)
  {
  }

  ghost predicate SameUpToCase(p: seq<Header>, q: seq<Header>) {
    |p| == |q| && forall i :: 0 <= i < |p| ==> SameName(p[i].name, q[i].name) && p[i].value == q[i].value
  }

  lemma {:induction false} CollectIgnoresCase(p: seq<Header>, q: seq<Header>)
    requires SameUpToCase(p, q)
    ensures Collect(p) == Collect(q)
  {
    hide SameName, Push, Lower, Normalized, ValidName, ValidValue;
    if p != [] {
      var n := |p| - 1;
      assert SameUpToCase(p[..n], q[..n]);
      CollectIgnoresCase(p[..n], q[..n]);
      assert SameName(p[n].name, q[n].name);
      SameNameSameValidity(p[n].name, q[n].name);
      LowerIffSameName(p[n].name, q[n].name);
    }
  }

  /** Letter case in header names does not matter. */
  lemma {:induction false} CaseDoesNotMatter(p: seq<Header>, q: seq<Header>)
    requires SameUpToCase(p, q)
    ensures Canonicalize(p) == Canonicalize(q)
  {
    CollectIgnoresCase(p, q);
  }

  // ----- header values ---------------------------------------------------------------------------

  /** Words and the gaps around them, in turn. */
  function Weave(gaps: seq<Text>, words: seq<Text>): Text
    requires |gaps| == |words| + 1
  {
    if words == [] then gaps[0]
    else
      var n := |words| - 1;
      Weave(gaps[..n + 1], words[..n]) + words[n] + gaps[n + 1]
  }

  predicate IsSpace(b: Byte) {
    b == 32 || b == 9
  }

  /** A text is these words with these gaps: words without blanks, gaps of blanks, and none missing between words. */
  ghost predicate Woven(t: Text, gaps: seq<Text>, words: seq<Text>) {
    && |gaps| == |words| + 1 && t == Weave(gaps, words)
    && (forall i :: 0 <= i < |words| ==> words[i] != [] && forall k :: 0 <= k < |words[i]| ==> !IsSpace(words[i][k]))
    && GapsAreBlank(gaps)
  }

  predicate AllBlank(t: Text) {
    forall k :: 0 <= k < |t| ==> IsSpace(t[k])
  }

  lemma WeaveLast(gaps: seq<Text>, words: seq<Text>, b: Byte)
    requires |gaps| == |words| + 1
    ensures var n := |words|;
            Weave(gaps[..n] + [gaps[n] + [b]], words) == Weave(gaps, words) + [b]
  {
    var n := |words|;
    var more := gaps[..n] + [gaps[n] + [b]];
    if n > 0 {
      assert more[..n] == gaps[..n];
    }
  }

  lemma WeaveMore(gaps: seq<Text>, words: seq<Text>, word: Text)
    requires |gaps| == |words| + 1
    ensures Weave(gaps + [[]], words + [word]) == Weave(gaps, words) + word
  {
    var g, w := gaps + [[]], words + [word];
    assert g[..|words| + 1] == gaps && w[..|words|] == words;
    assert Weave(gaps, words) + word + [] == Weave(gaps, words) + word;
  }

  lemma WeaveLonger(gaps: seq<Text>, words: seq<Text>, b: Byte)
    requires |gaps| == |words| + 1 && words != [] && gaps[|words|] == []
    ensures var n := |words| - 1;
            Weave(gaps, words[..n] + [words[n] + [b]]) == Weave(gaps, words) + [b]
  {
    var n := |words| - 1;
    var more := words[..n] + [words[n] + [b]];
    assert more[..n] == words[..n];
    var x := Weave(gaps[..n + 1], words[..n]);
    assert x + (words[n] + [b]) + [] == x + words[n] + [] + [b];
  }

  /** A gap at the end exactly when the text ends with a blank. */
  lemma {:induction false} WordsAreWoven(t: Text) returns (gaps: seq<Text>)
    ensures |gaps| == |Words(t)| + 1 && t == Weave(gaps, Words(t))
    ensures GapsAreBlank(gaps)
    ensures gaps[|Words(t)|] != [] <==> t != [] && IsBlank(t[|t| - 1])
  {
    hide Weave, AllBlank, Words, IsBlank;
    WordsOfNothing();
    if t == [] {
      NothingWoven();
      gaps := [[]];
    } else {
      var front, last := t[..|t| - 1], t[|t| - 1];
      assert t == front + [last];
      var g := WordsAreWoven(front);
      var w := Words(front);
      var n := |w|;
      if IsBlank(last) {
        WordsThenAnyBlank(front, last);
        WeaveLast(g, w, last);
        BlankLonger(g[n], last);
        gaps := g[..n] + [g[n] + [last]];
      } else if front == [] || IsBlank(front[|front| - 1]) {
        WordsSnoc(front, last);
        WeaveMore(g, w, [last]);
        NothingWoven();
        gaps := g + [[]];
      } else {
        WordsSnoc(front, last);
        WeaveLonger(g, w, last);
        gaps := g;
      }
    }
  }

  /** All gaps are blank, and only the first and the last may be empty. */
  ghost predicate GapsAreBlank(gaps: seq<Text>) {
    forall i :: 0 <= i < |gaps| ==> AllBlank(gaps[i]) && (0 < i < |gaps| - 1 ==> gaps[i] != [])
  }

  lemma WordsThenAnyBlank(t: Text, b: Byte)
    requires IsBlank(b)
    ensures Words(t + [b]) == Words(t)
  {
    assert (t + [b])[..|t|] == t;
  }

  lemma NothingWoven()
    ensures Weave([[]], []) == [] && AllBlank([])
  {
  }

  lemma BlankLonger(gap: Text, b: Byte)
    requires AllBlank(gap) && IsBlank(b)
    ensures AllBlank(gap + [b])
  {
  }

  lemma {:induction false} JoinWordsIsGlue(w: seq<Text>)
    requires w != []
    ensures JoinWords(w) == Glue(w, 32)
  {
    if |w| > 1 {
      var front, last := w[..|w| - 1], w[|w| - 1];
      assert w == front + [last];
      JoinWordsIsGlue(front);
      GlueSnoc(front, 32, last);
    }
  }

  /** A normalised value is the words of the value, whatever blanks surround them, one space apart. */
  lemma {:induction false} NormalizedExactly(value: Text) returns (gaps: seq<Text>, words: seq<Text>)
    ensures Woven(value, gaps, words)
    ensures Normalized(value) == if words == [] then [] else Glue(words, 32)
  {
    words := Words(value);
    gaps := WordsAreWoven(value);
    WordsAreWords(value);
    hide Words;
    if words != [] {
      JoinWordsIsGlue(words);
    }
  }

  lemma ValidValueExactly(value: Text)
    ensures ValidValue(value) <==> forall i :: 0 <= i < |value| ==> (value[i] >= 32 && value[i] != 127) || value[i] == 9
  {
  }

  // ----- the header block ----------------------------------------------------------------------------

  /** The normalised values of the headers that share this name, in the order they were given. */
  function Grouped(headers: seq<Header>, name: Text): seq<Text> {
    if headers == [] then []
    else
      Grouped(headers[..|headers| - 1], name)
      + if SameName(headers[|headers| - 1].name, name) then [Normalized(headers[|headers| - 1].value)] else []
  }

  function CommaList(values: seq<Text>): Text {
    if values == [] then [] else Glue(values, ',' as int)
  }

  lemma {:induction false} JoinValuesIsCommaList(values: seq<Text>)
    ensures JoinValues(values) == CommaList(values)
  {
    if |values| > 1 {
      var front, last := values[..|values| - 1], values[|values| - 1];
      assert values == front + [last];
      JoinValuesIsCommaList(front);
      GlueSnoc(front, ',' as int, last);
    }
  }

  lemma {:induction false} ValuesForIsGrouped(headers: seq<Header>, name: Text)
    requires Lower(name) == name
    ensures ValuesFor(headers, name) == Grouped(headers, name)
  {
    hide Normalized, SameName;
    if headers != [] {
      ValuesForIsGrouped(headers[..|headers| - 1], name);
      LowerIffSameName(headers[|headers| - 1].name, name);
    }
  }

  lemma {:induction false} GroupedIffGiven(headers: seq<Header>, name: Text)
    ensures Grouped(headers, name) != [] <==> exists k :: 0 <= k < |headers| && SameName(headers[k].name, name)
  {
    hide Normalized, SameName;
    if headers != [] {
      var front := headers[..|headers| - 1];
      GroupedIffGiven(front, name);
      assert forall k :: 0 <= k < |front| ==> front[k] == headers[k];
    }
  }

  ghost function HeaderLines(headers: seq<Header>, names: seq<Text>): seq<Text> {
    seq(|names|, i requires 0 <= i < |names| => names[i] + [':' as int] + CommaList(Grouped(headers, names[i])))
  }

  /** Names in lower case, ascending in byte order, that are exactly the given names up to case. */
  ghost predicate NamesOf(headers: seq<Header>, names: seq<Text>) {
    && (forall i, j :: 0 <= i < j < |names| ==> names[i] != names[j] && Before(names[i], names[j]))
    && (forall i :: 0 <= i < |names| ==> !HasUpperCase(names[i]) && Given(headers, names[i]))
    && (forall k :: 0 <= k < |headers| ==> Listed(names, headers[k].name))
  }

  ghost predicate Given(headers: seq<Header>, name: Text) {
    exists k :: 0 <= k < |headers| && SameName(headers[k].name, name)
  }

  ghost predicate Listed(names: seq<Text>, name: Text) {
    exists i :: 0 <= i < |names| && SameName(name, names[i])
  }

  function EntryNames(entries: seq<Entry>): seq<Text> {
    seq(|entries|, i requires 0 <= i < |entries| => entries[i].name)
  }

  function EntryLines(entries: seq<Entry>): seq<Text> {
    seq(|entries|, i requires 0 <= i < |entries| => entries[i].name + [':' as int] + JoinValues(entries[i].values))
  }

  lemma {:induction false} SplitSignedNames(entries: seq<Entry>)
    requires entries != [] && AllValid(entries)
    ensures Split(SignedNames(entries), ';' as int) == EntryNames(entries)
  {
    hide ValidEntry;
    var front, last := entries[..|entries| - 1], entries[|entries| - 1];
    EntryTexts(last);
    if |entries| == 1 {
      SplitPiece(last.name, SEMICOLON);
    } else {
      SplitSignedNames(front);
      SplitAt(SignedNames(front), SEMICOLON, last.name);
      SplitPiece(last.name, SEMICOLON);
      assert EntryNames(entries) == EntryNames(front) + [last.name];
    }
  }

  lemma EntryTexts(e: Entry)
    requires ValidEntry(e)
    ensures SEMICOLON !in e.name && NEWLINE !in e.name + [':' as int] + JoinValues(e.values)
  {
    JoinValuesNoNewline(e.values);
  }

  /** The block is its lines, each followed by a newline. */
  lemma {:induction false} SplitBlock(entries: seq<Entry>)
    requires AllValid(entries)
    ensures Split(Block(entries), 10) == EntryLines(entries) + [[]]
  {
    hide ValidEntry, JoinValues, Split;
    if entries == [] {
      SplitNothing(10);
    } else {
      var front, last := entries[..|entries| - 1], entries[|entries| - 1];
      var body := last.name + [':' as int] + JoinValues(last.values);
      assert Block(entries) == Block(front) + body + [10];
      SplitBlock(front);
      EntryTexts(last);
      BlockEnds(front);
      AddLine(Block(front), EntryLines(front), body);
      assert EntryLines(entries) == EntryLines(front) + [body];
      assert EntryLines(front) + [body, []] == EntryLines(entries) + [[]];
    }
  }

  lemma {:induction false} AddLine(x: Text, lines: seq<Text>, body: Text)
    requires x == [] || x[|x| - 1] == 10
    requires Split(x, 10) == lines + [[]] && 10 !in body
    ensures Split(x + body + [10], 10) == lines + [body, []]
  {
    hide Split;
    var line := body + [10] + [];
    SplitCons(body, 10, []);
    SplitNothing(10);
    if x == [] {
      assert x + body + [10] == line;
      assert lines + [[]] == [[]] + [];
      assert |lines| == 0;
    } else {
      var y := x[..|x| - 1];
      assert x == y + [10] + [] && x + body + [10] == y + [10] + line;
      SplitAt(y, 10, []);
      SplitAt(y, 10, line);
      assert Split(y, 10) == (Split(y, 10) + [[]])[..|lines|] == lines;
    }
  }

  lemma {:induction false} LookupAt(entries: seq<Entry>, i: nat)
    requires Ascending(entries) && i < |entries|
    ensures Lookup(entries, entries[i].name) == entries[i].values
  {
    if i > 0 {
      assert TextLt(entries[0].name, entries[i].name);
      LookupAt(entries[1..], i - 1);
    }
  }

  lemma {:induction false} LookupFound(entries: seq<Entry>, name: Text) returns (i: nat)
    requires Lookup(entries, name) != []
    ensures i < |entries| && entries[i].name == name
  {
    if entries[0].name == name {
      i := 0;
    } else {
      var j := LookupFound(entries[1..], name);
      i := j + 1;
    }
  }

  lemma {:induction false} LowerNames(headers: seq<Header>, name: Text)
    requires ValuesFor(headers, name) != []
    ensures Lower(name) == name
  {
    hide Normalized;
    var front, last := headers[..|headers| - 1], headers[|headers| - 1];
    LowerIsCanonical(last.name);
    if Lower(last.name) != name {
      LowerNames(front, name);
    }
  }

  lemma {:induction false} EntryIsGrouped(headers: seq<Header>, i: nat)
    requires Collect(headers).Ok? && i < |Collect(headers).value|
    ensures var e := Collect(headers).value[i];
            && e.values == Grouped(headers, e.name) != []
            && !HasUpperCase(e.name) && Given(headers, e.name)
  {
    hide Collect, Lookup, ValuesFor, Grouped, SameName, Lower, HasUpperCase;
    var entries := Collect(headers).value;
    var e := entries[i];
    CollectMeaning(headers);
    assert ValidEntry(e);
    LookupAt(entries, i);
    LowerNames(headers, e.name);
    LowerIsCanonical(e.name);
    ValuesForIsGrouped(headers, e.name);
    GroupedIffGiven(headers, e.name);
  }

  lemma {:induction false} HeaderIsListed(headers: seq<Header>, k: nat)
    requires Collect(headers).Ok? && k < |headers|
    ensures Listed(EntryNames(Collect(headers).value), headers[k].name)
  {
    hide Collect, Lookup, ValuesFor, Grouped, SameName, Lower;
    var entries, name := Collect(headers).value, Lower(headers[k].name);
    CollectMeaning(headers);
    LowerIsCanonical(headers[k].name);
    GroupedIffGiven(headers, name);
    ValuesForIsGrouped(headers, name);
    var i := LookupFound(entries, name);
    assert EntryNames(entries)[i] == name;
  }

  lemma CanonicalParts(headers: seq<Header>)
    requires Canonicalize(headers).Ok?
    ensures Collect(headers).Ok? && Collect(headers).value != []
    ensures Canonicalize(headers).value == Canonical(Block(Collect(headers).value), SignedNames(Collect(headers).value))
  {
    hide Collect, Block, SignedNames;
  }

  /**
    The signed list is the header names, lower-case, each once, in byte order, joined by semicolons; the
    block has one line for each of them: the name, a colon, and its values joined by commas.
   */
  lemma {:induction false} HeaderLayout(headers: seq<Header>) returns (names: seq<Text>)
    requires Canonicalize(headers).Ok?
    ensures NamesOf(headers, names)
    ensures Split(Canonicalize(headers).value.signed, ';' as int) == names
    ensures Split(Canonicalize(headers).value.block, 10) == HeaderLines(headers, names) + [[]]
  {
    hide Canonicalize, Collect, Lookup, Grouped, SameName, HasUpperCase, Before, Given, Listed, Block, SignedNames,
         TextLe, Split, ValidEntry, JoinValues, ValidName, ValidValue, ValuesFor, CommaList;
    CanonicalParts(headers);
    var entries := Collect(headers).value;
    CollectMeaning(headers);
    names := EntryNames(entries);
    forall i | 0 <= i < |entries|
      ensures EntryLines(entries)[i] == HeaderLines(headers, names)[i]
      ensures !HasUpperCase(names[i]) && Given(headers, names[i])
    {
      EntryIsGrouped(headers, i);
      JoinValuesIsCommaList(entries[i].values);
    }
    forall i, j | 0 <= i < j < |names| ensures names[i] != names[j] && Before(names[i], names[j]) {
      assert TextLt(entries[i].name, entries[j].name);
      TextLeMeaning(names[i], names[j]);
    }
    forall k | 0 <= k < |headers| ensures Listed(names, headers[k].name) {
      HeaderIsListed(headers, k);
    }
    SplitSignedNames(entries);
    SplitBlock(entries);
    assert EntryLines(entries) == HeaderLines(headers, names);
  }

  /** Which requests are refused for their headers, and why. */
  lemma {:induction false} HostRule(headers: seq<Header>)
    requires forall i :: 0 <= i < |headers| ==> ValidName(headers[i].name) && ValidValue(headers[i].value)
    ensures var hosts := Grouped(headers, Ascii("host"));
            && (Canonicalize(headers) == Err(MissingHostHeader) <==> hosts == [])
            && (Canonicalize(headers) == Err(InvalidHostHeader) <==> |hosts| > 1 || hosts == [[]])
            && (Canonicalize(headers).Ok? <==> |hosts| == 1 && hosts[0] != [])
  {
    hide Collect, Lookup, Grouped, ValidName, ValidValue;
    assert HOST == Ascii("host") && Lower(HOST) == HOST;
    CollectMeaning(headers);
    ValuesForIsGrouped(headers, HOST);
  }

  /** The first bad header decides. */
  lemma {:induction false} FirstBadHeader(headers: seq<Header>, i: nat)
    requires i < |headers|
    requires forall j :: 0 <= j < i ==> ValidName(headers[j].name) && ValidValue(headers[j].value)
    requires !ValidName(headers[i].name) || !ValidValue(headers[i].value)
    ensures Canonicalize(headers) == Err(if ValidName(headers[i].name) then InvalidHeaderValue else InvalidHeaderName)
  {
    hide ValidName, ValidValue, Collect, Push, Lower, Normalized;
    CollectMeaning(headers[..i]);
    CollectSnoc(headers, i);
    CollectStops(headers, i + 1);
  }

  // ----- the request ------------------------------------------------------------------------------------

  /**
    The canonical request, line by line: method, path, query, the header lines and a blank one, the
    signed names, and the payload hash.
   */
  lemma {:induction false} RequestLayout(r: Request)
    requires Build(r).Ok?
    ensures var lines, headers := Split(Build(r).value, 10), Canonicalize(r.headers).value;
            lines == [r.signedMethod, CanonicalUri(r.path).value, QueryText(r.query)]
                     + Split(headers.block, 10) + [headers.signed, r.payloadHash]
  {
    hide Split, Canonicalize, CanonicalUri, QueryText, Assemble;
    FieldsNoNewline(r);
    AssembledLines(r.signedMethod, CanonicalUri(r.path).value, QueryText(r.query), Canonicalize(r.headers).value,
                   r.payloadHash);
  }

  lemma AssembledTail(block: Text, signed: Text, hash: Text)
    requires NEWLINE !in signed && NEWLINE !in hash
    ensures Split(block + [10] + (signed + [10] + hash), 10) == Split(block, 10) + [signed, hash]
  {
    hide Split;
    SplitAt(block, 10, signed + [10] + hash);
    SplitCons(signed, 10, hash);
    SplitPiece(hash, 10);
  }

  lemma {:induction false} AssembledLines(name: Text, path: Text, query: Text, headers: Canonical, hash: Text)
    requires NEWLINE !in name && NEWLINE !in path && NEWLINE !in query
    requires NEWLINE !in headers.signed && NEWLINE !in hash
    ensures Split(Assemble(name, path, query, headers, hash), 10)
         == [name, path, query] + Split(headers.block, 10) + [headers.signed, hash]
  {
    hide Split;
    var rest := headers.block + [10] + (headers.signed + [10] + hash);
    assert Assemble(name, path, query, headers, hash) == name + [10] + (path + [10] + (query + [10] + rest));
    AssembledTail(headers.block, headers.signed, hash);
    SplitCons(name, 10, path + [10] + (query + [10] + rest));
    SplitCons(path, 10, query + [10] + rest);
    SplitCons(query, 10, rest);
  }

  /** What a method and a payload hash may be. */
  lemma MethodAndHashExactly(name: Text, hash: Text)
    ensures ValidMethod(name) <==>
            name != [] && forall i :: 0 <= i < |name| ==> 65 <= name[i] <= 90 || 48 <= name[i] <= 57 || name[i] == 45
    ensures ValidPayloadHash(hash) <==>
            || (|hash| == 64 && forall i :: 0 <= i < 64 ==> 48 <= hash[i] <= 57 || 97 <= hash[i] <= 102)
            || hash == Ascii("UNSIGNED-PAYLOAD")
            || hash == Ascii("STREAMING-AWS4-HMAC-SHA256-PAYLOAD")
            || hash == Ascii("STREAMING-AWS4-HMAC-SHA256-PAYLOAD-TRAILER")
            || hash == Ascii("STREAMING-UNSIGNED-PAYLOAD-TRAILER")
  {
    hide Ascii;
  }

  /** A request is refused for the first of these that is wrong: method, payload hash, headers, path. */
  lemma RefusalsInOrder(r: Request)
    ensures Build(r) == Err(InvalidMethod) <==> !ValidMethod(r.signedMethod)
    ensures Build(r) == Err(InvalidPayloadHash) <==> ValidMethod(r.signedMethod) && !ValidPayloadHash(r.payloadHash)
    ensures Build(r).Err? && Build(r).error.InvalidHeaders? <==>
            && ValidMethod(r.signedMethod) && ValidPayloadHash(r.payloadHash) && Canonicalize(r.headers).Err?
    ensures Build(r) == Err(InvalidPath) <==>
            && ValidMethod(r.signedMethod) && ValidPayloadHash(r.payloadHash) && Canonicalize(r.headers).Ok?
            && Decode(r.path).None?
  {
    hide ValidMethod, ValidPayloadHash, Canonicalize, CanonicalUri, Assemble;
    CanonicalUriProperties(r.path);
  }
}
