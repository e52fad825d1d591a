/** `canonical_headers` and `normalize_header_value` of `src/signing/canonical.rs`. */
module CanonicalHeaders {
  import opened Wire
  import opened TextOrder

  const COMMA: Byte := ',' as int
  const SEMICOLON: Byte := ';' as int
  const NEWLINE: Byte := 10
  const SPACE: Byte := ' ' as int
  const TAB: Byte := 9

  datatype Header = Header(name: Text, value: Text)

  datatype HeaderError = InvalidHeaderName | InvalidHeaderValue | MissingHostHeader | InvalidHostHeader

  /** One entry of the ordered map from lower-case names to values. */
  datatype Entry = Entry(name: Text, values: seq<Text>)

  datatype Canonical = Canonical(block: Text, signed: Text)

  const HOST: Text := ['h' as int, 'o' as int, 's' as int, 't' as int]

  // ----- names ---------------------------------------------------------------------

  predicate IsTokenByte(b: Byte) {
    || IsAlphanumeric(b)
    || b in ['!' as int, '#' as int, '$' as int, '%' as int, '&' as int, '\'' as int, '*' as int, '+' as int,
             '-' as int, '.' as int, '^' as int, '_' as int, '`' as int, '|' as int, '~' as int]
  }

  predicate ValidName(name: Text) {
    name != [] && forall i :: 0 <= i < |name| ==> IsTokenByte(name[i])
  }

  function LowerByte(b: Byte): Byte {
    if 'A' as int <= b <= 'Z' as int then b + 32 else b
  }

  function Lower(t: Text): Text {
    seq(|t|, i requires 0 <= i < |t| => LowerByte(t[i]))
  }

  lemma LowerIsToken(name: Text)
    requires ValidName(name)
    ensures forall b :: b in Lower(name) ==> IsTokenByte(b)
    ensures COLON !in Lower(name) && NEWLINE !in Lower(name) && SEMICOLON !in Lower(name)
  {
  }

  // ----- values ---------------------------------------------------------------------

  predicate IsBlank(b: Byte) {
    b == SPACE || b == TAB
  }

  predicate ValidValue(value: Text) {
    forall i :: 0 <= i < |value| ==> !IsControl(value[i]) || value[i] == TAB
  }

  predicate IsWord(t: Text) {
    t != [] && forall k :: 0 <= k < |t| ==> !IsBlank(t[k])
  }

  /** The maximal runs of non-blank bytes. */
  function Words(t: Text): (w: seq<Text>)
    ensures t != [] && !IsBlank(t[|t| - 1]) ==> w != []
  {
    if t == [] then []
    else
      var front, last := t[..|t| - 1], t[|t| - 1];
      var w := Words(front);
      if IsBlank(last) then w
      else if front == [] || IsBlank(front[|front| - 1]) then w + [[last]]
      else w[..|w| - 1] + [w[|w| - 1] + [last]]
  }

  lemma LongerWord(word: Text, b: Byte)
    requires (word == [] || IsWord(word)) && !IsBlank(b)
    ensures IsWord(word + [b])
  {
  }

  lemma {:induction false} WordsAreWords(t: Text)
    ensures forall i :: 0 <= i < |Words(t)| ==> IsWord(Words(t)[i])
  {
    hide IsWord;
    if t != [] {
      var front, last := t[..|t| - 1], t[|t| - 1];
      WordsAreWords(front);
      if !IsBlank(last) {
        var w := Words(front);
        if front == [] || IsBlank(front[|front| - 1]) {
          LongerWord([], last);
          assert [] + [last] == [last];
        } else {
          LongerWord(w[|w| - 1], last);
        }
      }
    }
  }

  function JoinWords(w: seq<Text>): Text {
    if w == [] then []
    else if |w| == 1 then w[0]
    else JoinWords(w[..|w| - 1]) + [SPACE] + w[|w| - 1]
  }

  /** What a header value means to SigV4: its words, one space apart. */
  function Normalized(value: Text): Text {
    JoinWords(Words(value))
  }

  lemma JoinWordsEmpty(w: seq<Text>)
    requires forall i :: 0 <= i < |w| ==> IsWord(w[i])
    ensures JoinWords(w) == [] <==> w == []
  {
  }

  lemma NormalizedSnoc(t: Text, b: Byte)
    ensures Normalized(t + [b]) ==
            if IsBlank(b) then Normalized(t)
            else if Normalized(t) != [] && t != [] && IsBlank(t[|t| - 1]) then Normalized(t) + [SPACE] + [b]
            else Normalized(t) + [b]
  {
    var u := t + [b];
    assert u[..|u| - 1] == t;
    var w := Words(t);
    WordsAreWords(t);
    JoinWordsEmpty(w);
    hide IsWord;
    if IsBlank(b) {
    } else if t == [] || IsBlank(t[|t| - 1]) {
      assert (w + [[b]])[..|w|] == w;
    } else {
      var front, last := w[..|w| - 1], w[|w| - 1];
      var x := front + [last + [b]];
      assert x[..|x| - 1] == front;
      if |w| > 1 {
        assert JoinWords(front) + [SPACE] + (last + [b]) == JoinWords(front) + [SPACE] + last + [b];
      }
    }
  }

  lemma NothingNormalized()
    ensures Normalized([]) == []
  {
  }

  /** `normalize_header_value`. */
  method NormalizeHeaderValue(value: Text) returns (r: Result<Text, HeaderError>)
    ensures r == if ValidValue(value) then Ok(Normalized(value)) else Err(InvalidHeaderValue)
  {
    hide Normalized, IsControl, IsBlank;
    NothingNormalized();
    for i := 0 to |value|
      invariant forall k :: 0 <= k < i ==> !IsControl(value[k]) || value[k] == TAB
    {
      if IsControl(value[i]) && value[i] != TAB {
        return Err(InvalidHeaderValue);
      }
    }
    var normalized: Text := [];
    var pendingSpace := false;
    for i := 0 to |value|
      invariant normalized == Normalized(value[..i])
      invariant pendingSpace <==> normalized != [] && i > 0 && IsBlank(value[i - 1])
    {
      var character := value[i];
      NormalizedSnoc(value[..i], character);
      assert value[..i] + [character] == value[..i + 1];
      if IsBlank(character) {
        pendingSpace := normalized != [];
      } else {
        if pendingSpace {
          normalized := normalized + [SPACE];
          pendingSpace := false;
        }
        normalized := normalized + [character];
      }
    }
    assert value[..|value|] == value;
    r := Ok(normalized);
  }

  lemma WordsSnoc(t: Text, b: Byte)
    requires !IsBlank(b)
    ensures Words(t + [b]) == if t == [] || IsBlank(t[|t| - 1]) then Words(t) + [[b]]
                              else Words(t)[..|Words(t)| - 1] + [Words(t)[|Words(t)| - 1] + [b]]
  {
    assert (t + [b])[..|t|] == t;
  }

  lemma {:induction false} WordsConcat(t: Text, word: Text)
    requires IsWord(word)
    requires t == [] || IsBlank(t[|t| - 1])
    ensures Words(t + word) == Words(t) + [word]
    decreases |word|
  {
    hide Words;
    var front, last := word[..|word| - 1], word[|word| - 1];
    assert word == front + [last];
    assert t + word == (t + front) + [last];
    WordsSnoc(t + front, last);
    if front == [] {
      assert t + front == t && [last] == word;
    } else {
      WordsConcat(t, front);
      var w := Words(t) + [front];
      assert w[..|w| - 1] == Words(t) && w[|w| - 1] == front;
    }
  }

  lemma {:induction false} WordsOfJoin(w: seq<Text>)
    requires forall i :: 0 <= i < |w| ==> IsWord(w[i])
    ensures Words(JoinWords(w)) == w
  {
    WordsOfNothing();
    hide Words, IsBlank, IsWord;
    if w != [] {
      var front, last := w[..|w| - 1], w[|w| - 1];
      assert w == front + [last];
      if |w| == 1 {
        assert [] + last == last;
        WordsConcat([], last);
      } else {
        WordsOfJoin(front);
        var t := JoinWords(front) + [SPACE];
        WordsThenBlank(JoinWords(front));
        WordsConcat(t, last);
      }
    }
  }

  lemma WordsOfNothing()
    ensures Words([]) == []
  {
  }

  lemma WordsThenBlank(t: Text)
    ensures IsBlank(SPACE) && Words(t + [SPACE]) == Words(t)
  {
    assert (t + [SPACE])[..|t|] == t;
  }

  /** Normalising twice changes nothing; only the words matter. */
  lemma NormalizedIdempotent(value: Text)
    ensures Words(Normalized(value)) == Words(value)
    ensures Normalized(Normalized(value)) == Normalized(value)
  {
    WordsAreWords(value);
    WordsOfJoin(Words(value));
  }

  lemma {:induction false} NormalizedBytes(t: Text)
    requires ValidValue(t)
    ensures forall b :: b in Normalized(t) ==> !IsControl(b)
  {
    if t == [] {
    } else {
      var front, last := t[..|t| - 1], t[|t| - 1];
      NormalizedBytes(front);
      NormalizedSnoc(front, last);
      assert front + [last] == t;
    }
  }

  // ----- the ordered map ---------------------------------------------------------------

  /** `entry(name).or_default().push(value)` on a map kept in key order. */
  function Push(entries: seq<Entry>, name: Text, value: Text): seq<Entry> {
    if entries == [] then [Entry(name, [value])]
    else if entries[0].name == name then [Entry(name, entries[0].values + [value])] + entries[1..]
    else if TextLe(name, entries[0].name) then [Entry(name, [value])] + entries
    else [entries[0]] + Push(entries[1..], name, value)
  }

  ghost predicate Ascending(entries: seq<Entry>) {
    forall i, j :: 0 <= i < j < |entries| ==> TextLt(entries[i].name, entries[j].name)
  }

  function Lookup(entries: seq<Entry>, name: Text): seq<Text> {
    if entries == [] then []
    else if entries[0].name == name then entries[0].values
    else Lookup(entries[1..], name)
  }

  /** The values given for one name, in order of appearance: the reference grouping. */
  function ValuesFor(headers: seq<Header>, name: Text): seq<Text> {
    if headers == [] then []
    else
      var front, last := headers[..|headers| - 1], headers[|headers| - 1];
      if Lower(last.name) == name then ValuesFor(front, name) + [Normalized(last.value)]
      else ValuesFor(front, name)
  }

  function Collect(headers: seq<Header>): Result<seq<Entry>, HeaderError> {
    if headers == [] then Ok([])
    else
      var last := headers[|headers| - 1];
      match Collect(headers[..|headers| - 1])
      case Err(e) => Err(e)
      case Ok(entries) =>
        if !ValidName(last.name) then Err(InvalidHeaderName)
        else if !ValidValue(last.value) then Err(InvalidHeaderValue)
        else Ok(Push(entries, Lower(last.name), Normalized(last.value)))
  }

  lemma {:induction false} PushAscends(entries: seq<Entry>, name: Text, value: Text)
    requires Ascending(entries)
    ensures Ascending(Push(entries, name, value))
    ensures forall i :: 0 <= i < |Push(entries, name, value)| ==>
              var e := Push(entries, name, value)[i];
              (e.values != [] && e.name == name) || e in entries
  {
    if entries == [] || entries[0].name == name {
    } else if TextLe(name, entries[0].name) {
      forall j | 0 <= j < |entries| ensures TextLt(name, entries[j].name) {
        if j > 0 {
          TextLtTransitive(name, entries[0].name, entries[j].name);
        }
      }
    } else {
      var rest := Push(entries[1..], name, value);
      PushAscends(entries[1..], name, value);
      TextLeTotal(name, entries[0].name);
      forall j | 0 <= j < |rest| ensures TextLt(entries[0].name, rest[j].name) {
        if rest[j].name != name {
          var k :| 0 <= k < |entries[1..]| && entries[1..][k] == rest[j];
          assert entries[k + 1] == rest[j];
        }
      }
    }
  }

  lemma {:induction false} PushLookup(entries: seq<Entry>, name: Text, value: Text, n: Text)
    requires Ascending(entries)
    ensures Lookup(Push(entries, name, value), n) == Lookup(entries, n) + if n == name then [value] else []
  {
    if entries == [] {
    } else if entries[0].name == name {
      assert ([Entry(name, entries[0].values + [value])] + entries[1..])[1..] == entries[1..];
    } else if TextLe(name, entries[0].name) {
      assert ([Entry(name, [value])] + entries)[1..] == entries;
      if n == name {
        LookupBelow(entries, name);
      }
    } else {
      PushLookup(entries[1..], name, value, n);
      assert ([entries[0]] + Push(entries[1..], name, value))[1..] == Push(entries[1..], name, value);
    }
  }

  lemma {:induction false} LookupBelow(entries: seq<Entry>, name: Text)
    requires Ascending(entries)
    requires entries != [] ==> TextLt(name, entries[0].name)
    ensures Lookup(entries, name) == []
  {
    if |entries| > 1 {
      TextLtTransitive(name, entries[0].name, entries[1].name);
      LookupBelow(entries[1..], name);
    }
  }

  predicate ValidEntry(e: Entry) {
    && e.values != []
    && COLON !in e.name && NEWLINE !in e.name && SEMICOLON !in e.name
    && forall i :: 0 <= i < |e.values| ==> NEWLINE !in e.values[i]
  }

  /** The map holds each name once, in order, with the reference grouping; errors are the first defect. */
  lemma {:induction false} CollectMeaning(headers: seq<Header>)
    ensures Collect(headers).Ok? <==>
            forall i :: 0 <= i < |headers| ==> ValidName(headers[i].name) && ValidValue(headers[i].value)
    ensures Collect(headers).Ok? ==>
              var entries := Collect(headers).value;
              && Ascending(entries)
              && (forall e :: e in entries ==> ValidEntry(e))
              && (forall n :: Lookup(entries, n) == ValuesFor(headers, n))
  {
    if headers != [] {
      var front, last := headers[..|headers| - 1], headers[|headers| - 1];
      CollectMeaning(front);
      assert forall i :: 0 <= i < |headers| ==> headers[i] == if i < |front| then front[i] else last;
      if Collect(headers).Ok? {
        var before := Collect(front).value;
        var name, value := Lower(last.name), Normalized(last.value);
        PushAscends(before, name, value);
        PushKeepsValid(before, last);
        forall n ensures Lookup(Push(before, name, value), n) == ValuesFor(headers, n) {
          PushLookup(before, name, value, n);
        }
      }
    }
  }

  lemma {:induction false} PushKeepsValid(entries: seq<Entry>, header: Header)
    requires ValidName(header.name) && ValidValue(header.value)
    requires forall e :: e in entries ==> ValidEntry(e)
    ensures var r := Push(entries, Lower(header.name), Normalized(header.value));
            forall e :: e in r ==> ValidEntry(e)
  {
    LowerIsToken(header.name);
    NormalizedBytes(header.value);
    hide Normalized, Lower;
    assert NEWLINE !in Normalized(header.value);
    var name, value := Lower(header.name), Normalized(header.value);
    assert ValidEntry(Entry(name, [value]));
    if entries != [] {
      assert ValidEntry(entries[0]);
      if entries[0].name == name {
        assert ValidEntry(Entry(name, entries[0].values + [value]));
      } else if !TextLe(name, entries[0].name) {
        PushKeepsValid(entries[1..], header);
      }
    }
  }

  // ----- the text ------------------------------------------------------------------------

  function JoinValues(values: seq<Text>): Text {
    if values == [] then []
    else if |values| == 1 then values[0]
    else JoinValues(values[..|values| - 1]) + [COMMA] + values[|values| - 1]
  }

  function Line(e: Entry): Text {
    e.name + [COLON] + JoinValues(e.values) + [NEWLINE]
  }

  function Block(entries: seq<Entry>): Text {
    if entries == [] then [] else Block(entries[..|entries| - 1]) + Line(entries[|entries| - 1])
  }

  function SignedNames(entries: seq<Entry>): Text {
    if entries == [] then []
    else if |entries| == 1 then entries[0].name
    else SignedNames(entries[..|entries| - 1]) + [SEMICOLON] + entries[|entries| - 1].name
  }

  function Canonicalize(headers: seq<Header>): Result<Canonical, HeaderError> {
    match Collect(headers)
    case Err(e) => Err(e)
    case Ok(entries) =>
      var host := Lookup(entries, HOST);
      if host == [] then Err(MissingHostHeader)
      else if |host| != 1 || host[0] == [] then Err(InvalidHostHeader)
      else Ok(Canonical(Block(entries), SignedNames(entries)))
  }

  /** `canonical_headers`. */
  method CanonicalizeHeaders(headers: seq<Header>) returns (r: Result<Canonical, HeaderError>)
    ensures r == Canonicalize(headers)
  {
    hide ValidName, ValidValue, Normalized, Lower, Push, JoinValues, Lookup, Collect, Block, SignedNames;
    var ordered: seq<Entry> := [];
    NothingCollected();
    for i := 0 to |headers|
      invariant Collect(headers[..i]) == Ok(ordered)
    {
      var header := headers[i];
      CollectSnoc(headers, i);
      if !ValidName(header.name) {
        CollectStops(headers, i + 1);
        return Err(InvalidHeaderName);
      }
      var value := NormalizeHeaderValue(header.value);
      if value.Err? {
        CollectStops(headers, i + 1);
        return Err(value.error);
      }
      ordered := Push(ordered, Lower(header.name), value.value);
    }
    assert headers[..|headers|] == headers;
    var block: Text := [];
    var signed: Text := [];
    NothingRendered();
    for index := 0 to |ordered|
      invariant block == Block(ordered[..index])
      invariant signed == SignedNames(ordered[..index])
    {
      var e := ordered[index];
      RenderSnoc(ordered, index);
      ghost var before := block;
      if index != 0 {
        signed := signed + [SEMICOLON];
      }
      signed := signed + e.name;
      block := block + e.name;
      block := block + [COLON];
      block := block + JoinValues(e.values);
      block := block + [NEWLINE];
      assert block == before + Line(e);
    }
    assert ordered[..|ordered|] == ordered;
    var host := Lookup(ordered, HOST);
    if host == [] {
      return Err(MissingHostHeader);
    }
    if |host| != 1 || host[0] == [] {
      return Err(InvalidHostHeader);
    }
    r := Ok(Canonical(block, signed));
  }

  lemma NothingCollected()
    ensures Collect([]) == Ok([])
  {
  }

  lemma CollectSnoc(headers: seq<Header>, i: nat)
    requires i < |headers| && Collect(headers[..i]).Ok?
    ensures Collect(headers[..i + 1]) ==
            if !ValidName(headers[i].name) then Err(InvalidHeaderName)
            else if !ValidValue(headers[i].value) then Err(InvalidHeaderValue)
            else Ok(Push(Collect(headers[..i]).value, Lower(headers[i].name), Normalized(headers[i].value)))
  {
    hide ValidName, ValidValue, Push, Lower, Normalized;
    assert headers[..i + 1][..i] == headers[..i];
  }

  lemma NothingRendered()
    ensures Block([]) == [] && SignedNames([]) == []
  {
  }

  lemma RenderSnoc(entries: seq<Entry>, i: nat)
    requires i < |entries|
    ensures Block(entries[..i + 1]) == Block(entries[..i]) + Line(entries[i])
    ensures SignedNames(entries[..i + 1]) ==
            (if i == 0 then [] else SignedNames(entries[..i]) + [SEMICOLON]) + entries[i].name
  {
    hide Line;
    assert entries[..i + 1][..i] == entries[..i];
    assert i == 0 ==> [] + entries[i].name == entries[i].name;
  }

  /** The first defect decides the error, whatever follows it. */
  lemma {:induction false} CollectStops(headers: seq<Header>, n: nat)
    requires n <= |headers| && Collect(headers[..n]).Err?
    ensures Collect(headers) == Collect(headers[..n])
    decreases |headers| - n
  {
    if n == |headers| {
      assert headers[..n] == headers;
    } else {
      assert headers[..n + 1][..n] == headers[..n];
      CollectStops(headers, n + 1);
    }
  }

  // ----- two header lists sign alike exactly when they mean the same ----------------------

  /** The combined value of one header name, if it is present. */
  function Combined(headers: seq<Header>, name: Text): Option<Text> {
    var values := ValuesFor(headers, name);
    if values == [] then None else Some(JoinValues(values))
  }

  /** Names with their combined values: all that the block records. */
  function View(entries: seq<Entry>): seq<Header> {
    seq(|entries|, i requires 0 <= i < |entries| => Header(entries[i].name, JoinValues(entries[i].values)))
  }

  lemma {:induction false} JoinValuesNoNewline(values: seq<Text>)
    requires forall i :: 0 <= i < |values| ==> NEWLINE !in values[i]
    ensures NEWLINE !in JoinValues(values)
  {
    if |values| > 1 {
      JoinValuesNoNewline(values[..|values| - 1]);
    }
  }

  ghost predicate AllValid(entries: seq<Entry>) {
    forall e :: e in entries ==> ValidEntry(e)
  }

  /** The last line of a block is everything after the last newline but one. */
  lemma LineInjective(x: Text, a: Entry, y: Text, b: Entry)
    requires ValidEntry(a) && ValidEntry(b)
    requires x == [] || x[|x| - 1] == NEWLINE
    requires y == [] || y[|y| - 1] == NEWLINE
    requires x + Line(a) == y + Line(b)
    ensures x == y && a.name == b.name && JoinValues(a.values) == JoinValues(b.values)
  {
    JoinValuesNoNewline(a.values);
    JoinValuesNoNewline(b.values);
    hide JoinValues;
    var la, lb := a.name + [COLON] + JoinValues(a.values), b.name + [COLON] + JoinValues(b.values);
    assert x + Line(a) == x + la + [NEWLINE] && y + Line(b) == y + lb + [NEWLINE];
    var u := x + la + [NEWLINE];
    assert u[..|u| - 1] == x + la == y + lb;
    LastNewline(x, la, y, lb);
    FirstSeparator(a.name, b.name, COLON, JoinValues(a.values), JoinValues(b.values));
  }

  lemma LastNewline(x: Text, a: Text, y: Text, b: Text)
    requires NEWLINE !in a && NEWLINE !in b
    requires x == [] || x[|x| - 1] == NEWLINE
    requires y == [] || y[|y| - 1] == NEWLINE
    requires x + a == y + b
    ensures x == y && a == b
  {
    var x', y' := [NEWLINE] + x, [NEWLINE] + y;
    var xf, yf := x'[..|x'| - 1], y'[..|y'| - 1];
    assert x' == xf + [NEWLINE] && y' == yf + [NEWLINE];
    assert xf + [NEWLINE] + a == [NEWLINE] + (x + a);
    assert yf + [NEWLINE] + b == [NEWLINE] + (y + b);
    LastSeparator(xf, yf, NEWLINE, a, b);
    assert x == x'[1..] && y == y'[1..];
  }

  lemma BlockEnds(entries: seq<Entry>)
    ensures entries == [] <==> Block(entries) == []
    ensures entries != [] ==> Block(entries)[|Block(entries)| - 1] == NEWLINE
  {
  }

  lemma {:induction false} BlockIffView(a: seq<Entry>, b: seq<Entry>)
    requires AllValid(a) && AllValid(b)
    ensures Block(a) == Block(b) <==> View(a) == View(b)
  {
    BlockEnds(a);
    BlockEnds(b);
    if a == [] || b == [] {
      assert View(a) == View(b) ==> |View(a)| == |View(b)|;
    } else {
      var fa, fb := a[..|a| - 1], b[..|b| - 1];
      var la, lb := a[|a| - 1], b[|b| - 1];
      BlockEnds(fa);
      BlockEnds(fb);
      BlockIffView(fa, fb);
      ViewSnoc(a);
      ViewSnoc(b);
      var va, vb := Header(la.name, JoinValues(la.values)), Header(lb.name, JoinValues(lb.values));
      if Block(a) == Block(b) {
        LineInjective(Block(fa), la, Block(fb), lb);
      }
      if View(a) == View(b) {
        assert View(a)[..|a| - 1] == View(fa) && View(b)[..|b| - 1] == View(fb);
        assert View(a)[|a| - 1] == va && View(b)[|b| - 1] == vb;
      }
    }
  }

  lemma ViewSnoc(a: seq<Entry>)
    requires a != []
    ensures View(a) == View(a[..|a| - 1]) + [Header(a[|a| - 1].name, JoinValues(a[|a| - 1].values))]
  {
  }

  function LookupView(view: seq<Header>, name: Text): Option<Text> {
    if view == [] then None
    else if view[0].name == name then Some(view[0].value)
    else LookupView(view[1..], name)
  }

  lemma {:induction false} LookupViewMeaning(entries: seq<Entry>, name: Text)
    requires AllValid(entries)
    ensures LookupView(View(entries), name) ==
            if Lookup(entries, name) == [] then None else Some(JoinValues(Lookup(entries, name)))
  {
    if entries != [] {
      assert ValidEntry(entries[0]);
      assert View(entries)[1..] == View(entries[1..]);
      LookupViewMeaning(entries[1..], name);
    }
  }

  ghost predicate AscendingView(view: seq<Header>) {
    forall i, j :: 0 <= i < j < |view| ==> TextLt(view[i].name, view[j].name)
  }

  lemma {:induction false} AbsentBelow(view: seq<Header>, name: Text)
    requires AscendingView(view)
    requires view != [] ==> TextLt(name, view[0].name)
    ensures LookupView(view, name) == None
  {
    if |view| > 1 {
      TextLtTransitive(name, view[0].name, view[1].name);
      AbsentBelow(view[1..], name);
    }
  }

  /** An ordered map is determined by its look-ups. */
  lemma {:induction false} ViewsEqual(a: seq<Header>, b: seq<Header>)
    requires AscendingView(a) && AscendingView(b)
    requires forall n :: LookupView(a, n) == LookupView(b, n)
    ensures a == b
  {
    assert a != [] ==> LookupView(a, a[0].name) == LookupView(b, a[0].name) == Some(a[0].value);
    assert b != [] ==> LookupView(a, b[0].name) == LookupView(b, b[0].name) == Some(b[0].value);
    if a != [] && b != [] {
      var x, y := a[0].name, b[0].name;
      assert LookupView(a, x) == Some(a[0].value) && LookupView(b, y) == Some(b[0].value);
      TextLeTotal(x, y);
      if TextLt(x, y) {
        AbsentBelow(b, x);
      } else if TextLt(y, x) {
        AbsentBelow(a, y);
      }
      forall n ensures LookupView(a[1..], n) == LookupView(b[1..], n) {
        if n == x {
          AbsentBelow(a[1..], x);
          AbsentBelow(b[1..], x);
        } else {
          assert LookupView(a, n) == LookupView(b, n);
        }
      }
      ViewsEqual(a[1..], b[1..]);
      assert a == [a[0]] + a[1..] && b == [b[0]] + b[1..];
    }
  }

  lemma {:induction false} SameNamesSameList(a: seq<Entry>, b: seq<Entry>)
    requires View(a) == View(b)
    ensures SignedNames(a) == SignedNames(b)
  {
    assert |View(a)| == |a| && |View(b)| == |b|;
    if a != [] {
      ViewSnoc(a);
      ViewSnoc(b);
      var n := |a| - 1;
      assert View(a)[..n] == View(a[..n]) && View(b)[..n] == View(b[..n]);
      assert View(a)[n].name == View(b)[n].name;
      SameNamesSameList(a[..n], b[..n]);
    }
  }

  /**
    Signed header blocks coincide exactly when every name has the same combined
    value: letter case, blanks, and the order of different names do not matter.
   */
  lemma SameBlockIffSameMeaning(p: seq<Header>, q: seq<Header>)
    requires Canonicalize(p).Ok? && Canonicalize(q).Ok?
    ensures Canonicalize(p).value.block == Canonicalize(q).value.block
       <==> forall n :: Combined(p, n) == Combined(q, n)
    ensures Canonicalize(p).value.block == Canonicalize(q).value.block ==> Canonicalize(p) == Canonicalize(q)
  {
    CollectMeaning(p);
    CollectMeaning(q);
    var a, b := Collect(p).value, Collect(q).value;
    BlockIffView(a, b);
    forall n ensures LookupView(View(a), n) == Combined(p, n) && LookupView(View(b), n) == Combined(q, n) {
      LookupViewMeaning(a, n);
      LookupViewMeaning(b, n);
    }
    if View(a) == View(b) {
      SameNamesSameList(a, b);
      forall n ensures Combined(p, n) == Combined(q, n) {
        assert LookupView(View(a), n) == LookupView(View(b), n);
      }
    }
    if forall n :: Combined(p, n) == Combined(q, n) {
      ViewsEqual(View(a), View(b));
    }
  }
}
