/** `canonical_query` of `src/signing/canonical.rs`. */
module CanonicalQuery {
  import opened Wire
  import opened TextOrder
  import opened PercentCodec

  const AMPERSAND: Byte := '&' as int
  const EQUALS: Byte := '=' as int

  /** A query parameter, raw or encoded. */
  datatype Param = Param(name: Text, value: Text)

  // ----- the order of pairs of strings ----------------------------------------

  predicate Le(p: Param, q: Param) {
    if p.name == q.name then TextLe(p.value, q.value) else TextLe(p.name, q.name)
  }

  predicate Sorted(s: seq<Param>) {
    forall i, j :: 0 <= i < j < |s| ==> Le(s[i], s[j])
  }

  lemma LeTotal(p: Param, q: Param)
    ensures Le(p, q) || Le(q, p)
    ensures Le(p, q) && Le(q, p) ==> p == q
  {
    TextLeTotal(p.name, q.name);
    TextLeTotal(p.value, q.value);
  }

  lemma LeTransitive(p: Param, q: Param, r: Param)
    requires Le(p, q) && Le(q, r)
    ensures Le(p, r)
  {
    if p.name == q.name == r.name {
      TextLeTransitive(p.value, q.value, r.value);
    } else {
      TextLeTotal(p.name, q.name);
      TextLeTotal(q.name, r.name);
      TextLeTransitive(p.name, q.name, r.name);
      TextLeTotal(p.name, q.name);
      if p.name == r.name {
        TextLeTotal(q.name, r.name);
      }
    }
  }

  // ----- sorting ------------------------------------------------------------------

  function Insert(p: Param, s: seq<Param>): seq<Param> {
    if s == [] || Le(p, s[0]) then [p] + s else [s[0]] + Insert(p, s[1..])
  }

  /** `sort_unstable`: equal pairs are identical, so stability is not observable. */
  function Sort(s: seq<Param>): seq<Param> {
    if s == [] then [] else Insert(s[0], Sort(s[1..]))
  }

  lemma {:induction false} InsertSorts(p: Param, s: seq<Param>)
    requires Sorted(s)
    ensures Sorted(Insert(p, s)) && multiset(Insert(p, s)) == multiset(s) + multiset{p}
  {
    hide Le;
    InsertKeeps(p, s);
    if s == [] {
    } else if Le(p, s[0]) {
      forall j | 0 <= j < |s| ensures Le(p, s[j]) {
        if j > 0 {
          LeTransitive(p, s[0], s[j]);
        }
      }
    } else {
      var rest := Insert(p, s[1..]);
      InsertSorts(p, s[1..]);
      LeTotal(p, s[0]);
      forall j | 0 <= j < |rest| ensures Le(s[0], rest[j]) {
        assert rest[j] in multiset(s[1..]) + multiset{p};
      }
    }
  }

  lemma {:induction false} InsertKeeps(p: Param, s: seq<Param>)
    ensures multiset(Insert(p, s)) == multiset(s) + multiset{p}
  {
    hide Le;
    if s != [] && !Le(p, s[0]) {
      InsertKeeps(p, s[1..]);
      assert s == [s[0]] + s[1..];
    }
  }

  lemma {:induction false} SortSorts(s: seq<Param>)
    ensures Sorted(Sort(s)) && multiset(Sort(s)) == multiset(s)
  {
    if s != [] {
      SortSorts(s[1..]);
      InsertSorts(s[0], Sort(s[1..]));
      assert s == [s[0]] + s[1..];
    }
  }

  lemma MultisetRemove(s: seq<Param>, i: nat)
    requires i < |s|
    ensures multiset(s) == multiset(s[..i] + s[i + 1..]) + multiset{s[i]}
  {
    assert s == s[..i] + [s[i]] + s[i + 1..];
  }

  lemma MultisetCancel(x: multiset<Param>, y: multiset<Param>, p: Param)
    requires x + multiset{p} == y + multiset{p}
    ensures x == y
  {
    assert x == x + multiset{p} - multiset{p};
    assert y == y + multiset{p} - multiset{p};
  }

  /** The head of one sequence found in another with the same elements, and removed from both. */
  lemma MatchHead(a: seq<Param>, b: seq<Param>) returns (i: nat)
    requires multiset(a) == multiset(b) && a != []
    ensures i < |b| && b[i] == a[0] && |a| == |b|
    ensures multiset(a[1..]) == multiset(b[..i] + b[i + 1..])
  {
    assert a[0] in multiset(a);
    i :| 0 <= i < |b| && b[i] == a[0];
    MultisetRemove(a, 0);
    MultisetRemove(b, i);
    assert a[..0] + a[1..] == a[1..];
    MultisetCancel(multiset(a[1..]), multiset(b[..i] + b[i + 1..]), a[0]);
    assert |multiset(a)| == |a| && |multiset(b)| == |b|;
  }

  lemma SortedHead(s: seq<Param>, i: nat)
    requires i < |s| && Sorted(s)
    ensures Le(s[0], s[i])
  {
    LeTotal(s[0], s[0]);
  }

  /** There is only one way to sort a multiset. */
  lemma {:induction false} SortedUnique(a: seq<Param>, b: seq<Param>)
    requires Sorted(a) && Sorted(b) && multiset(a) == multiset(b)
    ensures a == b
  {
    hide Le;
    if a == [] {
      assert |multiset(b)| == 0;
    } else {
      var i := MatchHead(a, b);
      var j := MatchHead(b, a);
      SortedHead(a, j);
      SortedHead(b, i);
      LeTotal(a[0], b[0]);
      PeelHead(a, b);
      SortedUnique(a[1..], b[1..]);
      assert a == [a[0]] + a[1..] && b == [b[0]] + b[1..];
    }
  }

  lemma PeelHead(a: seq<Param>, b: seq<Param>)
    requires a != [] && b != [] && a[0] == b[0] && multiset(a) == multiset(b)
    ensures multiset(a[1..]) == multiset(b[1..])
  {
    HeadInMultiset(a);
    HeadInMultiset(b);
    MultisetCancel(multiset(a[1..]), multiset(b[1..]), a[0]);
  }

  lemma HeadInMultiset(s: seq<Param>)
    requires s != []
    ensures multiset(s) == multiset(s[1..]) + multiset{s[0]}
  {
    assert s == [s[0]] + s[1..];
  }

  // ----- the text -------------------------------------------------------------------

  function EncodeParam(p: Param): Param {
    Param(Encode(p.name, true), Encode(p.value, true))
  }

  function Map(f: Param -> Param, s: seq<Param>): seq<Param> {
    seq(|s|, i requires 0 <= i < |s| => f(s[i]))
  }

  function Item(p: Param): Text {
    p.name + [EQUALS] + p.value
  }

  function Join(s: seq<Param>): Text {
    if s == [] then []
    else if |s| == 1 then Item(s[0])
    else Item(s[0]) + [AMPERSAND] + Join(s[1..])
  }

  function QueryText(parameters: seq<Param>): Text {
    Join(Sort(Map(EncodeParam, parameters)))
  }

  lemma {:induction false} JoinSnoc(s: seq<Param>, p: Param)
    ensures Join(s + [p]) == if s == [] then Item(p) else Join(s) + [AMPERSAND] + Item(p)
  {
    if s == [] {
      assert s + [p] == [p];
    } else {
      assert (s + [p])[1..] == s[1..] + [p];
      JoinSnoc(s[1..], p);
      if |s| > 1 {
        var a, b, c := Item(s[0]) + [AMPERSAND], Join(s[1..]), [AMPERSAND] + Item(p);
        assert a + (b + [AMPERSAND] + Item(p)) == a + b + [AMPERSAND] + Item(p);
      }
    }
  }

  lemma JoinNothing()
    ensures Join([]) == []
  {
  }

  /** `canonical_query`. */
  method CanonicalQueryText(parameters: seq<Param>) returns (canonical: Text)
    ensures canonical == QueryText(parameters)
  {
    hide Encode, Sort, Join;
    var encoded: seq<Param> := [];
    for i := 0 to |parameters|
      invariant encoded == Map(EncodeParam, parameters[..i])
    {
      var name := AwsUriEncode(parameters[i].name, true);
      var value := AwsUriEncode(parameters[i].value, true);
      encoded := encoded + [Param(name, value)];
      assert Map(EncodeParam, parameters[..i + 1]) == Map(EncodeParam, parameters[..i]) + [EncodeParam(parameters[i])];
    }
    assert parameters[..|parameters|] == parameters;
    encoded := Sort(encoded);
    canonical := [];
    JoinNothing();
    for index := 0 to |encoded|
      invariant canonical == Join(encoded[..index])
    {
      var p := encoded[index];
      assert encoded[..index + 1] == encoded[..index] + [p];
      JoinSnoc(encoded[..index], p);
      ghost var before := canonical;
      if index != 0 {
        canonical := canonical + [AMPERSAND];
      }
      canonical := canonical + p.name;
      canonical := canonical + [EQUALS];
      canonical := canonical + p.value;
      assert canonical == (if index == 0 then [] else before + [AMPERSAND]) + Item(p);
    }
    assert encoded[..|encoded|] == encoded;
  }

  // ----- two queries have one text exactly when they are one multiset ------------------

  predicate Encoded(p: Param) {
    AMPERSAND !in p.name && EQUALS !in p.name && AMPERSAND !in p.value && EQUALS !in p.value
  }

  lemma ItemInjective(p: Param, q: Param)
    requires Encoded(p) && Encoded(q) && Item(p) == Item(q)
    ensures p == q
  {
    FirstSeparator(p.name, q.name, EQUALS, p.value, q.value);
  }

  lemma ItemNoAmpersand(p: Param)
    requires Encoded(p)
    ensures AMPERSAND !in Item(p) && |Item(p)| > 0
  {
  }

  lemma JoinOfMany(s: seq<Param>)
    requires s != [] && Encoded(s[0])
    ensures AMPERSAND in Join(s) <==> |s| > 1
  {
    ItemNoAmpersand(s[0]);
    if |s| > 1 {
      assert Join(s)[|Item(s[0])|] == AMPERSAND;
    }
  }

  lemma {:induction false} JoinInjective(a: seq<Param>, b: seq<Param>)
    requires forall i :: 0 <= i < |a| ==> Encoded(a[i])
    requires forall i :: 0 <= i < |b| ==> Encoded(b[i])
    requires Join(a) == Join(b)
    ensures a == b
  {
    if a == [] || b == [] {
      if a != [] {
        ItemNoAmpersand(a[0]);
      } else if b != [] {
        ItemNoAmpersand(b[0]);
      }
    } else {
      ItemNoAmpersand(a[0]);
      ItemNoAmpersand(b[0]);
      JoinOfMany(a);
      JoinOfMany(b);
      if |a| > 1 {
        FirstSeparator(Item(a[0]), Item(b[0]), AMPERSAND, Join(a[1..]), Join(b[1..]));
        JoinInjective(a[1..], b[1..]);
      }
      ItemInjective(a[0], b[0]);
      assert a == [a[0]] + a[1..] && b == [b[0]] + b[1..];
    }
  }

  lemma {:induction false} MapKeepsMultiset(f: Param -> Param, a: seq<Param>, b: seq<Param>)
    requires multiset(a) == multiset(b)
    ensures multiset(Map(f, a)) == multiset(Map(f, b))
    decreases |a|
  {
    hide Map;
    if a == [] {
      assert |multiset(b)| == 0;
      assert a == b;
    } else {
      var i := MatchHead(a, b);
      MapKeepsMultiset(f, a[1..], b[..i] + b[i + 1..]);
      MapRemove(f, a, 0);
      assert a[..0] + a[1..] == a[1..];
      MapRemove(f, b, i);
    }
  }

  lemma MapRemove(f: Param -> Param, s: seq<Param>, i: nat)
    requires i < |s|
    ensures multiset(Map(f, s)) == multiset(Map(f, s[..i] + s[i + 1..])) + multiset{f(s[i])}
  {
    var m := Map(f, s);
    MultisetRemove(m, i);
    assert Map(f, s[..i] + s[i + 1..]) == m[..i] + m[i + 1..];
  }

  function DecodeParam(p: Param): Param {
    match (Decode(p.name), Decode(p.value))
    case (Some(name), Some(value)) => Param(name, value)
    case _ => p
  }

  lemma DecodeEncodedParams(s: seq<Param>)
    ensures Map(DecodeParam, Map(EncodeParam, s)) == s
  {
    forall i | 0 <= i < |s| ensures DecodeParam(EncodeParam(s[i])) == s[i] {
      DecodeInvertsEncode(s[i].name, true);
      DecodeInvertsEncode(s[i].value, true);
    }
  }

  lemma EncodedParam(p: Param)
    ensures Encoded(EncodeParam(p))
  {
    EncodedBytes(p.name, true);
    EncodedBytes(p.value, true);
  }

  lemma SortedEncoded(s: seq<Param>)
    ensures forall i :: 0 <= i < |Sort(Map(EncodeParam, s))| ==> Encoded(Sort(Map(EncodeParam, s))[i])
  {
    var e := Map(EncodeParam, s);
    SortSorts(e);
    forall i | 0 <= i < |Sort(e)| ensures Encoded(Sort(e)[i]) {
      assert Sort(e)[i] in multiset(e);
      var k :| 0 <= k < |e| && e[k] == Sort(e)[i];
      EncodedParam(s[k]);
    }
  }

  /** Permutations, duplicates and empty names included. */
  lemma QueryTextIffSameMultiset(p: seq<Param>, q: seq<Param>)
    ensures QueryText(p) == QueryText(q) <==> multiset(p) == multiset(q)
  {
    var ep, eq := Map(EncodeParam, p), Map(EncodeParam, q);
    SortSorts(ep);
    SortSorts(eq);
    if QueryText(p) == QueryText(q) {
      SortedEncoded(p);
      SortedEncoded(q);
      JoinInjective(Sort(ep), Sort(eq));
      MapKeepsMultiset(DecodeParam, ep, eq);
      DecodeEncodedParams(p);
      DecodeEncodedParams(q);
    }
    if multiset(p) == multiset(q) {
      MapKeepsMultiset(EncodeParam, p, q);
      SortedUnique(Sort(ep), Sort(eq));
    }
  }

  /** Query texts need no further escaping: no control byte, '?' or '#'. */
  predicate IsQueryByte(b: Byte) {
    IsWireByte(b) || b == AMPERSAND || b == EQUALS
  }

  ghost predicate QueryBytes(t: Text) {
    forall b :: b in t ==> IsQueryByte(b)
  }

  lemma {:induction false} JoinBytes(s: seq<Param>)
    requires forall i :: 0 <= i < |s| ==> QueryBytes(s[i].name) && QueryBytes(s[i].value)
    ensures QueryBytes(Join(s))
  {
    if |s| > 1 {
      JoinBytes(s[1..]);
    }
  }

  lemma EncodedParamBytes(p: Param)
    ensures QueryBytes(EncodeParam(p).name) && QueryBytes(EncodeParam(p).value)
  {
    EncodedBytes(p.name, true);
    EncodedBytes(p.value, true);
  }

  lemma QueryTextBytes(p: seq<Param>)
    ensures QueryBytes(QueryText(p))
  {
    hide QueryBytes;
    var e := Map(EncodeParam, p);
    var s := Sort(e);
    SortSorts(e);
    forall i | 0 <= i < |s| ensures QueryBytes(s[i].name) && QueryBytes(s[i].value) {
      assert s[i] in multiset(e);
      var k :| 0 <= k < |e| && e[k] == s[i];
      EncodedParamBytes(p[k]);
    }
    JoinBytes(s);
  }
}
