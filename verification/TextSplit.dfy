/** Texts cut at every occurrence of a separator, to read layouts without knowing how they were put together. */
module TextSplit {
  import opened Wire

  function Split(t: Text, sep: Byte): (pieces: seq<Text>)
    ensures |pieces| >= 1
  {
    if t == [] then [[]]
    else
      var rest := Split(t[1..], sep);
      if t[0] == sep then [[]] + rest else [[t[0]] + rest[0]] + rest[1..]
  }

  /** The pieces with separators between them are the text again, and no piece contains one. */
  function Glue(pieces: seq<Text>, sep: Byte): Text
    requires pieces != []
  {
    if |pieces| == 1 then pieces[0] else pieces[0] + [sep] + Glue(pieces[1..], sep)
  }

  lemma {:induction false} SplitThenGlue(t: Text, sep: Byte)
    ensures Glue(Split(t, sep), sep) == t
    ensures forall i :: 0 <= i < |Split(t, sep)| ==> sep !in Split(t, sep)[i]
  {
    if t != [] {
      var rest := Split(t[1..], sep);
      SplitThenGlue(t[1..], sep);
      assert t == [t[0]] + t[1..];
      if t[0] == sep {
        assert ([[]] + rest)[1..] == rest;
      } else {
        var all := [[t[0]] + rest[0]] + rest[1..];
        assert all[1..] == rest[1..];
        if |rest| > 1 {
          assert [t[0]] + (rest[0] + [sep] + Glue(rest[1..], sep)) == [t[0]] + rest[0] + [sep] + Glue(rest[1..], sep);
        }
      }
    }
  }

  lemma {:induction false} SplitPiece(a: Text, sep: Byte)
    requires sep !in a
    ensures Split(a, sep) == [a]
  {
    if a != [] {
      SplitPiece(a[1..], sep);
      assert a == [a[0]] + a[1..];
    }
  }

  lemma {:induction false} SplitCons(a: Text, sep: Byte, rest: Text)
    requires sep !in a
    ensures Split(a + [sep] + rest, sep) == [a] + Split(rest, sep)
  {
    var t := a + [sep] + rest;
    if a == [] {
      assert t[1..] == rest;
    } else {
      assert t[1..] == a[1..] + [sep] + rest;
      SplitCons(a[1..], sep, rest);
      assert a == [a[0]] + a[1..];
    }
  }

  /** Cutting at a separator in the middle. */
  lemma {:induction false} SplitAt(x: Text, sep: Byte, y: Text)
    ensures Split(x + [sep] + y, sep) == Split(x, sep) + Split(y, sep)
  {
    hide Split;
    var t := x + [sep] + y;
    SplitStep(t, sep);
    if x == [] {
      assert t[1..] == y;
      SplitNothing(sep);
    } else {
      assert t[0] == x[0] && t[1..] == x[1..] + [sep] + y;
      SplitStep(x, sep);
      SplitAt(x[1..], sep, y);
      SplitFirst(x[0], sep, Split(x[1..], sep), Split(y, sep));
    }
  }

  lemma SplitFirst(b: Byte, sep: Byte, rest: seq<Text>, more: seq<Text>)
    requires rest != []
    ensures (if b == sep then [[]] + (rest + more) else [[b] + (rest + more)[0]] + (rest + more)[1..])
         == (if b == sep then [[]] + rest else [[b] + rest[0]] + rest[1..]) + more
  {
    assert (rest + more)[1..] == rest[1..] + more;
  }

  lemma SplitNothing(sep: Byte)
    ensures Split([], sep) == [[]]
  {
  }

  lemma SplitStep(t: Text, sep: Byte)
    requires t != []
    ensures var rest := Split(t[1..], sep);
            Split(t, sep) == if t[0] == sep then [[]] + rest else [[t[0]] + rest[0]] + rest[1..]
  {
  }

  lemma {:induction false} GlueSnoc(pieces: seq<Text>, sep: Byte, last: Text)
    requires pieces != []
    ensures Glue(pieces + [last], sep) == Glue(pieces, sep) + [sep] + last
  {
    var all := pieces + [last];
    assert all[1..] == pieces[1..] + [last];
    if |pieces| == 1 {
      assert all[1..] == [last];
    } else {
      GlueSnoc(pieces[1..], sep, last);
      var a, b := pieces[0] + [sep], Glue(pieces[1..], sep);
      assert a + (b + [sep] + last) == a + b + [sep] + last;
    }
  }
}
