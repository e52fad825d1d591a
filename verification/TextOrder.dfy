/** The order of Rust strings: lexicographic on their bytes. */
module TextOrder {
  import opened Wire

  predicate TextLe(a: Text, b: Text) {
    a == [] || (b != [] && (a[0] < b[0] || (a[0] == b[0] && TextLe(a[1..], b[1..]))))
  }

  lemma {:induction false} TextLeTotal(a: Text, b: Text)
    ensures TextLe(a, b) || TextLe(b, a)
    ensures TextLe(a, b) && TextLe(b, a) ==> a == b
    ensures TextLe(a, a)
  {
    if a != [] {
      TextLeTotal(a[1..], if b == [] then a[1..] else b[1..]);
      if b != [] {
        assert a == [a[0]] + a[1..] && b == [b[0]] + b[1..];
      }
    }
  }

  lemma {:induction false} TextLeTransitive(a: Text, b: Text, c: Text)
    requires TextLe(a, b) && TextLe(b, c)
    ensures TextLe(a, c)
  {
    if a != [] && a[0] == b[0] && b[0] == c[0] {
      TextLeTransitive(a[1..], b[1..], c[1..]);
    }
  }

  predicate TextLt(a: Text, b: Text) {
    a != b && TextLe(a, b)
  }

  lemma TextLtTransitive(a: Text, b: Text, c: Text)
    requires TextLt(a, b) && TextLt(b, c)
    ensures TextLt(a, c)
  {
    TextLeTransitive(a, b, c);
    TextLeTotal(a, b);
  }

  /** The order of byte strings, by their first difference. */
  ghost predicate Before(a: Text, b: Text) {
    exists i :: 0 <= i <= |a| && i <= |b| && DiffersUpwards(a, b, i)
  }

  ghost predicate DiffersUpwards(a: Text, b: Text, i: nat)
    requires i <= |a| && i <= |b|
  {
    a[..i] == b[..i] && (i == |a| || (i < |b| && a[i] < b[i]))
  }

  lemma {:induction false} TextLeMeaning(a: Text, b: Text)
    ensures TextLe(a, b) <==> Before(a, b)
  {
    if a == [] {
      assert DiffersUpwards(a, b, 0);
    } else if b != [] {
      TextLeMeaning(a[1..], b[1..]);
      if a[0] < b[0] {
        assert DiffersUpwards(a, b, 0);
      }
      if a[0] == b[0] {
        forall i | 0 <= i <= |a| - 1 && i <= |b| - 1 && DiffersUpwards(a[1..], b[1..], i) ensures Before(a, b) {
          assert a[..i + 1] == [a[0]] + a[1..][..i] && b[..i + 1] == [b[0]] + b[1..][..i];
          assert DiffersUpwards(a, b, i + 1);
        }
      }
      forall i | 0 <= i <= |a| && i <= |b| && DiffersUpwards(a, b, i) ensures TextLe(a, b) {
        if i > 0 {
          assert a[..i][0] == a[0] && b[..i][0] == b[0];
          assert a[1..][..i - 1] == a[..i][1..] && b[1..][..i - 1] == b[..i][1..];
          assert DiffersUpwards(a[1..], b[1..], i - 1);
        }
      }
    }
  }
}
