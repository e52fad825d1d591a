/** Bytes, texts as their UTF-8 bytes, and the two wrappers used throughout. */
module Wire {

  type Byte = b: nat | b < 256

  type Text = seq<Byte>

  datatype Option<+T> = None | Some(value: T)

  datatype Result<+T, +E> = Ok(value: T) | Err(error: E)

  const COLON: Byte := ':' as int
  const U64_MAX: nat := 0xFFFF_FFFF_FFFF_FFFF

  function Min(a: nat, b: nat): nat {
    if a < b then a else b
  }

  function Max(a: nat, b: nat): nat {
    if a < b then b else a
  }

  lemma MulMonotone(a: nat, b: nat, c: nat)
    requires a <= b
    ensures a * c <= b * c
  {
  }

  /** The bytes of an ASCII literal. */
  function Ascii(s: string): Text {
    seq(|s|, i requires 0 <= i < |s| => s[i] as int % 256)
  }

  /** A number in decimal. */
  function Decimal(n: nat): Text {
    (if n < 10 then [] else Decimal(n / 10)) + ['0' as int + n % 10]
  }

  predicate IsAlphanumeric(b: Byte) {
    || 'A' as int <= b <= 'Z' as int
    || 'a' as int <= b <= 'z' as int
    || '0' as int <= b <= '9' as int
  }

  /** `u8::is_ascii_control`. */
  predicate IsControl(b: Byte) {
    b < 32 || b == 127
  }

  predicate IsContinuation(b: Byte) {
    0x80 <= b < 0xC0
  }

  /** The length of the well-formed UTF-8 character at the front of t, or 0. */
  function CharLength(t: Text): (n: nat)
    requires |t| > 0
    ensures n <= |t|
  {
    var b := t[0];
    if b < 0x80 then 1
    else if 0xC2 <= b <= 0xDF && |t| >= 2 && IsContinuation(t[1]) then 2
    else if 0xE0 <= b <= 0xEF && |t| >= 3 && IsContinuation(t[1]) && IsContinuation(t[2])
            && (b == 0xE0 ==> t[1] >= 0xA0) && (b == 0xED ==> t[1] < 0xA0) then 3
    else if 0xF0 <= b <= 0xF4 && |t| >= 4 && IsContinuation(t[1]) && IsContinuation(t[2]) && IsContinuation(t[3])
            && (b == 0xF0 ==> t[1] >= 0x90) && (b == 0xF4 ==> t[1] < 0x90) then 4
    else 0
  }

  /** What a Rust `str` guarantees about its bytes. */
  predicate ValidUtf8(t: Text) {
    t == [] || (CharLength(t) > 0 && ValidUtf8(t[CharLength(t)..]))
  }

  /** Two texts split at their first separator agree piece by piece. */
  lemma {:induction false} FirstSeparator(a: Text, b: Text, sep: Byte, r: Text, s: Text)
    requires sep !in a && sep !in b
    requires a + [sep] + r == b + [sep] + s
    ensures a == b && r == s
  {
    var x, y := a + [sep] + r, b + [sep] + s;
    if a == [] || b == [] {
      assert x[0] == y[0];
      assert a == [] && b == [];
      assert r == x[1..] && s == y[1..];
    } else {
      assert x[0] == a[0] && y[0] == b[0];
      assert x[1..] == a[1..] + [sep] + r && y[1..] == b[1..] + [sep] + s;
      FirstSeparator(a[1..], b[1..], sep, r, s);
      assert a == [a[0]] + a[1..] && b == [b[0]] + b[1..];
    }
  }

  /** The same from the other end. */
  lemma {:induction false} LastSeparator(r: Text, s: Text, sep: Byte, a: Text, b: Text)
    requires sep !in a && sep !in b
    requires r + [sep] + a == s + [sep] + b
    ensures a == b && r == s
  {
    var x, y := r + [sep] + a, s + [sep] + b;
    if a == [] || b == [] {
      assert x[|x| - 1] == y[|y| - 1];
      assert a == [] && b == [];
      assert r == x[..|x| - 1] && s == y[..|y| - 1];
    } else {
      var a', b' := a[..|a| - 1], b[..|b| - 1];
      assert x[|x| - 1] == a[|a| - 1] && y[|y| - 1] == b[|b| - 1];
      assert x[..|x| - 1] == r + [sep] + a' && y[..|y| - 1] == s + [sep] + b';
      LastSeparator(r, s, sep, a', b');
      assert a == a' + [a[|a| - 1]] && b == b' + [b[|b| - 1]];
    }
  }
}
