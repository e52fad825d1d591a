/** Texts of Rust strings against section 3 of RFC 3629. */
module Utf8 {
  import opened Wire

  /** A Unicode scalar value. */
  type Scalar = s: nat | s < 0x11_0000 && !(0xD800 <= s < 0xE000)

  function EncodeScalar(s: Scalar): (t: Text)
    ensures t != []
  {
    if s < 0x80 then [s]
    else if s < 0x800 then [0xC0 + s / 64, 0x80 + s % 64]
    else if s < 0x1_0000 then [0xE0 + s / 4096, 0x80 + s / 64 % 64, 0x80 + s % 64]
    else [0xF0 + s / 262144, 0x80 + s / 4096 % 64, 0x80 + s / 64 % 64, 0x80 + s % 64]
  }

  function EncodeScalars(scalars: seq<Scalar>): Text {
    if scalars == [] then [] else EncodeScalar(scalars[0]) + EncodeScalars(scalars[1..])
  }

  lemma ScalarRanges(s: Scalar)
    requires s >= 0x800
    ensures s < 0x1_0000 ==>
              s / 4096 <= 0xF && (s / 4096 == 0 ==> s / 64 % 64 >= 0x20) && (s / 4096 == 0xD ==> s / 64 % 64 < 0x20)
    ensures s >= 0x1_0000 ==>
              && s / 262144 <= 4 && (s / 262144 == 0 ==> s / 4096 % 64 >= 0x10)
              && (s / 262144 == 4 ==> s / 4096 % 64 < 0x10)
  {
  }

  lemma FrontOfScalar(s: Scalar, rest: Text)
    ensures CharLength(EncodeScalar(s) + rest) == |EncodeScalar(s)|
  {
    if s >= 0x800 {
      ScalarRanges(s);
    }
    var t := EncodeScalar(s) + rest;
    assert forall i :: 0 <= i < |EncodeScalar(s)| ==> t[i] == EncodeScalar(s)[i];
  }

  lemma {:induction false} EncodedIsValid(scalars: seq<Scalar>)
    ensures ValidUtf8(EncodeScalars(scalars))
  {
    if scalars != [] {
      var head, rest := EncodeScalar(scalars[0]), EncodeScalars(scalars[1..]);
      hide CharLength, EncodeScalar;
      FrontOfScalar(scalars[0], rest);
      EncodedIsValid(scalars[1..]);
      assert (head + rest)[|head|..] == rest;
    }
  }

  /** The scalar value of the well-formed character at the front. */
  lemma DecodeFront(t: Text) returns (s: Scalar)
    requires t != [] && CharLength(t) > 0
    ensures EncodeScalar(s) == t[..CharLength(t)]
  {
    var n := CharLength(t);
    if n == 1 {
      s := t[0];
    } else if n == 2 {
      s := DecodeTwo(t[0], t[1]);
    } else if n == 3 {
      s := DecodeThree(t[0], t[1], t[2]);
    } else {
      s := DecodeFour(t[0], t[1], t[2], t[3]);
    }
  }

  lemma DecodeTwo(a: nat, b: nat) returns (s: Scalar)
    requires 0xC2 <= a <= 0xDF && 0x80 <= b < 0xC0
    ensures EncodeScalar(s) == [a, b]
  {
    s := (a - 0xC0) * 64 + (b - 0x80);
  }

  lemma DecodeThree(a: nat, b: nat, c: nat) returns (s: Scalar)
    requires 0xE0 <= a <= 0xEF && 0x80 <= b < 0xC0 && 0x80 <= c < 0xC0
    requires (a == 0xE0 ==> b >= 0xA0) && (a == 0xED ==> b < 0xA0)
    ensures EncodeScalar(s) == [a, b, c]
  {
    s := (a - 0xE0) * 4096 + (b - 0x80) * 64 + (c - 0x80);
    assert s / 64 == (a - 0xE0) * 64 + (b - 0x80) && s / 4096 == a - 0xE0;
  }

  lemma DecodeFour(a: nat, b: nat, c: nat, d: nat) returns (s: Scalar)
    requires 0xF0 <= a <= 0xF4 && 0x80 <= b < 0xC0 && 0x80 <= c < 0xC0 && 0x80 <= d < 0xC0
    requires (a == 0xF0 ==> b >= 0x90) && (a == 0xF4 ==> b < 0x90)
    ensures EncodeScalar(s) == [a, b, c, d]
  {
    s := (a - 0xF0) * 262144 + (b - 0x80) * 4096 + (c - 0x80) * 64 + (d - 0x80);
    assert s / 64 == (a - 0xF0) * 4096 + (b - 0x80) * 64 + (c - 0x80);
    assert s / 4096 == (a - 0xF0) * 64 + (b - 0x80) && s / 262144 == a - 0xF0;
  }

  lemma {:induction false} DecodeAll(t: Text) returns (scalars: seq<Scalar>)
    requires ValidUtf8(t)
    ensures EncodeScalars(scalars) == t
  {
    if t == [] {
      scalars := [];
    } else {
      var n := CharLength(t);
      hide CharLength, EncodeScalar;
      var s := DecodeFront(t);
      var rest := DecodeAll(t[n..]);
      scalars := [s] + rest;
      assert scalars[1..] == rest && t == t[..n] + t[n..];
    }
  }

  /** The byte test accepts exactly the encodings of scalar values. */
  lemma ValidUtf8IffScalars(t: Text)
    ensures ValidUtf8(t) <==> exists scalars :: EncodeScalars(scalars) == t
  {
    hide ValidUtf8, EncodeScalars;
    if ValidUtf8(t) {
      var scalars := DecodeAll(t);
    }
    forall scalars | EncodeScalars(scalars) == t ensures ValidUtf8(t) {
      EncodedIsValid(scalars);
    }
  }

  // ----- decimal numbers ------------------------------------------------------------------------

  function DecimalValue(t: Text): nat {
    if t == [] then 0
    else
      var last := t[|t| - 1];
      DecimalValue(t[..|t| - 1]) * 10 + if last >= '0' as int then last - '0' as int else 0
  }

  /** Decimal text has digits only, no leading zero, and the right value. */
  lemma {:induction false} DecimalIsRead(n: nat)
    ensures DecimalValue(Decimal(n)) == n
    ensures Decimal(n) != [] && (n > 0 ==> Decimal(n)[0] != '0' as int)
    ensures forall i :: 0 <= i < |Decimal(n)| ==> '0' as int <= Decimal(n)[i] <= '9' as int
  {
    if n >= 10 {
      DecimalIsRead(n / 10);
      var d := Decimal(n);
      assert d[..|d| - 1] == Decimal(n / 10);
    }
  }
}
