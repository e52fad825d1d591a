/**
  The digest validator of `src/client/multipart/headers.rs` against the standard
  padded alphabet of sections 3.5 and 4 of RFC 4648. Text is its UTF-8 bytes.
 */
module Base64 {
  import opened Wire

  type Sextet = s: nat | s < 64

  const PAD: Byte := '=' as int

  // ----- the standard encoding --------------------------------------------

  function Symbol(s: Sextet): Byte {
    if s < 26 then 'A' as int + s
    else if s < 52 then 'a' as int + (s - 26)
    else if s < 62 then '0' as int + (s - 52)
    else if s == 62 then '+' as int
    else '/' as int
  }

  function Encode(d: seq<Byte>): seq<Byte> {
    if |d| == 0 then []
    else if |d| == 1 then
      [Symbol(d[0] / 4), Symbol(d[0] % 4 * 16), PAD, PAD]
    else if |d| == 2 then
      [Symbol(d[0] / 4), Symbol(d[0] % 4 * 16 + d[1] / 16), Symbol(d[1] % 16 * 4), PAD]
    else
      [Symbol(d[0] / 4), Symbol(d[0] % 4 * 16 + d[1] / 16), Symbol(d[1] % 16 * 4 + d[2] / 64), Symbol(d[2] % 64)]
      + Encode(d[3..])
  }

  // ----- the code -----------------------------------------------------------

  predicate IsData(c: Byte) {
    || 'A' as int <= c <= 'Z' as int
    || 'a' as int <= c <= 'z' as int
    || '0' as int <= c <= '9' as int
    || c == '+' as int
    || c == '/' as int
  }

  function SymbolValue(c: Byte): Option<Sextet> {
    if 'A' as int <= c <= 'Z' as int then Some(c - 'A' as int)
    else if 'a' as int <= c <= 'z' as int then Some(c - 'a' as int + 26)
    else if '0' as int <= c <= '9' as int then Some(c - '0' as int + 52)
    else if c == '+' as int then Some(62)
    else if c == '/' as int then Some(63)
    else None
  }

  /** `u8::trailing_zeros`. */
  function TrailingZeros(b: Byte): nat {
    if b == 0 then 8 else if b % 2 == 1 then 0 else 1 + TrailingZeros(b / 2)
  }

  function Padding(digestLength: nat): nat {
    match digestLength % 3
    case 0 => 0
    case 1 => 2
    case _ => 1
  }

  /** `valid_base64_digest`; its callers pass digest lengths 4, 8, 20 and 32. */
  predicate ValidDigest(value: seq<Byte>, digestLength: nat)
    requires digestLength > 0
  {
    var encodedLength := (digestLength + 2) / 3 * 4;
    if |value| != encodedLength then false
    else
      var padding := Padding(digestLength);
      var dataLength := encodedLength - padding;
      if !(forall i :: 0 <= i < dataLength ==> IsData(value[i]))
         || !(forall i :: dataLength <= i < encodedLength ==> value[i] == PAD) then false
      else
        match SymbolValue(value[dataLength - 1])
        case None => false
        case Some(last) =>
          match padding
          case 0 => true
          case 1 => TrailingZeros(last) >= 2
          case _ => TrailingZeros(last) >= 4
  }

  // ----- soundness and completeness -----------------------------------------

  lemma TrailingZerosAtLeast(b: Byte, k: nat)
    requires b > 0
    ensures TrailingZeros(b) >= k + 1 <==> b % 2 == 0 && TrailingZeros(b / 2) >= k
  {
  }

  lemma AtLeastTwo(b: Byte)
    requires b > 0
    ensures TrailingZeros(b) >= 2 <==> b % 4 == 0
  {
    hide TrailingZeros;
    TrailingZerosAtLeast(b, 1);
    if b % 2 == 0 {
      TrailingZerosAtLeast(b / 2, 0);
    }
  }

  lemma AtLeastFour(b: Byte)
    requires b > 0
    ensures TrailingZeros(b) >= 4 <==> b % 4 == 0 && b / 4 % 4 == 0
  {
    hide TrailingZeros;
    TrailingZerosAtLeast(b, 3);
    if b % 2 == 0 {
      TrailingZerosAtLeast(b / 2, 2);
      if b % 4 == 0 {
        assert b / 2 / 2 == b / 4;
        AtLeastTwo(b / 4);
      }
    }
  }

  lemma TrailingZerosMeaning(s: Sextet)
    ensures TrailingZeros(s) >= 2 <==> s % 4 == 0
    ensures TrailingZeros(s) >= 4 <==> s % 16 == 0
  {
    hide TrailingZeros;
    if s == 0 {
      TrailingZerosOfZero();
    } else {
      AtLeastTwo(s);
      AtLeastFour(s);
    }
  }

  lemma TrailingZerosOfZero()
    ensures TrailingZeros(0) == 8
  {
  }

  /** Dropping one full block from a valid digest leaves a valid digest, and back. */
  lemma ValidDigestBlock(value: seq<Byte>, n: nat)
    requires n > 3 && |value| >= 4
    ensures ValidDigest(value, n) <==>
            (forall i :: 0 <= i < 4 ==> IsData(value[i])) && ValidDigest(value[4..], n - 3)
  {
    var rest := value[4..];
    var m := (n + 2) / 3 * 4;
    assert (n - 3 + 2) / 3 * 4 == m - 4 && Padding(n - 3) == Padding(n);
    if |value| == m {
      var data := m - Padding(n);
      assert rest[data - 5] == value[data - 1];
      assert forall i :: 4 <= i < m ==> value[i] == rest[i - 4];
      assert forall i :: 0 <= i < m - 4 ==> rest[i] == value[i + 4];
    }
  }

  function Value(c: Byte): Sextet
    requires IsData(c)
  {
    SymbolValue(c).value
  }

  /** What the validator asks of the last four characters. */
  lemma ValidLastBlock(v: seq<Byte>, n: nat)
    requires 1 <= n <= 3
    ensures ValidDigest(v, n) <==>
            && |v| == 4 && IsData(v[0]) && IsData(v[1])
            && (if n == 1 then v[2] == PAD && Value(v[1]) % 16 == 0 else IsData(v[2]))
            && (if n <= 2 then v[3] == PAD else IsData(v[3]))
            && (n == 2 ==> Value(v[2]) % 4 == 0)
  {
    hide TrailingZeros;
    if |v| == 4 {
      if n == 1 && IsData(v[1]) {
        TrailingZerosMeaning(Value(v[1]));
      } else if n == 2 && IsData(v[2]) {
        TrailingZerosMeaning(Value(v[2]));
      }
    }
  }

  lemma SymbolIsData(s: Sextet)
    ensures IsData(Symbol(s)) && Value(Symbol(s)) == s
  {
  }

  lemma LastBlockIsValid(d: seq<Byte>)
    requires 1 <= |d| <= 3
    ensures ValidDigest(Encode(d), |d|)
  {
    hide Symbol, Value, IsData, ValidDigest, Encode;
    var v := Encode(d);
    ValidLastBlock(v, |d|);
    EncodeLastBlock(d);
    SymbolIsData(d[0] / 4);
    if |d| == 1 {
      SymbolIsData(d[0] % 4 * 16);
    } else {
      SymbolIsData(d[0] % 4 * 16 + d[1] / 16);
      if |d| == 2 {
        SymbolIsData(d[1] % 16 * 4);
      } else {
        SymbolIsData(d[1] % 16 * 4 + d[2] / 64);
        SymbolIsData(d[2] % 64);
      }
    }
  }

  lemma EncodeLastBlock(d: seq<Byte>)
    requires 1 <= |d| <= 3
    ensures var v := Encode(d);
            && |v| == 4 && v[0] == Symbol(d[0] / 4)
            && (|d| == 1 ==> v[1..] == [Symbol(d[0] % 4 * 16), PAD, PAD])
            && (|d| > 1 ==> v[1] == Symbol(d[0] % 4 * 16 + d[1] / 16))
            && (|d| == 2 ==> v[2..] == [Symbol(d[1] % 16 * 4), PAD])
            && (|d| == 3 ==> v[2..] == [Symbol(d[1] % 16 * 4 + d[2] / 64), Symbol(d[2] % 64)])
  {
    hide Symbol;
    if |d| == 3 {
      assert Encode(d[3..]) == [];
    }
  }

  lemma {:induction false} EncodeIsValid(d: seq<Byte>)
    requires |d| > 0
    ensures ValidDigest(Encode(d), |d|)
  {
    hide Symbol, Value, IsData, ValidDigest;
    if |d| <= 3 {
      LastBlockIsValid(d);
    } else {
      EncodeIsValid(d[3..]);
      SymbolIsData(d[0] / 4);
      SymbolIsData(d[0] % 4 * 16 + d[1] / 16);
      SymbolIsData(d[1] % 16 * 4 + d[2] / 64);
      SymbolIsData(d[2] % 64);
      var v := Encode(d);
      assert v[4..] == Encode(d[3..]);
      ValidDigestBlock(v, |d|);
    }
  }

  /** The digest a valid text stands for. */
  function Decode(v: seq<Byte>, n: nat): (d: seq<Byte>)
    requires n > 0 && ValidDigest(v, n)
    ensures |d| == n
  {
    if n == 1 then
      [Value(v[0]) * 4 + Value(v[1]) / 16]
    else if n == 2 then
      [Value(v[0]) * 4 + Value(v[1]) / 16, Value(v[1]) % 16 * 16 + Value(v[2]) / 4]
    else
      var block := [Value(v[0]) * 4 + Value(v[1]) / 16,
                    Value(v[1]) % 16 * 16 + Value(v[2]) / 4,
                    Value(v[2]) % 4 * 64 + Value(v[3])];
      if n == 3 then block
      else
        ValidDigestBlock(v, n);
        block + Decode(v[4..], n - 3)
  }

  lemma ValueRoundTrip(c: Byte)
    requires IsData(c)
    ensures Symbol(Value(c)) == c
  {
  }

  /** Three bytes and four sextets carry the same 24 bits. */
  lemma Regroup(s0: Sextet, s1: Sextet, s2: Sextet, s3: Sextet)
    ensures var a, b, c := s0 * 4 + s1 / 16, s1 % 16 * 16 + s2 / 4, s2 % 4 * 64 + s3;
            && a < 256 && b < 256 && c < 256
            && a / 4 == s0 && a % 4 * 16 + b / 16 == s1 && b % 16 * 4 + c / 64 == s2 && c % 64 == s3
  {
  }

  lemma LastBlockDecodes(v: seq<Byte>, n: nat)
    requires 1 <= n <= 3 && ValidDigest(v, n)
    ensures Encode(Decode(v, n)) == v
  {
    hide Symbol, Value, IsData, ValidDigest;
    ValidLastBlock(v, n);
    var x2, x3 := if n > 1 then Value(v[2]) else 0, if n > 2 then Value(v[3]) else 0;
    ValueRoundTrip(v[0]);
    ValueRoundTrip(v[1]);
    Regroup(Value(v[0]), Value(v[1]), x2, x3);
    if n > 1 {
      ValueRoundTrip(v[2]);
    }
    if n > 2 {
      ValueRoundTrip(v[3]);
      assert Encode(Decode(v, n)[3..]) == [];
    }
  }

  lemma ValidLength(v: seq<Byte>, n: nat)
    requires n > 0 && ValidDigest(v, n)
    ensures |v| == (n + 2) / 3 * 4
  {
  }

  lemma {:induction false} DecodeThenEncode(v: seq<Byte>, n: nat)
    requires n > 0 && ValidDigest(v, n)
    ensures Encode(Decode(v, n)) == v
    decreases n
  {
    hide Symbol, Value, IsData, ValidDigest;
    ValidLength(v, n);
    if n <= 3 {
      LastBlockDecodes(v, n);
    } else {
      ValidDigestBlock(v, n);
      DecodeThenEncode(v[4..], n - 3);
      ValueRoundTrip(v[0]);
      ValueRoundTrip(v[1]);
      ValueRoundTrip(v[2]);
      ValueRoundTrip(v[3]);
      Regroup(Value(v[0]), Value(v[1]), Value(v[2]), Value(v[3]));
      var d := Decode(v, n);
      assert d[3..] == Decode(v[4..], n - 3);
      assert v == v[..4] + v[4..];
    }
  }

  /** The validator accepts exactly the encodings of n-byte digests. */
  lemma ValidDigestIffEncoding(v: seq<Byte>, n: nat)
    requires n > 0
    ensures ValidDigest(v, n) <==> exists d: seq<Byte> :: |d| == n && Encode(d) == v
  {
    if ValidDigest(v, n) {
      DecodeThenEncode(v, n);
      var d := Decode(v, n);
      assert |d| == n && Encode(d) == v;
    }
    forall d: seq<Byte> | |d| == n && Encode(d) == v
      ensures ValidDigest(v, n)
    {
      EncodeIsValid(d);
    }
  }

  lemma SymbolInjective(s: Sextet, t: Sextet)
    requires Symbol(s) == Symbol(t)
    ensures s == t
  {
    SymbolIsData(s);
    SymbolIsData(t);
  }

  /** The 24 bits of three bytes as four sextets. */
  function Group(x: Byte, y: Byte, z: Byte): (r: seq<Sextet>)
    ensures |r| == 4
  {
    [x / 4, x % 4 * 16 + y / 16, y % 16 * 4 + z / 64, z % 64]
  }

  lemma GroupInjective(x: Byte, y: Byte, z: Byte, x': Byte, y': Byte, z': Byte)
    requires Group(x, y, z) == Group(x', y', z')
    ensures x == x' && y == y' && z == z'
  {
    var g, g' := Group(x, y, z), Group(x', y', z');
    assert g[0] == g'[0] && g[1] == g'[1] && g[2] == g'[2] && g[3] == g'[3];
  }

  lemma EncodeBlock(d: seq<Byte>)
    requires |d| >= 3
    ensures |Encode(d)| >= 4 && Encode(d)[4..] == Encode(d[3..])
    ensures forall i :: 0 <= i < 4 ==> Encode(d)[i] == Symbol(Group(d[0], d[1], d[2])[i])
  {
    hide Symbol;
  }

  lemma FirstBlock(a: seq<Byte>, b: seq<Byte>)
    requires |a| == |b| >= 3 && Encode(a) == Encode(b)
    ensures a[..3] == b[..3] && Encode(a[3..]) == Encode(b[3..])
  {
    hide Symbol, Encode, Group;
    EncodeBlock(a);
    EncodeBlock(b);
    var g, g' := Group(a[0], a[1], a[2]), Group(b[0], b[1], b[2]);
    forall i | 0 <= i < 4 ensures g[i] == g'[i] {
      SymbolInjective(g[i], g'[i]);
    }
    GroupInjective(a[0], a[1], a[2], b[0], b[1], b[2]);
  }

  /** A digest is recoverable from its text. */
  lemma {:induction false} EncodeInjective(a: seq<Byte>, b: seq<Byte>)
    requires |a| == |b| && Encode(a) == Encode(b)
    ensures a == b
  {
    if |a| == 0 {
      return;
    }
    hide Symbol, Encode, Group;
    if |a| >= 3 {
      FirstBlock(a, b);
      EncodeInjective(a[3..], b[3..]);
      assert a == a[..3] + a[3..] && b == b[..3] + b[3..];
    } else if |a| > 0 {
      LastGroup(a);
      LastGroup(b);
      var g, g' := Group(a[0], At(a, 1), 0), Group(b[0], At(b, 1), 0);
      var v, w := Encode(a), Encode(b);
      forall i | 0 <= i <= |a| ensures g[i] == g'[i] {
        assert v[i] == w[i];
        SymbolInjective(g[i], g'[i]);
      }
      GroupInjective(a[0], At(a, 1), 0, b[0], At(b, 1), 0);
    }
  }

  function At(d: seq<Byte>, i: nat): Byte {
    if i < |d| then d[i] else 0
  }

  /** The padded last block, as if zero bytes followed. */
  lemma LastGroup(d: seq<Byte>)
    requires 1 <= |d| <= 2
    ensures |Encode(d)| == 4
    ensures forall i :: 0 <= i <= |d| ==> Encode(d)[i] == Symbol(Group(d[0], At(d, 1), 0)[i])
    ensures forall i :: |d| < i < 4 ==> Group(d[0], At(d, 1), 0)[i] == 0
  {
    hide Symbol;
  }

  // ----- the standard, said differently ----------------------------------------------------------

  /** Values from section 10 of RFC 4648, and one with the last two symbols. */
  lemma TestVectors()
    ensures Encode(Ascii("f")) == Ascii("Zg==")
    ensures Encode(Ascii("fo")) == Ascii("Zm8=")
    ensures Encode(Ascii("foo")) == Ascii("Zm9v")
    ensures Encode([0xfb, 0xff]) == Ascii("+/8=")
  {
    assert Ascii("foo")[3..] == [];
  }

  /** Each block carries the bits of its bytes as one big-endian number, filled up with zero bits. */
  lemma BlockIsItsNumber(d: seq<Byte>)
    requires d != []
    ensures |Encode(d)| >= 4
    ensures var v := Encode(d);
            var x: nat, y: nat, z: nat := d[0], At(d, 1), At(d, 2);
            if |d| == 1 then
              && |v| == 4 && IsData(v[0]) && IsData(v[1]) && v[2..] == [PAD, PAD]
              && Join(Value(v[0]), Value(v[1])) == x * 16
            else if |d| == 2 then
              && |v| == 4 && IsData(v[0]) && IsData(v[1]) && IsData(v[2]) && v[3] == PAD
              && Join(Join(Value(v[0]), Value(v[1])), Value(v[2])) == (x * 256 + y) * 4
            else
              && IsData(v[0]) && IsData(v[1]) && IsData(v[2]) && IsData(v[3])
              && Join(Join(Join(Value(v[0]), Value(v[1])), Value(v[2])), Value(v[3])) == (x * 256 + y) * 256 + z
              && v[4..] == Encode(d[3..])
  {
    hide Symbol, Value, IsData, Group;
    assert At(d, 0) == d[0];
    var g := Group(d[0], At(d, 1), At(d, 2));
    GroupIsNumber(d[0], At(d, 1), At(d, 2));
    SymbolIsData(g[0]);
    SymbolIsData(g[1]);
    SymbolIsData(g[2]);
    SymbolIsData(g[3]);
    if |d| >= 3 {
      hide Encode;
      EncodeBlock(d);
    } else {
      LastGroup(d);
      LastPads(d);
    }
  }

  lemma LastPads(d: seq<Byte>)
    requires 1 <= |d| <= 2
    ensures |Encode(d)| == 4 && Encode(d)[3] == PAD && (|d| == 1 ==> Encode(d)[2] == PAD)
  {
  }

  /** Six more bits. */
  function Join(high: nat, low: nat): nat {
    high * 64 + low
  }

  lemma GroupIsNumber(x: nat, y: nat, z: nat)
    requires x < 256 && y < 256 && z < 256
    ensures var g := Group(x, y, z);
            Join(Join(Join(g[0], g[1]), g[2]), g[3]) == (x * 256 + y) * 256 + z
  {
    assert x == x / 4 * 4 + x % 4 && y == y / 16 * 16 + y % 16 && z == z / 64 * 64 + z % 64;
  }
}
