/**
  The table-driven CRC32, CRC32C and CRC64/NVME of `src/operation/checksum.rs`.
  One development covers every width w: a `u32` or `u64` is a natural number
  below 2^w.
 */
module Crc {
  import opened Gf2
  import opened Wire

  const CRC32_POLYNOMIAL: nat := 0xedb8_8320
  const CRC32C_POLYNOMIAL: nat := 0x82f6_3b78
  const CRC64_NVME_POLYNOMIAL: nat := 0x9a6c_9329_ac4b_c9b5
  const CHUNK_SIZE: nat := 256 * 1024

  // ----- the bit-at-a-time register ------------------------------------

  /** One shift of the reflected register, as in the table constructors. */
  function BitStep(poly: nat, value: nat): nat {
    if value % 2 == 0 then value / 2 else Xor(value / 2, poly)
  }

  function Steps(poly: nat, value: nat, n: nat): nat
    decreases n, value
  {
    if n == 0 then value else Steps(poly, BitStep(poly, value), n - 1)
  }

  /** Feeds one message bit into the register. */
  function FeedBit(poly: nat, value: nat, bit: nat): nat {
    if value % 2 == bit % 2 then value / 2 else Xor(value / 2, poly)
  }

  /** Feeds the n low bits of b, least significant first. */
  function FeedBits(poly: nat, value: nat, b: nat, n: nat): nat
    decreases n, value
  {
    if n == 0 then value else FeedBits(poly, FeedBit(poly, value, b % 2), b / 2, n - 1)
  }

  /** The reference: every bit of the message in turn, no table. */
  function Serial(poly: nat, value: nat, message: seq<Byte>): nat
    decreases |message|
  {
    if message == [] then value
    else Serial(poly, FeedBits(poly, value, message[0], 8), message[1..])
  }

  /** `!value` on a w-bit word. */
  function Complement(w: nat, value: nat): (r: nat)
    requires value < Pow2(w)
    ensures r < Pow2(w)
  {
    Pow2(w) - 1 - value
  }

  /** A generator the three constants satisfy: a w-bit reflected polynomial with its top bit set. */
  predicate Generator(w: nat, poly: nat) {
    w >= 8 && Pow2(w - 1) <= poly < Pow2(w)
  }

  /** The checksum of a message as the standards define it. */
  function Checksum(w: nat, poly: nat, message: seq<Byte>): nat
    requires Generator(w, poly)
  {
    SerialBound(w, poly, Pow2(w) - 1, message);
    Complement(w, Serial(poly, Pow2(w) - 1, message))
  }

  // ----- linearity -------------------------------------------------------

  lemma BitStepLinear(p: nat, x: nat, y: nat)
    ensures BitStep(p, Xor(x, y)) == Xor(BitStep(p, x), BitStep(p, y))
  {
    XorBits(x, y);
    var x', y' := x / 2, y / 2;
    XorSwap(x', p, y', p);
    XorSelf(p);
    XorZero(Xor(x', y'));
    XorAssoc(x', y', p);
    XorAssoc(x', p, y');
    XorComm(p, y');
  }

  lemma {:induction false} StepsLinear(p: nat, x: nat, y: nat, n: nat)
    ensures Steps(p, Xor(x, y), n) == Xor(Steps(p, x, n), Steps(p, y, n))
    decreases n
  {
    if n > 0 {
      BitStepLinear(p, x, y);
      StepsLinear(p, BitStep(p, x), BitStep(p, y), n - 1);
    }
  }

  /** Shifting out zeros never touches the polynomial. */
  lemma {:induction false} ShiftOut(p: nat, h: nat, n: nat)
    ensures Steps(p, h * Pow2(n), n) == h
  {
    if n > 0 {
      ShiftStep(p, h * Pow2(n - 1), n);
      DoublePower(h, n - 1);
      hide Steps, Pow2;
      ShiftOut(p, h, n - 1);
    }
  }

  lemma {:induction false} ShiftStep(p: nat, x: nat, n: nat)
    requires n > 0
    ensures Steps(p, 2 * x, n) == Steps(p, x, n - 1)
  {
    EvenStep(p, x);
  }

  lemma EvenStep(p: nat, x: nat)
    ensures BitStep(p, 2 * x) == x
  {
  }

  lemma FeedBitIsXorThenShift(p: nat, v: nat, b: nat)
    ensures BitStep(p, Xor(v, b)) == Xor(FeedBit(p, v, b % 2), b / 2)
  {
    hide Xor;
    XorBits(v, b);
    var v', b' := v / 2, b / 2;
    XorAssoc(v', p, b');
    XorAssoc(v', b', p);
    XorComm(p, b');
  }

  /** Feeding bits one at a time equals XORing them in first and then shifting. */
  lemma {:induction false} FeedIsXorThenShift(p: nat, v: nat, b: nat, n: nat)
    requires b < Pow2(n)
    ensures FeedBits(p, v, b, n) == Steps(p, Xor(v, b), n)
    decreases n
  {
    if n == 0 {
      XorZero(v);
    } else {
      FeedBitIsXorThenShift(p, v, b);
      FeedIsXorThenShift(p, FeedBit(p, v, b % 2), b / 2, n - 1);
    }
  }

  lemma Pow2Eight()
    ensures Pow2(8) == 256
  {
    assert Pow2(4) == 16;
  }

  /** One table look-up replaces eight bit steps. */
  lemma TableStep(p: nat, v: nat, b: Byte)
    ensures Xor(v % 256, b) < 256
    ensures Xor(Steps(p, Xor(v % 256, b), 8), v / 256) == FeedBits(p, v, b, 8)
  {
    Pow2Eight();
    var high, low := v / 256, v % 256;
    XorBound(low, b, 8);
    XorSplit(high, low, 8);
    XorAssoc(high * 256, low, b);
    assert Xor(v, b) == Xor(high * 256, Xor(low, b));
    StepsLinear(p, high * 256, Xor(low, b), 8);
    ShiftOut(p, high, 8);
    XorComm(high, Steps(p, Xor(low, b), 8));
    FeedIsXorThenShift(p, v, b, 8);
  }

  // ----- widths ----------------------------------------------------------

  lemma {:induction false} StepsBound(w: nat, p: nat, v: nat, n: nat)
    requires p < Pow2(w) && v < Pow2(w)
    ensures Steps(p, v, n) < Pow2(w)
    decreases n
  {
    if n > 0 {
      XorBound(v / 2, p, w);
      StepsBound(w, p, BitStep(p, v), n - 1);
    }
  }

  lemma {:induction false} SerialBound(w: nat, p: nat, v: nat, m: seq<Byte>)
    requires w >= 8 && p < Pow2(w) && v < Pow2(w)
    ensures Serial(p, v, m) < Pow2(w)
    decreases |m|
  {
    if m != [] {
      FeedBitsBound(w, p, v, m[0], 8);
      SerialBound(w, p, FeedBits(p, v, m[0], 8), m[1..]);
    }
  }

  lemma {:induction false} FeedBitsBound(w: nat, p: nat, v: nat, b: nat, n: nat)
    requires p < Pow2(w) && v < Pow2(w)
    ensures FeedBits(p, v, b, n) < Pow2(w)
    decreases n
  {
    if n > 0 {
      XorBound(v / 2, p, w);
      FeedBitsBound(w, p, FeedBit(p, v, b % 2), b / 2, n - 1);
    }
  }

  // ----- the code ---------------------------------------------------------

  ghost predicate IsTable(poly: nat, table: seq<nat>) {
    |table| == 256 && forall i :: 0 <= i < 256 ==> table[i] == Steps(poly, i, 8)
  }

  /** Table entries are words of the register's width. */
  lemma {:induction false} TableIsNarrow(w: nat, poly: nat, table: seq<nat>)
    requires Generator(w, poly) && IsTable(poly, table)
    ensures forall i :: 0 <= i < 256 ==> table[i] < Pow2(w)
  {
    hide Steps, Pow2;
    Pow2Monotone(8, w);
    Pow2Eight();
    forall i | 0 <= i < 256 ensures table[i] < Pow2(w) {
      StepsBound(w, poly, i, 8);
    }
  }

  /** `crc32_table` and `crc64_table`. */
  method BuildTable(w: nat, poly: nat) returns (table: array<nat>)
    requires Generator(w, poly)
    ensures fresh(table) && IsTable(poly, table[..])
    ensures forall i :: 0 <= i < 256 ==> table[i] < Pow2(w)
  {
    table := new nat[256];
    var index := 0;
    while index < table.Length
      invariant 0 <= index <= 256
      invariant forall i :: 0 <= i < index ==> table[i] == Steps(poly, i, 8)
    {
      var value: nat := index;
      var bit := 0;
      while bit < 8
        invariant 0 <= bit <= 8
        invariant Steps(poly, value, 8 - bit) == Steps(poly, index, 8)
      {
        value := if value % 2 == 0 then value / 2 else Xor(value / 2, poly);
        bit := bit + 1;
      }
      table[index] := value;
      index := index + 1;
    }
    TableIsNarrow(w, poly, table[..]);
  }

  /** `update_crc32_state` and `update_crc64_state`. */
  method UpdateState(ghost poly: nat, table: array<nat>, start: nat, bytes: seq<Byte>) returns (value: nat)
    requires IsTable(poly, table[..])
    ensures value == Serial(poly, start, bytes)
  {
    value := start;
    for i := 0 to |bytes|
      invariant Serial(poly, value, bytes[i..]) == Serial(poly, start, bytes)
    {
      TableStep(poly, value, bytes[i]);
      var index := Xor(value % 256, bytes[i]);
      assert table[..][index] == Steps(poly, index, 8);
      assert bytes[i..][1..] == bytes[i + 1..];
      value := Xor(table[index], value / 256);
    }
  }

  /** `crc32`, `crc32c` and `crc64_nvme`: the whole buffer in one pass. */
  method Calculate(w: nat, poly: nat, bytes: seq<Byte>) returns (checksum: nat)
    requires Generator(w, poly)
    ensures checksum == Checksum(w, poly, bytes)
  {
    var table := BuildTable(w, poly);
    var value := UpdateState(poly, table, Pow2(w) - 1, bytes);
    SerialBound(w, poly, Pow2(w) - 1, bytes);
    checksum := Complement(w, value);
  }

  lemma {:induction false} SerialConcat(p: nat, v: nat, a: seq<Byte>, b: seq<Byte>)
    ensures Serial(p, v, a + b) == Serial(p, Serial(p, v, a), b)
    decreases |a|
  {
    if a == [] {
      assert a + b == b;
    } else {
      assert (a + b)[1..] == a[1..] + b;
      SerialConcat(p, FeedBits(p, v, a[0], 8), a[1..], b);
    }
  }

  lemma ChunkStep(p: nat, v: nat, bytes: seq<Byte>, from: nat, to: nat)
    requires from <= to <= |bytes|
    ensures Serial(p, Serial(p, v, bytes[..from]), bytes[from..to]) == Serial(p, v, bytes[..to])
  {
    SerialConcat(p, v, bytes[..from], bytes[from..to]);
    assert bytes[..from] + bytes[from..to] == bytes[..to];
  }

  /** `calculate_cooperatively`: the same checksum, one bounded chunk at a time. */
  method CalculateCooperatively(w: nat, poly: nat, bytes: seq<Byte>, chunkSize: nat := CHUNK_SIZE)
    returns (checksum: nat)
    requires Generator(w, poly) && chunkSize > 0
    ensures checksum == Checksum(w, poly, bytes)
  {
    hide Steps, FeedBits;
    var table := BuildTable(w, poly);
    var value := Pow2(w) - 1;
    var offset := 0;
    while offset < |bytes|
      invariant 0 <= offset <= |bytes|
      invariant IsTable(poly, table[..])
      invariant value == Serial(poly, Pow2(w) - 1, bytes[..offset])
    {
      var end := if offset + chunkSize < |bytes| then offset + chunkSize else |bytes|;
      ChunkStep(poly, Pow2(w) - 1, bytes, offset, end);
      value := UpdateState(poly, table, value, bytes[offset..end]);
      offset := end;
    }
    assert bytes[..offset] == bytes;
    SerialBound(w, poly, Pow2(w) - 1, bytes);
    checksum := Complement(w, value);
  }

  // ----- what the register computes: a remainder --------------------------

  /** Bit reversal of a w-bit word: from reflected to ordinary coefficient order. */
  ghost function Reflect(w: nat, v: nat): nat {
    if w == 0 then 0 else Top(v, w - 1) + Reflect(w - 1, v / 2)
  }

  /** The low bit of v, moved up to bit n. */
  ghost function Top(v: nat, n: nat): nat {
    if Odd(v) then Pow2(n) else 0
  }

  /** The message as a polynomial, the first transmitted bit having the highest degree. */
  ghost function BitsPolynomial(high: nat, b: nat, n: nat): nat
    decreases n, high
  {
    if n == 0 then high else BitsPolynomial(2 * high + b % 2, b / 2, n - 1)
  }

  ghost function MessagePolynomial(high: nat, m: seq<Byte>): nat
    decreases |m|
  {
    if m == [] then high else MessagePolynomial(BitsPolynomial(high, m[0], 8), m[1..])
  }

  /** The divisor x^w + ... that a reflected constant stands for. */
  ghost function Divisor(w: nat, poly: nat): nat {
    Pow2(w) + Reflect(w, poly)
  }

  /** M(x) x^w + n(x) x^k for the message polynomial M. */
  ghost function Dividend(w: nat, n: nat, k: nat, message: nat): nat {
    Xor(n * Pow2(k), message * Pow2(w))
  }

  lemma {:induction false} ReflectBound(w: nat, v: nat)
    ensures Reflect(w, v) < Pow2(w)
  {
    if w > 0 {
      ReflectBound(w - 1, v / 2);
    }
  }

  lemma {:induction false} ReflectShift(w: nat, v: nat)
    requires w > 0 && v < Pow2(w - 1)
    ensures Reflect(w, v) == 2 * Reflect(w - 1, v)
  {
    if w > 1 {
      ReflectShift(w - 1, v / 2);
    }
  }

  /** XOR of two words, each written as a top bit above n low bits. */
  lemma XorJoin(x: nat, y: nat, a: nat, b: nat, n: nat)
    requires x < 2 && y < 2 && a < Pow2(n) && b < Pow2(n)
    ensures Xor(x * Pow2(n) + a, y * Pow2(n) + b) == ((x + y) % 2) * Pow2(n) + Xor(a, b)
  {
    hide Xor, Pow2;
    var c := Pow2(n);
    XorSplit(x, a, n);
    XorSplit(y, b, n);
    XorSwap(x * c, a, y * c, b);
    XorTopBit(x, y, c);
    XorBound(a, b, n);
    XorSplit((x + y) % 2, Xor(a, b), n);
  }

  lemma XorTopBit(x: nat, y: nat, c: nat)
    requires x < 2 && y < 2
    ensures Xor(x * c, y * c) == ((x + y) % 2) * c
  {
    XorZero(c);
    XorSelf(c);
  }

  lemma XorTop(a: nat, b: nat, u: nat, v: nat, n: nat)
    requires u < Pow2(n) && v < Pow2(n)
    ensures Xor(Top(a, n) + u, Top(b, n) + v) == Top(Xor(a, b), n) + Xor(u, v)
  {
    hide Xor, Pow2, Odd;
    var x, y := if Odd(a) then 1 else 0, if Odd(b) then 1 else 0;
    XorParts(a, b);
    XorJoin(x, y, u, v, n);
    BitTimes(x, Pow2(n));
    BitTimes(y, Pow2(n));
    BitTimes((x + y) % 2, Pow2(n));
  }

  lemma {:induction false} ReflectLinear(w: nat, a: nat, b: nat)
    ensures Reflect(w, Xor(a, b)) == Xor(Reflect(w, a), Reflect(w, b))
  {
    hide Xor, Pow2, Top;
    if w == 0 {
      XorZero(0);
    } else {
      XorBits(a, b);
      ReflectLinear(w - 1, a / 2, b / 2);
      ReflectBound(w - 1, a / 2);
      ReflectBound(w - 1, b / 2);
      XorTop(a, b, Reflect(w - 1, a / 2), Reflect(w - 1, b / 2), w - 1);
    }
  }

  lemma ReflectHalf(w: nat, v: nat)
    requires w > 0 && v < Pow2(w)
    ensures 2 * Reflect(w, v) == (v % 2) * Pow2(w) + Reflect(w, v / 2)
  {
    ReflectShift(w, v / 2);
    BitTimes(v % 2, Pow2(w));
  }

  lemma BitTimes(x: nat, c: nat)
    requires x < 2
    ensures x * c == if x == 1 then c else 0
  {
  }

  /** Reflected, one bit step is: double, add the bit at x^w, reduce by the divisor. */
  lemma FeedBitReflected(w: nat, p: nat, v: nat, bit: nat)
    requires Generator(w, p) && v < Pow2(w) && bit < 2
    ensures var t := Xor(2 * Reflect(w, v), bit * Pow2(w));
            Reflect(w, FeedBit(p, v, bit)) == if v % 2 == bit then t else Xor(t, Divisor(w, p))
  {
    hide Xor, Reflect;
    var u' := Reflect(w, v / 2);
    ReflectHalf(w, v);
    ReflectBound(w, v / 2);
    XorJoin(v % 2, bit, u', 0, w);
    XorZero(u');
    ReflectBound(w, p);
    XorJoin(1, 1, u', Reflect(w, p), w);
    ReflectLinear(w, v / 2, p);
  }

  /** From d | n + u to d | (2n + e) + (2u + e), with or without another d. */
  lemma MultipleStep(d: nat, n: nat, u: nat, e: nat)
    requires Divides(d, Xor(n, u))
    ensures Divides(d, Xor(Xor(2 * n, e), Xor(2 * u, e)))
    ensures Divides(d, Xor(Xor(2 * n, e), Xor(Xor(2 * u, e), d)))
  {
    var q: nat :| Mul(q, d) == Xor(n, u);
    var n', t := Xor(2 * n, e), Xor(2 * u, e);
    XorDouble(n, u);
    XorSwap(2 * n, e, 2 * u, e);
    XorSelf(e);
    XorZero(Xor(2 * n, 2 * u));
    MulTwice(q, d);
    assert Mul(2 * q, d) == Xor(n', t);
    XorAssoc(n', t, d);
    XorComm(d, Xor(n', t));
    assert Mul(2 * q + 1, d) == Xor(n', Xor(t, d));
  }

  /** The dividend after one more bit: everything moves up, the bit enters at x^w. */
  lemma DividendStep(w: nat, n: nat, k: nat, high: nat, bit: nat)
    requires bit < 2
    ensures Xor(2 * Dividend(w, n, k, high), bit * Pow2(w)) == Dividend(w, n, k + 1, 2 * high + bit)
  {
    hide Xor;
    var a, b, c := n * Pow2(k), high * Pow2(w), bit * Pow2(w);
    DoublePower(n, k);
    DoublePower(high, w);
    BitTimes(bit, Pow2(w));
    XorSplit(high, c, w + 1);
    JoinBit(high, bit, Pow2(w));
    hide Pow2;
    XorDouble(a, b);
    XorAssoc(2 * a, 2 * b, c);
  }

  lemma DoublePower(n: nat, k: nat)
    ensures n * Pow2(k + 1) == 2 * (n * Pow2(k))
  {
  }

  lemma JoinBit(high: nat, bit: nat, c: nat)
    ensures (2 * high + bit) * c == 2 * (high * c) + bit * c
  {
  }

  lemma {:induction false} FeedBitsRemainder(w: nat, p: nat, v: nat, b: nat, j: nat, n: nat, k: nat, high: nat)
    requires Generator(w, p) && v < Pow2(w)
    requires Divides(Divisor(w, p), Xor(Dividend(w, n, k, high), Reflect(w, v)))
    ensures FeedBits(p, v, b, j) < Pow2(w)
    ensures Divides(Divisor(w, p), Xor(Dividend(w, n, k + j, BitsPolynomial(high, b, j)),
                                       Reflect(w, FeedBits(p, v, b, j))))
    decreases j
  {
    hide Xor, Reflect;
    if j > 0 {
      var bit := b % 2;
      XorBound(v / 2, p, w);
      FeedBitReflected(w, p, v, bit);
      DividendStep(w, n, k, high, bit);
      MultipleStep(Divisor(w, p), Dividend(w, n, k, high), Reflect(w, v), bit * Pow2(w));
      FeedBitsRemainder(w, p, FeedBit(p, v, bit), b / 2, j - 1, n, k + 1, 2 * high + bit);
    }
  }

  lemma {:induction false} SerialRemainder(w: nat, p: nat, v: nat, m: seq<Byte>, n: nat, k: nat, high: nat)
    requires Generator(w, p) && v < Pow2(w)
    requires Divides(Divisor(w, p), Xor(Dividend(w, n, k, high), Reflect(w, v)))
    ensures Serial(p, v, m) < Pow2(w)
    ensures Divides(Divisor(w, p), Xor(Dividend(w, n, k + 8 * |m|, MessagePolynomial(high, m)),
                                       Reflect(w, Serial(p, v, m))))
    decreases |m|
  {
    hide Xor, Reflect, FeedBits, Dividend, BitsPolynomial;
    if m != [] {
      FeedBitsRemainder(w, p, v, m[0], 8, n, k, high);
      SerialRemainder(w, p, FeedBits(p, v, m[0], 8), m[1..], n, k + 8, BitsPolynomial(high, m[0], 8));
    }
  }

  lemma ReflectTop(w: nat, v: nat)
    requires w > 0
    ensures if v % 2 == 0 then Reflect(w, v) == Reflect(w - 1, v / 2) < Pow2(w - 1)
            else Reflect(w, v) == Pow2(w - 1) + Reflect(w - 1, v / 2)
  {
    ReflectBound(w - 1, v / 2);
  }

  lemma {:induction false} ReflectInjective(w: nat, a: nat, b: nat)
    requires a < Pow2(w) && b < Pow2(w) && Reflect(w, a) == Reflect(w, b)
    ensures a == b
  {
    hide Reflect;
    if w > 0 {
      ReflectTop(w, a);
      ReflectTop(w, b);
      ReflectInjective(w - 1, a / 2, b / 2);
    }
  }

  /**
    The checksum is the one w-bit word whose reflected complement is the
    remainder of M(x) x^w + (1 + x + ... + x^(w-1)) x^(8 |m|) by the divisor.
   */
  lemma ChecksumIsRemainder(w: nat, p: nat, m: seq<Byte>, c: nat)
    requires Generator(w, p) && c < Pow2(w)
    ensures c == Checksum(w, p, m)
       <==> Divides(Divisor(w, p), Xor(Dividend(w, Reflect(w, Pow2(w) - 1), 8 * |m|, MessagePolynomial(0, m)),
                                       Reflect(w, Complement(w, c))))
  {
    hide Xor, Reflect, Serial, MessagePolynomial;
    var start, d := Pow2(w) - 1, Divisor(w, p);
    var u := Reflect(w, start);
    assert Dividend(w, u, 0, 0) == u by {
      XorZero(u);
    }
    XorSelf(u);
    assert Mul(0, d) == 0;
    SerialRemainder(w, p, start, m, u, 0, 0);
    var n := Dividend(w, u, 8 * |m|, MessagePolynomial(0, m));
    var r := Serial(p, start, m);
    if Divides(d, Xor(n, Reflect(w, Complement(w, c)))) {
      ReflectBound(w, p);
      ReflectBound(w, r);
      ReflectBound(w, Complement(w, c));
      RemainderUnique(n, Reflect(w, r), Reflect(w, Complement(w, c)), d, w);
      ReflectInjective(w, r, Complement(w, c));
    }
  }

  lemma WordSizes()
    ensures Pow2(31) == 0x8000_0000 && Pow2(32) == 0x1_0000_0000
    ensures Pow2(63) == 0x8000_0000_0000_0000 && Pow2(64) == 0x1_0000_0000_0000_0000
  {
    Pow2Eight();
    assert Pow2(1) == 2;
    hide Pow2;
    Pow2Sum(8, 8);
    assert Pow2(16) == 65536;
    Pow2Sum(16, 16);
    assert Pow2(32) == 0x1_0000_0000;
    Pow2Sum(32, 32);
    Pow2Sum(1, 31);
    Pow2Sum(1, 63);
  }

  /** Everything above applies to the three constants of the source. */
  lemma Generators()
    ensures Generator(32, CRC32_POLYNOMIAL)
    ensures Generator(32, CRC32C_POLYNOMIAL)
    ensures Generator(64, CRC64_NVME_POLYNOMIAL)
  {
    hide Pow2;
    WordSizes();
  }

  // ----- burst errors ------------------------------------------------------

  /** The bit step is a bijection because the generator's top bit is set. */
  lemma BitStepInjective(w: nat, p: nat, x: nat, y: nat)
    requires Generator(w, p) && x < Pow2(w) && y < Pow2(w)
    requires BitStep(p, x) == BitStep(p, y)
    ensures x == y
  {
    XorKeepsTop(p, x / 2, w - 1);
    XorKeepsTop(p, y / 2, w - 1);
    XorComm(p, x / 2);
    XorComm(p, y / 2);
    XorCancel(x / 2, p);
    XorCancel(y / 2, p);
  }

  lemma {:induction false} StepsInjective(w: nat, p: nat, x: nat, y: nat, n: nat)
    requires Generator(w, p) && x < Pow2(w) && y < Pow2(w)
    requires Steps(p, x, n) == Steps(p, y, n)
    ensures x == y
    decreases n
  {
    if n > 0 {
      XorBound(x / 2, p, w);
      XorBound(y / 2, p, w);
      StepsInjective(w, p, BitStep(p, x), BitStep(p, y), n - 1);
      BitStepInjective(w, p, x, y);
    }
  }

  /** Bytes packed least significant first. */
  ghost function Pack(m: seq<Byte>): nat {
    if m == [] then 0 else m[0] + 256 * Pack(m[1..])
  }

  lemma {:induction false} PackBound(m: seq<Byte>)
    ensures Pack(m) < Pow2(8 * |m|)
  {
    if m != [] {
      PackBound(m[1..]);
      Pow2Sum(8, 8 * |m[1..]|);
      Pow2Eight();
    }
  }

  lemma {:induction false} Pow2Sum(a: nat, b: nat)
    ensures Pow2(a + b) == Pow2(a) * Pow2(b)
  {
    if a > 0 {
      Pow2Sum(a - 1, b);
    }
  }

  lemma {:induction false} PackInjective(a: seq<Byte>, b: seq<Byte>)
    requires |a| == |b| && Pack(a) == Pack(b)
    ensures a == b
  {
    if a != [] {
      PackInjective(a[1..], b[1..]);
      assert a == [a[0]] + a[1..] && b == [b[0]] + b[1..];
    }
  }

  lemma {:induction false} StepsSum(p: nat, v: nat, m: nat, n: nat)
    ensures Steps(p, v, m + n) == Steps(p, Steps(p, v, m), n)
    decreases m
  {
    if m > 0 {
      StepsSum(p, BitStep(p, v), m - 1, n);
    }
  }

  lemma StepsNone(p: nat, v: nat)
    ensures Steps(p, v, 0) == v
  {
  }

  lemma AbsorbByte(p: nat, v: nat, b: Byte, rest: nat)
    ensures Xor(FeedBits(p, v, b, 8), rest) == Steps(p, Xor(v, b + 256 * rest), 8)
  {
    hide Xor;
    Pow2Eight();
    FeedIsXorThenShift(p, v, b, 8);
    ShiftOut(p, rest, 8);
    StepsLinear(p, Xor(v, b), rest * 256, 8);
    XorAssoc(v, b, rest * 256);
    XorComm(b, rest * 256);
    XorSplit(rest, b, 8);
  }

  /** A whole window is XORed in as one word and shifted through. */
  lemma {:induction false} SerialOfWindow(p: nat, v: nat, m: seq<Byte>)
    ensures Serial(p, v, m) == Steps(p, Xor(v, Pack(m)), 8 * |m|)
    decreases |m|
  {
    hide Xor, Steps, FeedBits;
    if m == [] {
      XorZero(v);
      StepsNone(p, v);
    } else {
      SerialOfWindow(p, FeedBits(p, v, m[0], 8), m[1..]);
      AbsorbByte(p, v, m[0], Pack(m[1..]));
      StepsSum(p, Xor(v, Pack(m)), 8, 8 * |m[1..]|);
    }
  }

  lemma {:induction false} SerialInjective(w: nat, p: nat, x: nat, y: nat, m: seq<Byte>)
    requires Generator(w, p) && x < Pow2(w) && y < Pow2(w)
    requires Serial(p, x, m) == Serial(p, y, m)
    ensures x == y
    decreases |m|
  {
    if m != [] {
      Pow2Eight();
      FeedBitsBound(w, p, x, m[0], 8);
      FeedBitsBound(w, p, y, m[0], 8);
      SerialInjective(w, p, FeedBits(p, x, m[0], 8), FeedBits(p, y, m[0], 8), m[1..]);
      FeedIsXorThenShift(p, x, m[0], 8);
      FeedIsXorThenShift(p, y, m[0], 8);
      Pow2Monotone(8, w);
      XorBound(x, m[0], w);
      XorBound(y, m[0], w);
      StepsInjective(w, p, Xor(x, m[0]), Xor(y, m[0]), 8);
      XorCancel(x, m[0]);
      XorCancel(y, m[0]);
    }
  }

  /**
    Two messages that differ only inside a window no wider than the register
    never share a checksum.
   */
  lemma BurstDetection(w: nat, p: nat, prefix: seq<Byte>, a: seq<Byte>, b: seq<Byte>, suffix: seq<Byte>)
    requires Generator(w, p)
    requires |a| == |b| && 8 * |a| <= w && a != b
    ensures Checksum(w, p, prefix + a + suffix) != Checksum(w, p, prefix + b + suffix)
  {
    var start := Pow2(w) - 1;
    var v := Serial(p, start, prefix);
    SerialBound(w, p, start, prefix);
    SerialConcat(p, start, prefix + a, suffix);
    SerialConcat(p, start, prefix, a);
    SerialConcat(p, start, prefix + b, suffix);
    SerialConcat(p, start, prefix, b);
    SerialBound(w, p, v, a);
    SerialBound(w, p, v, b);
    SerialBound(w, p, start, prefix + a + suffix);
    SerialBound(w, p, start, prefix + b + suffix);
    if Checksum(w, p, prefix + a + suffix) == Checksum(w, p, prefix + b + suffix) {
      SerialInjective(w, p, Serial(p, v, a), Serial(p, v, b), suffix);
      SerialOfWindow(p, v, a);
      SerialOfWindow(p, v, b);
      PackBound(a);
      PackBound(b);
      Pow2Monotone(8 * |a|, w);
      XorBound(v, Pack(a), w);
      XorBound(v, Pack(b), w);
      StepsInjective(w, p, Xor(v, Pack(a)), Xor(v, Pack(b)), 8 * |a|);
      XorComm(v, Pack(a));
      XorComm(v, Pack(b));
      XorCancel(Pack(a), v);
      XorCancel(Pack(b), v);
      PackInjective(a, b);
      assert false;
    }
  }

  // ----- bursts that start at any bit ------------------------------------------------------------

  lemma {:induction false} XorShift(x: nat, y: nat, k: nat)
    ensures Xor(x * Pow2(k), y * Pow2(k)) == Xor(x, y) * Pow2(k)
  {
    if k > 0 {
      DoublePower(x, k - 1);
      DoublePower(y, k - 1);
      DoublePower(Xor(x, y), k - 1);
      hide Xor, Pow2;
      XorDouble(x * Pow2(k - 1), y * Pow2(k - 1));
      XorShift(x, y, k - 1);
    }
  }

  /** The generators have a constant term, because the reflected constants have their top bit set. */
  lemma {:induction false} ReflectIsOdd(w: nat, v: nat)
    requires w > 0 && Pow2(w - 1) <= v < Pow2(w)
    ensures Odd(Reflect(w, v))
  {
    if w > 1 {
      ReflectIsOdd(w - 1, v / 2);
    }
  }

  lemma DivisorIsOdd(w: nat, p: nat)
    requires Generator(w, p)
    ensures Odd(Divisor(w, p)) && Pow2(w) <= Divisor(w, p) < Pow2(w + 1)
  {
    ReflectIsOdd(w, p);
    ReflectBound(w, p);
    assert Pow2(w) == 2 * Pow2(w - 1) && Pow2(w + 1) == 2 * Pow2(w);
    hide Reflect, Pow2;
  }

  /** Two messages with one checksum differ by a multiple of the generator. */
  lemma ChecksumBound(w: nat, p: nat, message: seq<Byte>)
    requires Generator(w, p)
    ensures Checksum(w, p, message) < Pow2(w)
  {
    SerialBound(w, p, Pow2(w) - 1, message);
  }

  lemma XorCommon(n: nat, r: nat, x: nat, y: nat)
    ensures Xor(Xor(Xor(n, x), r), Xor(Xor(n, y), r)) == Xor(x, y)
  {
    hide Xor;
    XorSwap(Xor(n, x), r, Xor(n, y), r);
    XorSwap(n, x, n, y);
    XorSelf(r);
    XorSelf(n);
    XorZero(Xor(x, y));
    XorZero(Xor(Xor(n, x), Xor(n, y)));
  }

  /** Two messages with one checksum differ by a multiple of the generator. */
  lemma {:induction false} SameChecksumDivides(w: nat, p: nat, a: seq<Byte>, b: seq<Byte>)
    requires Generator(w, p) && |a| == |b| && Checksum(w, p, a) == Checksum(w, p, b)
    ensures Divides(Divisor(w, p), Xor(MessagePolynomial(0, a), MessagePolynomial(0, b)))
  {
    hide Xor, Pow2, Checksum, MessagePolynomial, Divisor, Reflect, Generator, Divides, Complement;
    DivisorIsOdd(w, p);
    ChecksumBound(w, p, a);
    var c := Checksum(w, p, a);
    ChecksumIsRemainder(w, p, a, c);
    ChecksumIsRemainder(w, p, b, c);
    var d, r := Divisor(w, p), Reflect(w, Complement(w, c));
    var ma, mb := MessagePolynomial(0, a), MessagePolynomial(0, b);
    var n := Reflect(w, Pow2(w) - 1) * Pow2(8 * |a|);
    SumDivides(d, Xor(Xor(n, ma * Pow2(w)), r), Xor(Xor(n, mb * Pow2(w)), r));
    XorCommon(n, r, ma * Pow2(w), mb * Pow2(w));
    XorShift(ma, mb, w);
    OddDivides(d, Xor(ma, mb), w);
  }

  /** Whatever its position, a burst of at most w bits changes the checksum. */
  lemma {:induction false} BitBurstDetection(w: nat, p: nat, a: seq<Byte>, b: seq<Byte>, e: nat, k: nat)
    requires Generator(w, p) && |a| == |b| && 0 < e < Pow2(w)
    requires Xor(MessagePolynomial(0, a), MessagePolynomial(0, b)) == e * Pow2(k)
    ensures Checksum(w, p, a) != Checksum(w, p, b)
  {
    hide Xor, Pow2, Checksum, MessagePolynomial, Divisor, Generator, Divides;
    DivisorIsOdd(w, p);
    NoSmallMultiple(Divisor(w, p), e, w);
    if Checksum(w, p, a) == Checksum(w, p, b) {
      SameChecksumDivides(w, p, a, b);
      OddDivides(Divisor(w, p), e, k);
    }
  }
}
