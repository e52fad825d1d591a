/**
  The three CRCs as their standards give them: CRC-32 of section 8 of RFC 1952, CRC32C of section 12.1
  of RFC 3720, and CRC64/NVME, each by its generator in ordinary coefficient order.
 */
module CrcStandards {
  import opened Wire
  import opened Gf2
  import opened Crc

  // ----- bits ------------------------------------------------------------------------------

  /** Bit i of a number. */
  ghost function Bit(v: nat, i: nat): nat
    decreases i, v
  {
    if i == 0 then v % 2 else Bit(v / 2, i - 1)
  }

  lemma {:induction false} BitOfSmall(v: nat, n: nat, i: nat)
    requires v < Pow2(n) && n <= i
    ensures Bit(v, i) == 0
    decreases i
  {
    if i > 0 {
      BitOfSmall(v / 2, if n == 0 then 0 else n - 1, i - 1);
    }
  }

  /** A top bit above n low bits. */
  lemma {:induction false} BitOfJoin(top: bool, low: nat, n: nat, i: nat)
    requires low < Pow2(n)
    ensures Bit((if top then Pow2(n) else 0) + low, i) ==
            if i < n then Bit(low, i) else if i == n && top then 1 else 0
    decreases n
  {
    var whole := (if top then Pow2(n) else 0) + low;
    if n == 0 {
      if i > 0 {
        BitOfSmall(whole / 2, 0, i - 1);
      }
    } else {
      assert whole / 2 == (if top then Pow2(n - 1) else 0) + low / 2 && whole % 2 == low % 2;
      if i > 0 {
        BitOfJoin(top, low / 2, n - 1, i - 1);
      }
    }
  }

  /** Reflection turns a word around, bit by bit. */
  lemma {:induction false} ReflectTurnsAround(w: nat, v: nat, i: nat)
    requires i < w
    ensures Bit(Reflect(w, v), i) == Bit(v, w - 1 - i)
    decreases w
  {
    hide Pow2;
    ReflectBound(w - 1, v / 2);
    BitOfJoin(Odd(v), Reflect(w - 1, v / 2), w - 1, i);
    if i < w - 1 {
      ReflectTurnsAround(w - 1, v / 2, i);
    }
  }

  lemma {:induction false} BitsArePacked(high: nat, b: nat, n: nat)
    ensures BitsPolynomial(high, b, n) == high * Pow2(n) + Reflect(n, b)
    decreases n
  {
    if n > 0 {
      BitsArePacked(2 * high + b % 2, b / 2, n - 1);
      DoublePower(high, n - 1);
      JoinBit(high, b % 2, Pow2(n - 1));
      BitTimes(b % 2, Pow2(n - 1));
    }
  }

  lemma {:induction false} MessageAbove(high: nat, m: seq<Byte>)
    ensures MessagePolynomial(high, m) == high * Pow2(8 * |m|) + MessagePolynomial(0, m)
    decreases |m|
  {
    if m != [] {
      var rest := m[1..];
      BitsArePacked(high, m[0], 8);
      BitsArePacked(0, m[0], 8);
      hide Pow2, Reflect, BitsPolynomial;
      MessageAbove(high * Pow2(8) + Reflect(8, m[0]), rest);
      MessageAbove(Reflect(8, m[0]), rest);
      Pow2Sum(8, 8 * |rest|);
      Distribute(high, Pow2(8), Pow2(8 * |rest|), Reflect(8, m[0]));
    }
  }

  lemma Distribute(h: nat, a: nat, b: nat, r: nat)
    ensures (h * a + r) * b == h * (a * b) + r * b
  {
    assert h * a * b == h * (a * b);
  }

  /** The message as a number: its bytes in order, each turned around. */
  lemma {:induction false} MessageIsTurnedBytes(m: seq<Byte>)
    ensures MessagePolynomial(0, m) ==
            if m == [] then 0 else Reflect(8, m[0]) * Pow2(8 * (|m| - 1)) + MessagePolynomial(0, m[1..])
  {
    if m != [] {
      BitsArePacked(0, m[0], 8);
      hide Pow2, Reflect, BitsPolynomial;
      MessageAbove(Reflect(8, m[0]), m[1..]);
    }
  }

  // ----- the definition of a CRC -----------------------------------------------------------------

  /**
    c is the CRC of m by a divisor of degree w: register preset to ones, bits fed least significant
    first, remainder reflected and complemented.
   */
  ghost predicate IsCrc(w: nat, divisor: nat, m: seq<Byte>, c: nat) {
    && c < Pow2(w)
    && Divides(divisor, Xor(Xor((Pow2(w) - 1) * Pow2(8 * |m|), MessagePolynomial(0, m) * Pow2(w)),
                            Reflect(w, Pow2(w) - 1 - c)))
  }

  lemma {:induction false} ReflectOnes(w: nat)
    ensures Reflect(w, Pow2(w) - 1) == Pow2(w) - 1
  {
    if w > 0 {
      assert Odd(Pow2(w) - 1) && (Pow2(w) - 1) / 2 == Pow2(w - 1) - 1;
      ReflectOnes(w - 1);
    }
  }

  lemma {:induction false} ChecksumIffCrc(w: nat, p: nat, m: seq<Byte>, c: nat)
    requires Generator(w, p)
    ensures c == Checksum(w, p, m) <==> IsCrc(w, Divisor(w, p), m, c)
  {
    ChecksumBound(w, p, m);
    ReflectOnes(w);
    hide Xor, Pow2, Checksum, MessagePolynomial, Divisor, Reflect, Generator, Divides;
    if c < Pow2(w) {
      ChecksumIsRemainder(w, p, m, c);
    }
  }

  // ----- the three generators -----------------------------------------------------------------------

  lemma FeedOne(acc: nat, half: nat, bit: nat, n: nat)
    requires bit < 2
    ensures BitsPolynomial(acc, 2 * half + bit, n + 1) == BitsPolynomial(2 * acc + bit, half, n)
  {
    LowBit(bit, half);
  }

  /** One hexadecimal digit, given by its bits, is turned around on its way from the low to the high end. */
  lemma FeedDigit(acc: nat, rest: nat, b3: nat, b2: nat, b1: nat, b0: nat, n: nat)
    requires b3 < 2 && b2 < 2 && b1 < 2 && b0 < 2
    ensures BitsPolynomial(acc, 16 * rest + 8 * b3 + 4 * b2 + 2 * b1 + b0, n + 4)
         == BitsPolynomial(16 * acc + 8 * b0 + 4 * b1 + 2 * b2 + b3, rest, n)
  {
    hide BitsPolynomial;
    FeedOne(acc, 8 * rest + 4 * b3 + 2 * b2 + b1, b0, n + 3);
    FeedOne(2 * acc + b0, 4 * rest + 2 * b3 + b2, b1, n + 2);
    FeedOne(4 * acc + 2 * b0 + b1, 2 * rest + b3, b2, n + 1);
    FeedOne(8 * acc + 4 * b0 + 2 * b1 + b2, rest, b3, n);
  }

  lemma FeedNothing(acc: nat)
    ensures BitsPolynomial(acc, 0, 0) == acc
  {
  }

  /** x^32 + x^26 + x^23 + x^22 + x^16 + x^12 + x^11 + x^10 + x^8 + x^7 + x^5 + x^4 + x^2 + x + 1. */
  lemma {:induction false} Crc32Generator()
    ensures Divisor(32, CRC32_POLYNOMIAL) == 0x1_04C1_1DB7
  {
    hide BitsPolynomial, Reflect, Pow2;
    BitsArePacked(0, CRC32_POLYNOMIAL, 32);
    FeedDigit(0x0, 0xedb8832, 0, 0, 0, 0, 28);
    FeedDigit(0x0, 0xedb883, 0, 0, 1, 0, 24);
    FeedDigit(0x4, 0xedb88, 0, 0, 1, 1, 20);
    FeedDigit(0x4c, 0xedb8, 1, 0, 0, 0, 16);
    FeedDigit(0x4c1, 0xedb, 1, 0, 0, 0, 12);
    FeedDigit(0x4c11, 0xed, 1, 0, 1, 1, 8);
    FeedDigit(0x4c11d, 0xe, 1, 1, 0, 1, 4);
    FeedDigit(0x4c11db, 0x0, 1, 1, 1, 0, 0);
    FeedNothing(0x4c11db7);
    WordSizes();
  }

  /** The Castagnoli polynomial 0x11EDC6F41. */
  lemma {:induction false} Crc32cGenerator()
    ensures Divisor(32, CRC32C_POLYNOMIAL) == 0x1_1EDC_6F41
  {
    hide BitsPolynomial, Reflect, Pow2;
    BitsArePacked(0, CRC32C_POLYNOMIAL, 32);
    FeedDigit(0x0, 0x82f63b7, 1, 0, 0, 0, 28);
    FeedDigit(0x1, 0x82f63b, 0, 1, 1, 1, 24);
    FeedDigit(0x1e, 0x82f63, 1, 0, 1, 1, 20);
    FeedDigit(0x1ed, 0x82f6, 0, 0, 1, 1, 16);
    FeedDigit(0x1edc, 0x82f, 0, 1, 1, 0, 12);
    FeedDigit(0x1edc6, 0x82, 1, 1, 1, 1, 8);
    FeedDigit(0x1edc6f, 0x8, 0, 0, 1, 0, 4);
    FeedDigit(0x1edc6f4, 0x0, 1, 0, 0, 0, 0);
    FeedNothing(0x1edc6f41);
    WordSizes();
  }

  /** The NVM Express polynomial, without its leading term 0xAD93D23594C93659. */
  lemma {:induction false} Crc64NvmeGenerator()
    ensures Divisor(64, CRC64_NVME_POLYNOMIAL) == 0x1_AD93_D235_94C9_3659
  {
    hide BitsPolynomial, Reflect, Pow2;
    BitsArePacked(0, CRC64_NVME_POLYNOMIAL, 64);
    FeedDigit(0x0, 0x9a6c9329ac4bc9b, 0, 1, 0, 1, 60);
    FeedDigit(0xa, 0x9a6c9329ac4bc9, 1, 0, 1, 1, 56);
    FeedDigit(0xad, 0x9a6c9329ac4bc, 1, 0, 0, 1, 52);
    FeedDigit(0xad9, 0x9a6c9329ac4b, 1, 1, 0, 0, 48);
    FeedDigit(0xad93, 0x9a6c9329ac4, 1, 0, 1, 1, 44);
    FeedDigit(0xad93d, 0x9a6c9329ac, 0, 1, 0, 0, 40);
    FeedDigit(0xad93d2, 0x9a6c9329a, 1, 1, 0, 0, 36);
    FeedDigit(0xad93d23, 0x9a6c9329, 1, 0, 1, 0, 32);
    FeedDigit(0xad93d235, 0x9a6c932, 1, 0, 0, 1, 28);
    FeedDigit(0xad93d2359, 0x9a6c93, 0, 0, 1, 0, 24);
    FeedDigit(0xad93d23594, 0x9a6c9, 0, 0, 1, 1, 20);
    FeedDigit(0xad93d23594c, 0x9a6c, 1, 0, 0, 1, 16);
    FeedDigit(0xad93d23594c9, 0x9a6, 1, 1, 0, 0, 12);
    FeedDigit(0xad93d23594c93, 0x9a, 0, 1, 1, 0, 8);
    FeedDigit(0xad93d23594c936, 0x9, 1, 0, 1, 0, 4);
    FeedDigit(0xad93d23594c9365, 0x0, 1, 0, 0, 1, 0);
    FeedNothing(0xad93d23594c93659);
    WordSizes();
  }
}
