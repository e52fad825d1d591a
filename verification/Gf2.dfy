/**
  Unsigned machine words as natural numbers, and polynomials over GF(2) packed
  into them: bit i of a number is the coefficient of x^i.
 */
module Gf2 {

  function Pow2(n: nat): (r: nat)
    ensures r > 0
  {
    if n == 0 then 1 else 2 * Pow2(n - 1)
  }

  lemma {:induction false} Pow2Monotone(a: nat, b: nat)
    requires a <= b
    ensures Pow2(a) <= Pow2(b)
  {
    if a < b {
      Pow2Monotone(a, b - 1);
    }
  }

  /** The `^` operator of the source: addition of polynomials over GF(2). */
  function Xor(a: nat, b: nat): nat {
    if a == 0 && b == 0 then 0
    else (if a % 2 != b % 2 then 1 else 0) + 2 * Xor(a / 2, b / 2)
  }

  /** Product of polynomials over GF(2). */
  ghost function Mul(q: nat, p: nat): nat {
    if q == 0 then 0
    else Xor(if q % 2 == 1 then p else 0, 2 * Mul(q / 2, p))
  }

  ghost predicate Divides(p: nat, n: nat) {
    exists q: nat :: Mul(q, p) == n
  }

  lemma XorUnfold(a: nat, b: nat)
    ensures Xor(a, b) == (if a % 2 != b % 2 then 1 else 0) + 2 * Xor(a / 2, b / 2)
  {
  }

  lemma LowBit(e: nat, h: nat)
    requires e < 2
    ensures (e + 2 * h) % 2 == e && (e + 2 * h) / 2 == h
  {
  }

  lemma {:induction false} XorBits(a: nat, b: nat)
    ensures Xor(a, b) % 2 == (a + b) % 2
    ensures Xor(a, b) / 2 == Xor(a / 2, b / 2)
  {
    hide Xor;
    XorUnfold(a, b);
    LowBit(if a % 2 != b % 2 then 1 else 0, Xor(a / 2, b / 2));
  }

  lemma {:induction false} XorZero(a: nat)
    ensures Xor(a, 0) == a && Xor(0, a) == a
  {
    if a > 0 {
      XorZero(a / 2);
    }
  }

  lemma {:induction false} XorSelf(a: nat)
    ensures Xor(a, a) == 0
  {
    if a > 0 {
      XorSelf(a / 2);
    }
  }

  lemma {:induction false} XorComm(a: nat, b: nat)
    ensures Xor(a, b) == Xor(b, a)
  {
    if a != 0 || b != 0 {
      XorComm(a / 2, b / 2);
    }
  }

  predicate Odd(a: nat) {
    a % 2 == 1
  }

  function Half(a: nat): (r: nat)
    ensures r <= a && (a > 0 ==> r < a)
  {
    a / 2
  }

  lemma XorParts(a: nat, b: nat)
    ensures Odd(Xor(a, b)) <==> Odd(a) != Odd(b)
    ensures Half(Xor(a, b)) == Xor(Half(a), Half(b))
  {
    hide Xor;
    XorUnfold(a, b);
    LowBit(if a % 2 != b % 2 then 1 else 0, Xor(a / 2, b / 2));
  }

  lemma SameParts(x: nat, y: nat)
    requires Odd(x) == Odd(y) && Half(x) == Half(y)
    ensures x == y
  {
  }

  lemma {:induction false} XorAssoc(a: nat, b: nat, c: nat)
    ensures Xor(Xor(a, b), c) == Xor(a, Xor(b, c))
    decreases a + b + c
  {
    hide Xor, Odd, Half;
    XorZero(a);
    XorZero(c);
    if (a != 0 || b != 0) && (b != 0 || c != 0) {
      XorParts(a, b);
      XorParts(b, c);
      XorParts(Xor(a, b), c);
      XorParts(a, Xor(b, c));
      XorAssoc(Half(a), Half(b), Half(c));
      SameParts(Xor(Xor(a, b), c), Xor(a, Xor(b, c)));
    }
  }

  lemma XorCancel(a: nat, b: nat)
    ensures Xor(Xor(a, b), b) == a
  {
    XorAssoc(a, b, b);
    XorSelf(b);
    XorZero(a);
  }

  /** `(a ^ b) ^ (c ^ d) == (a ^ c) ^ (b ^ d)`. */
  lemma XorSwap(a: nat, b: nat, c: nat, d: nat)
    ensures Xor(Xor(a, b), Xor(c, d)) == Xor(Xor(a, c), Xor(b, d))
  {
    XorAssoc(a, b, Xor(c, d));
    XorAssoc(b, c, d);
    XorComm(b, c);
    XorAssoc(c, b, d);
    XorAssoc(a, c, Xor(b, d));
  }

  lemma {:induction false} XorBound(a: nat, b: nat, w: nat)
    requires a < Pow2(w) && b < Pow2(w)
    ensures Xor(a, b) < Pow2(w)
  {
    if w == 0 {
    } else {
      XorBits(a, b);
      XorBound(a / 2, b / 2, w - 1);
    }
  }

  /** Adding something below x^w to something at or above it keeps it there. */
  lemma XorKeepsTop(a: nat, b: nat, w: nat)
    requires a >= Pow2(w) && b < Pow2(w)
    ensures Xor(a, b) >= Pow2(w)
  {
    if Xor(a, b) < Pow2(w) {
      XorBound(Xor(a, b), b, w);
      XorCancel(a, b);
      assert false;
    }
  }

  /** A word split at bit n is the sum of its halves. */
  lemma {:induction false} XorSplit(h: nat, l: nat, n: nat)
    requires l < Pow2(n)
    ensures Xor(h * Pow2(n), l) == h * Pow2(n) + l
  {
    if n == 0 {
      XorZero(h);
    } else {
      var hi := h * Pow2(n - 1);
      assert h * Pow2(n) == 2 * hi;
      XorBits(2 * hi, l);
      XorSplit(h, l / 2, n - 1);
    }
  }

  lemma {:induction false} MulTwice(q: nat, p: nat)
    ensures Mul(2 * q, p) == 2 * Mul(q, p)
    ensures Mul(2 * q + 1, p) == Xor(p, 2 * Mul(q, p))
  {
    XorZero(2 * Mul(q, p));
    assert (2 * q + 1) / 2 == q;
  }

  /** A non-zero multiple of a polynomial of degree w has degree at least w. */
  lemma {:induction false} MulDegree(q: nat, p: nat, w: nat)
    requires q > 0 && Pow2(w) <= p < Pow2(w + 1)
    ensures Mul(q, p) >= Pow2(w)
  {
    if q == 1 {
      assert Mul(0, p) == 0;
      XorZero(p);
    } else {
      MulDegree(q / 2, p, w);
      var low := if q % 2 == 1 then p else 0;
      XorKeepsTop(2 * Mul(q / 2, p), low, w + 1);
      XorComm(low, 2 * Mul(q / 2, p));
    }
  }

  /** Remainders are unique. */
  lemma RemainderUnique(n: nat, r1: nat, r2: nat, p: nat, w: nat)
    requires Pow2(w) <= p < Pow2(w + 1)
    requires r1 < Pow2(w) && r2 < Pow2(w)
    requires Divides(p, Xor(n, r1)) && Divides(p, Xor(n, r2))
    ensures r1 == r2
  {
    var q1: nat :| Mul(q1, p) == Xor(n, r1);
    var q2: nat :| Mul(q2, p) == Xor(n, r2);
    MulDistributes(q1, q2, p);
    XorSwap(n, r1, n, r2);
    XorSelf(n);
    XorZero(Xor(r1, r2));
    XorBound(r1, r2, w);
    if Xor(q1, q2) > 0 {
      MulDegree(Xor(q1, q2), p, w);
      assert false;
    }
    XorCancel(r1, r2);
    XorZero(r2);
  }

  lemma {:induction false} MulDistributes(a: nat, b: nat, p: nat)
    ensures Mul(Xor(a, b), p) == Xor(Mul(a, p), Mul(b, p))
    decreases a + b
  {
    hide Xor, Mul;
    if a == 0 || b == 0 {
      MulNothing(p);
      XorZero(a + b);
      XorZero(Mul(a + b, p));
    } else {
      XorBits(a, b);
      MulDistributes(a / 2, b / 2, p);
      MulUnfold(a, p);
      MulUnfold(b, p);
      MulUnfold(Xor(a, b), p);
      var ma, mb := Mul(a / 2, p), Mul(b / 2, p);
      XorDouble(ma, mb);
      XorSwap(if a % 2 == 1 then p else 0, 2 * ma, if b % 2 == 1 then p else 0, 2 * mb);
      XorSelf(p);
      XorZero(p);
      XorZero(0);
    }
  }

  lemma MulNothing(p: nat)
    ensures Mul(0, p) == 0
  {
  }

  lemma XorDouble(a: nat, b: nat)
    ensures Xor(2 * a, 2 * b) == 2 * Xor(a, b)
  {
    XorBits(2 * a, 2 * b);
  }

  lemma MulUnfold(q: nat, p: nat)
    ensures Mul(q, p) == Xor(if q % 2 == 1 then p else 0, 2 * Mul(q / 2, p))
  {
  }

  lemma SumDivides(d: nat, m: nat, n: nat)
    requires Divides(d, m) && Divides(d, n)
    ensures Divides(d, Xor(m, n))
  {
    var q: nat :| Mul(q, d) == m;
    var r: nat :| Mul(r, d) == n;
    MulDistributes(q, r, d);
  }

  lemma NoSmallMultiple(d: nat, e: nat, w: nat)
    requires Pow2(w) <= d < Pow2(w + 1) && 0 < e < Pow2(w)
    ensures !Divides(d, e)
  {
    hide Pow2, Mul;
    MulNothing(d);
    forall q: nat ensures Mul(q, d) != e {
      if q > 0 {
        MulDegree(q, d, w);
      }
    }
  }

  lemma HalveMultiple(d: nat, q: nat, n: nat)
    requires Odd(d) && Mul(q, d) == 2 * n
    ensures Mul(q / 2, d) == n
  {
    hide Xor, Mul;
    MulUnfold(q, d);
    var low := if q % 2 == 1 then d else 0;
    XorBits(low, 2 * Mul(q / 2, d));
    XorZero(2 * Mul(q / 2, d));
  }

  /** An odd divisor of n x^k divides n. */
  lemma {:induction false} OddDivides(d: nat, n: nat, k: nat)
    requires Odd(d) && Divides(d, n * Pow2(k))
    ensures Divides(d, n)
  {
    if k > 0 {
      var q: nat :| Mul(q, d) == n * Pow2(k);
      assert n * Pow2(k) == 2 * (n * Pow2(k - 1));
      hide Pow2, Mul, Odd;
      HalveMultiple(d, q, n * Pow2(k - 1));
      OddDivides(d, n, k - 1);
    }
  }
}
