/**
  * Exact decimal money as integer cents, and the half-away-from-zero rounding
  * of shopspring's `Round` and `DivRound` at two places.
  */
module Money {

  /** An amount of money in hundredths of a unit. */
  type Cents = int

  const CentsPerUnit := 100

  function Abs(x: int): nat
  {
    if x < 0 then -x else x
  }

  /** Floor division facts for a positive divisor. */
  lemma DivBounds(x: int, y: int)
    requires y > 0
    ensures y * (x / y) <= x < y * (x / y) + y
  {
  }

  /** Rounds n/d, d > 0, n >= 0, to the nearest integer, halves upwards. */
  function RoundNonNeg(n: nat, d: int): (q: nat)
    requires d > 0
    ensures -d < 2 * (q * d - n) <= d
  {
    DivBounds(2 * n + d, 2 * d);
    (2 * n + d) / (2 * d)
  }

  lemma MulNonNeg(a: int, b: int)
    requires a >= 0 && b >= 0
    ensures a * b >= 0
  {
  }

  lemma MulAbs(a: int, b: int)
    ensures Abs(a * b) == Abs(a) * Abs(b)
  {
    if a < 0 && b < 0 {
      assert a * b == (-a) * (-b);
      MulNonNeg(-a, -b);
    } else if a < 0 {
      assert a * b == -((-a) * b);
      MulNonNeg(-a, b);
    } else if b < 0 {
      assert a * b == -(a * (-b));
      MulNonNeg(a, -b);
    } else {
      MulNonNeg(a, b);
    }
  }

  /** Restoring the signs: q * d - n is, up to sign, m * |d| - |n|. */
  lemma SignedError(n: int, d: int, m: int, q: int)
    requires d != 0 && m >= 0
    requires q == if (n < 0) == (d < 0) then m else -m
    ensures Abs(q * d - n) == Abs(m * Abs(d) - Abs(n))
    ensures Abs(q * d) == m * Abs(d)
  {
    if d > 0 && n >= 0 {
      assert q * d - n == m * Abs(d) - Abs(n);
    } else if d > 0 {
      assert q * d - n == -(m * Abs(d) - Abs(n));
    } else if n < 0 {
      assert q * d == -(m * Abs(d));
      assert q * d - n == -(m * Abs(d) - Abs(n));
    } else {
      assert q * d == m * Abs(d);
      assert q * d - n == m * Abs(d) - Abs(n);
    }
    MulNonNeg(m, Abs(d));
  }

  /**
    * n/d rounded to the nearest integer, a half rounded away from zero: the
    * result is within half of |d| of n/d (times d), and on a tie it is the
    * one of larger magnitude.
    */
  function RoundHalfAway(n: int, d: int): (q: int)
    requires d != 0
    ensures 2 * Abs(q * d - n) <= Abs(d)
    ensures 2 * Abs(q * d - n) == Abs(d) ==> Abs(q * d) > Abs(n)
  {
    var m: int := RoundNonNeg(Abs(n), Abs(d));
    var q := if (n < 0) == (d < 0) then m else -m;
    SignedError(n, d, m, q);
    q
  }

  /** A non-zero multiple of d is at least as large as d. */
  lemma MultipleAtLeast(k: int, d: int)
    requires k != 0
    ensures Abs(k * d) >= Abs(d)
  {
    MulAbs(k, d);
    MulNonNeg(Abs(k) - 1, Abs(d));
    assert Abs(k) * Abs(d) - Abs(d) == (Abs(k) - 1) * Abs(d);
  }

  /** If k * d == 2e with 2|e| == |d| != 0, then k is 1 or -1. */
  lemma UnitStep(k: int, d: int, e: int)
    requires d != 0 && k * d == 2 * e && 2 * Abs(e) == Abs(d)
    ensures Abs(k) == 1
  {
    MulAbs(k, d);
    assert Abs(k) * Abs(d) == Abs(d);
    if Abs(k) > 1 {
      MulNonNeg(Abs(k) - 2, Abs(d));
      assert false;
    }
    if k == 0 {
      assert false;
    }
  }

  /** Two distinct multiples of d within |d|/2 of n lie exactly |d|/2 on either side of it. */
  lemma BothTies(n: int, d: int, q: int, q': int)
    requires d != 0 && q != q'
    requires 2 * Abs(q * d - n) <= Abs(d) && 2 * Abs(q' * d - n) <= Abs(d)
    ensures 2 * Abs(q * d - n) == Abs(d) && q' * d - n == -(q * d - n)
    ensures Abs(q - q') == 1
  {
    var e, e' := q * d - n, q' * d - n;
    assert (q - q') * d == e - e';
    MultipleAtLeast(q - q', d);
    UnitStep(q - q', d, e);
  }

  /** Between two such ties, n is at least |d|/2 away from zero. */
  lemma TieFarFromZero(n: int, d: int, q: int, q': int)
    requires d != 0 && Abs(q - q') == 1
    requires q' * d - n == -(q * d - n)
    ensures Abs(n) >= Abs(q * d - n)
  {
    assert (q + q') * d == 2 * n;
    assert q + q' != 0;
    MultipleAtLeast(q + q', d);
    assert (q - q') * d == 2 * (q * d - n);
    MulAbs(q - q', d);
  }

  /** The two properties of `RoundHalfAway` single out its result. */
  lemma RoundHalfAwayUnique(n: int, d: int, q': int)
    requires d != 0
    requires 2 * Abs(q' * d - n) <= Abs(d)
    requires 2 * Abs(q' * d - n) == Abs(d) ==> Abs(q' * d) > Abs(n)
    ensures q' == RoundHalfAway(n, d)
  {
    var q := RoundHalfAway(n, d);
    if q != q' {
      BothTies(n, d, q, q');
      TieFarFromZero(n, d, q, q');
      // both ties were resolved away from zero, which n + e and n - e cannot both be
      assert false;
    }
  }
}
