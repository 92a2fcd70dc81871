// The arithmetic the server performs on one slot. Every operation is evaluated
// in Z_p; a mask is a slot holding 0 or 1.

module Masks {
  import opened PrimeField

  function Bit(b: bool): int { if b then 1 else 0 }

  function Half(p: OddPrime): nat { (p - 1) / 2 }

  /** EQ(a,b) = 1 - (a-b)^(p-1). */
  function EqMask(p: OddPrime, a: int, b: int): int {
    (1 - Pow(a - b, p - 1)) % p
  }

  /** Partial sum of EQ(d,1) + ... + EQ(d,k). */
  function EqSum(p: OddPrime, d: int, k: nat): int {
    if k == 0 then 0 else (EqSum(p, d, k - 1) + EqMask(p, d, k)) % p
  }

  /** GT(a,b) = sum of EQ(a-b,k) for k from 1 to (p-1)/2. */
  function GtMask(p: OddPrime, a: int, b: int): int {
    EqSum(p, (a - b) % p, Half(p))
  }

  /** LT(a,b) = GT(b,a). */
  function LtMask(p: OddPrime, a: int, b: int): int {
    GtMask(p, b, a)
  }

  function AndMask(p: OddPrime, m: int, n: int): int { (m * n) % p }

  function OrMask(p: OddPrime, m: int, n: int): int { (m + n - m * n) % p }

  function NotMask(p: OddPrime, m: int): int { (1 - m) % p }

  // ---- What the circuits compute, with no assumption on the operands ----

  /** EQ is the indicator of congruence modulo p. */
  lemma EqMaskExact(p: OddPrime, a: int, b: int)
    ensures EqMask(p, a, b) == Bit(a % p == b % p)
  {
    Fermat(p, a - b);
    SameRemainder(p, a, b);
    DividesIffRemainderZero(p, a - b);
    OneMinus(p, Pow(a - b, p - 1));
  }

  lemma OneMinus(p: OddPrime, x: int)
    requires x % p == 0 || x % p == 1
    ensures (1 - x) % p == 1 - x % p
  {
    var q, r := x / p, x % p;
    assert 1 - x == -q * p + (1 - r);
    assert Times(-q, p) == (1 - x) - (1 - r);
    SameRemainder(p, 1 - x, 1 - r);
    SmallRemainder(p, 1 - r);
  }

  lemma SmallRemainder(p: int, x: int)
    requires 0 <= x < p
    ensures x % p == x
  {
  }

  lemma {:induction false} EqSumExact(p: OddPrime, d: int, k: nat)
    requires 0 <= d < p && k <= Half(p)
    ensures EqSum(p, d, k) == Bit(1 <= d <= k)
  {
    if k > 0 {
      EqSumExact(p, d, k - 1);
      EqMaskExact(p, d, k);
      SmallRemainder(p, k);
      SmallRemainder(p, d);
      SmallRemainder(p, Bit(1 <= d <= k));
    }
  }

  /** GT is the indicator of the positive half of Z_p: the difference, reduced
      modulo p, lies between 1 and (p-1)/2. */
  lemma GtMaskExact(p: OddPrime, a: int, b: int)
    ensures GtMask(p, a, b) == Bit(1 <= (a - b) % p <= Half(p))
  {
    EqSumExact(p, (a - b) % p, Half(p));
  }

  /** The remainder of a difference of two reduced values. */
  lemma ReducedDifference(p: OddPrime, a: int, b: int)
    requires 0 <= a < p && 0 <= b < p
    ensures (a - b) % p == if a >= b then a - b else a - b + p
  {
    if a < b {
      assert Times(-1, p) == (a - b) - (a - b + p);
      SameRemainder(p, a - b, a - b + p);
      SmallRemainder(p, a - b + p);
    } else {
      SmallRemainder(p, a - b);
    }
  }

  /** On reduced operands GT decides the order exactly when the operands are no
      further apart than (p-1)/2. */
  lemma GtMaskDecidesOrder(p: OddPrime, a: int, b: int)
    requires 0 <= a < p && 0 <= b < p
    ensures GtMask(p, a, b) == Bit(a > b) <==> a - b <= Half(p) && b - a <= Half(p)
  {
    GtMaskExact(p, a, b);
    ReducedDifference(p, a, b);
  }

  /** p - 1 > 0, but GT says 0: the operands are too far apart. */
  lemma GtMaskWraps(p: OddPrime)
    ensures GtMask(p, p - 1, 0) == 0
  {
    GtMaskExact(p, p - 1, 0);
    ReducedDifference(p, p - 1, 0);
  }

  /** The range the documentation asks for is safe for every comparison. */
  lemma MasksOnHalfRange(p: OddPrime, a: int, b: int)
    requires 0 <= a <= Half(p) && 0 <= b <= Half(p)
    ensures EqMask(p, a, b) == Bit(a == b)
    ensures GtMask(p, a, b) == Bit(a > b)
    ensures LtMask(p, a, b) == Bit(a < b)
  {
    SmallRemainder(p, a);
    SmallRemainder(p, b);
    EqMaskExact(p, a, b);
    GtMaskDecidesOrder(p, a, b);
    GtMaskDecidesOrder(p, b, a);
  }

  // ---- Boolean structure ----

  /** AND, OR and NOT compute the connectives and never leave {0,1}. */
  lemma ConnectivesOnBits(p: OddPrime, x: bool, y: bool)
    ensures AndMask(p, Bit(x), Bit(y)) == Bit(x && y)
    ensures OrMask(p, Bit(x), Bit(y)) == Bit(x || y)
    ensures NotMask(p, Bit(x)) == Bit(!x)
  {
    SmallRemainder(p, 0);
    SmallRemainder(p, 1);
  }
}
