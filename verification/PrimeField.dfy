// Number theory behind the encrypted comparison circuits: Euclid's lemma and
// Fermat's little theorem, for every prime modulus.

module PrimeField {

  ghost predicate IsPrime(p: int) {
    p > 1 && forall d {:trigger p % d} :: 1 < d < p ==> p % d != 0
  }

  /** The plaintext modulus of the scheme: any odd prime. */
  type OddPrime = p: int | p > 2 && p % 2 == 1 && IsPrime(p) witness 3

  function Pow(b: int, e: nat): int {
    if e == 0 then 1 else b * Pow(b, e - 1)
  }

  // ---- Divisibility, kept behind a witness so that products stay explicit ----

  ghost predicate Divides(p: int, n: int) {
    exists k :: Times(k, p) == n
  }

  function Times(k: int, p: int): int { k * p }

  lemma DividesIffRemainderZero(p: int, n: int)
    requires p > 0
    ensures Divides(p, n) <==> n % p == 0
  {
    if n % p == 0 {
      assert Times(n / p, p) == n;
    }
    if Divides(p, n) {
      var k :| Times(k, p) == n;
      RemainderOfMultiple(k, p);
    }
  }

  /** A nonzero multiple of p is at least p in magnitude. */
  lemma MultipleMagnitude(k: int, p: int)
    requires p > 0
    ensures k > 0 ==> k * p >= p
    ensures k < 0 ==> k * p <= -p
  {
    if k > 0 {
      ProductNonNegative(k - 1, p);
      assert (k - 1) * p == k * p - p;
    } else if k < 0 {
      ProductNonNegative(-k - 1, p);
      assert (-k - 1) * p == -(k * p) - p;
    }
  }

  lemma ProductNonNegative(a: nat, b: nat)
    ensures a * b >= 0
  {
  }

  lemma RemainderOfMultiple(k: int, p: int)
    requires p > 0
    ensures (k * p) % p == 0
  {
    var n := k * p;
    var q, r := n / p, n % p;
    MultipleMagnitude(k - q, p);
    assert (k - q) * p == k * p - q * p == r;
  }

  lemma DividesLinear(p: int, a: int, x: int, b: int, y: int)
    requires Divides(p, x) && Divides(p, y)
    ensures Divides(p, a * x + b * y)
  {
    var k :| Times(k, p) == x;
    var l :| Times(l, p) == y;
    assert a * x == a * k * p && b * y == b * l * p;
    assert Times(a * k + b * l, p) == a * x + b * y;
  }

  /** Two integers have the same remainder exactly when p divides their difference. */
  lemma SameRemainder(p: int, a: int, b: int)
    requires p > 0
    ensures a % p == b % p <==> Divides(p, a - b)
  {
    var qa, ra, qb, rb := a / p, a % p, b / p, b % p;
    assert a - b == (qa - qb) * p + (ra - rb);
    if ra == rb {
      assert Times(qa - qb, p) == a - b;
    }
    if Divides(p, a - b) {
      var k :| Times(k, p) == a - b;
      var m := k - (qa - qb);
      assert m * p == ra - rb;
      MultipleMagnitude(m, p);
    }
  }

  // ---- Euclid's lemma ----

  /** Descend from m to p % m until the multiplier is one. */
  lemma {:induction false} EuclidSmall(p: int, m: int, b: int)
    requires IsPrime(p) && 0 < m < p && Divides(p, m * b)
    ensures Divides(p, b)
    decreases m
  {
    if m == 1 {
      assert m * b == b;
    } else {
      var q, r := p / m, p % m;
      assert r != 0;
      assert Times(b, p) == p * b;
      DividesLinear(p, 1, p * b, -q, m * b);
      EuclidArithmetic(p, q, m, r, b);
      EuclidSmall(p, r, b);
    }
  }

  lemma EuclidArithmetic(p: int, q: int, m: int, r: int, b: int)
    requires p == q * m + r
    ensures r * b == 1 * (p * b) + (-q) * (m * b)
  {
    assert p * b == q * m * b + r * b;
  }

  lemma Euclid(p: int, a: int, b: int)
    requires IsPrime(p) && Divides(p, a * b) && !Divides(p, a)
    ensures Divides(p, b)
  {
    var q, r := a / p, a % p;
    DividesIffRemainderZero(p, a);
    assert a == q * p + r;
    assert Times(q * b, p) == q * b * p;
    DividesLinear(p, 1, a * b, -1, q * b * p);
    assert r * b == 1 * (a * b) + (-1) * (q * b * p);
    EuclidSmall(p, r, b);
  }

  // ---- Binomial coefficients ----

  function Choose(n: nat, k: nat): nat {
    if k == 0 then 1
    else if n == 0 then 0
    else Choose(n - 1, k - 1) + Choose(n - 1, k)
  }

  lemma {:induction false} ChooseOutside(n: nat, k: nat)
    requires k > n
    ensures Choose(n, k) == 0
  {
    if n > 0 {
      ChooseOutside(n - 1, k - 1);
      ChooseOutside(n - 1, k);
    }
  }

  lemma {:induction false} ChooseFull(n: nat)
    ensures Choose(n, n) == 1
  {
    if n > 0 {
      ChooseFull(n - 1);
      ChooseOutside(n - 1, n);
    }
  }

  lemma {:induction false} Absorption(n: nat, k: nat)
    requires n > 0 && k > 0
    ensures k * Choose(n, k) == n * Choose(n - 1, k - 1)
  {
    var x, y := Choose(n - 1, k - 1), Choose(n - 1, k);
    assert Choose(n, k) == x + y;
    if n == 1 {
      if k > 1 {
        ChooseOutside(1, k);
        ChooseOutside(0, k - 1);
      }
    } else {
      Absorption(n - 1, k);
      if k > 1 {
        Absorption(n - 1, k - 1);
        AbsorptionArithmetic(n, k, x, y, Choose(n - 2, k - 2), Choose(n - 2, k - 1));
      }
    }
  }

  lemma AbsorptionArithmetic(n: int, k: int, x: int, y: int, a: int, b: int)
    requires x == a + b && k * y == (n - 1) * b && (k - 1) * x == (n - 1) * a
    ensures k * (x + y) == n * x
  {
    calc {
      k * (x + y);
      (k - 1) * x + x + k * y;
      (n - 1) * a + (n - 1) * b + x;
      (n - 1) * (a + b) + x;
    }
  }

  lemma PrimeDividesChoose(p: int, k: nat)
    requires IsPrime(p) && 0 < k < p
    ensures Divides(p, Choose(p, k))
  {
    Absorption(p, k);
    PrimeDividesCofactor(p, k, Choose(p, k), Choose(p - 1, k - 1));
  }

  lemma PrimeDividesCofactor(p: int, k: int, c: int, d: int)
    requires IsPrime(p) && 0 < k < p && k * c == p * d
    ensures Divides(p, c)
  {
    assert Times(d, p) == k * c;
    DividesIffRemainderZero(p, k);
    Euclid(p, k, c);
  }

  /** Sum of the first m terms of the expansion of (x + 1)^n. */
  function BinomialSum(x: int, n: nat, m: nat): int {
    if m == 0 then 0 else BinomialSum(x, n, m - 1) + Choose(n, m - 1) * Pow(x, m - 1)
  }

  lemma {:induction false} BinomialStep(x: int, n: nat, m: nat)
    requires n > 0
    ensures BinomialSum(x, n, m + 1) == (x + 1) * BinomialSum(x, n - 1, m) + Choose(n - 1, m) * Pow(x, m)
  {
    if m == 0 {
      assert BinomialSum(x, n, 1) == Choose(n, 0) * Pow(x, 0);
    } else {
      BinomialStep(x, n, m - 1);
      BinomialArithmetic(x, BinomialSum(x, n - 1, m - 1), Choose(n - 1, m - 1), Choose(n - 1, m), Pow(x, m - 1));
    }
  }

  lemma BinomialArithmetic(x: int, s: int, c: int, d: int, q: int)
    ensures (x + 1) * s + c * q + (c + d) * (x * q) == (x + 1) * (s + c * q) + d * (x * q)
  {
    calc {
      (x + 1) * (s + c * q) + d * (x * q);
      (x + 1) * s + (x + 1) * (c * q) + d * (x * q);
      { assert (x + 1) * (c * q) == c * (x * q) + c * q; }
      (x + 1) * s + c * q + (c * (x * q) + d * (x * q));
    }
  }

  lemma {:induction false} BinomialTheorem(x: int, n: nat)
    ensures Pow(x + 1, n) == BinomialSum(x, n, n + 1)
  {
    if n == 0 {
      assert BinomialSum(x, 0, 1) == Choose(0, 0) * Pow(x, 0);
    } else {
      BinomialTheorem(x, n - 1);
      BinomialStep(x, n, n);
      ChooseOutside(n - 1, n);
      DropZeroTerm(BinomialSum(x, n, n + 1), (x + 1) * BinomialSum(x, n - 1, n), Choose(n - 1, n), Pow(x, n));
    }
  }

  lemma DropZeroTerm(total: int, head: int, c: int, q: int)
    requires total == head + c * q && c == 0
    ensures total == head
  {
  }

  /** Modulo a prime only the first of the first m terms survives. */
  lemma {:induction false} MiddleTermsVanish(p: int, x: int, m: nat)
    requires IsPrime(p) && 1 <= m <= p
    ensures Divides(p, BinomialSum(x, p, m) - 1)
  {
    if m == 1 {
      assert BinomialSum(x, p, 1) == Choose(p, 0) * Pow(x, 0);
      assert Times(0, p) == 0;
    } else {
      MiddleTermsVanish(p, x, m - 1);
      PrimeDividesChoose(p, m - 1);
      DividesLinear(p, 1, BinomialSum(x, p, m - 1) - 1, Pow(x, m - 1), Choose(p, m - 1));
    }
  }

  lemma FreshmansDream(p: int, x: int)
    requires IsPrime(p)
    ensures Divides(p, Pow(x + 1, p) - Pow(x, p) - 1)
  {
    BinomialTheorem(x, p);
    ChooseFull(p);
    MiddleTermsVanish(p, x, p);
  }

  // ---- Fermat ----

  lemma {:induction false} FermatAdditive(p: int, a: nat)
    requires IsPrime(p)
    ensures Divides(p, Pow(a, p) - a)
  {
    if a == 0 {
      assert Times(0, p) == Pow(0, p) - 0;
    } else {
      FermatAdditive(p, a - 1);
      FreshmansDream(p, a - 1);
      DividesLinear(p, 1, Pow(a, p) - Pow(a - 1, p) - 1, 1, Pow(a - 1, p) - (a - 1));
    }
  }

  /** Powers respect congruence. */
  lemma {:induction false} PowRemainder(p: int, a: int, b: int, e: nat)
    requires p > 0 && a % p == b % p
    ensures Pow(a, e) % p == Pow(b, e) % p
  {
    if e > 0 {
      PowRemainder(p, a, b, e - 1);
      SameRemainder(p, a, b);
      SameRemainder(p, Pow(a, e - 1), Pow(b, e - 1));
      var x, y := Pow(a, e - 1), Pow(b, e - 1);
      DividesLinear(p, x, a - b, b, x - y);
      assert a * x - b * y == x * (a - b) + b * (x - y);
      SameRemainder(p, Pow(a, e), Pow(b, e));
    }
  }

  /** Fermat's little theorem in the form the equality circuit uses. */
  lemma Fermat(p: int, a: int)
    requires IsPrime(p)
    ensures Pow(a, p - 1) % p == if a % p == 0 then 0 else 1
  {
    var r := a % p;
    assert r % p == r;
    PowRemainder(p, a, r, p - 1);
    if r == 0 {
      assert Pow(0, p - 1) == 0;
    } else {
      FermatReduced(p, r);
    }
  }

  lemma FermatReduced(p: int, r: int)
    requires IsPrime(p) && 0 < r < p
    ensures Pow(r, p - 1) % p == 1
  {
    FermatAdditive(p, r);
    assert Pow(r, p) == r * Pow(r, p - 1);
    CancelFactor(p, r, Pow(r, p - 1));
  }

  lemma CancelFactor(p: int, r: int, x: int)
    requires IsPrime(p) && 0 < r < p && Divides(p, r * x - r)
    ensures x % p == 1
  {
    FactorOut(r, x);
    SmallNotDivisible(p, r);
    Euclid(p, r, x - 1);
    RemainderOne(p, x);
  }

  lemma SmallNotDivisible(p: int, r: int)
    requires 0 < r < p
    ensures !Divides(p, r)
  {
    DividesIffRemainderZero(p, r);
  }

  lemma RemainderOne(p: int, x: int)
    requires p > 1 && Divides(p, x - 1)
    ensures x % p == 1
  {
    SameRemainder(p, x, 1);
  }

  lemma FactorOut(r: int, x: int)
    ensures r * (x - 1) == r * x - r
  {
  }

  /** The modulus the client configures is an odd prime. */
  lemma Prime257()
    ensures IsPrime(257)
  {
    forall d {:trigger 257 % d} | 1 < d < 257
      ensures 257 % d != 0
    {
      if d <= 16 {
        NoSmallDivisor257(d);
      } else if 257 % d == 0 {
        var q := 257 / d;
        assert d * q == 257;
        CofactorBound(d, q);
        RemainderOfMultiple(d, q);
        assert q != 1;
        NoSmallDivisor257(q);
      }
    }
  }

  lemma NoSmallDivisor257(d: int)
    requires 1 < d <= 16
    ensures 257 % d != 0
  {
  }

  lemma CofactorBound(d: int, q: int)
    requires 0 < d * q <= 257 && 16 < d
    ensures 0 < q <= 16
  {
    assert q >= 1;
    assert 17 * q <= d * q;
  }
}
