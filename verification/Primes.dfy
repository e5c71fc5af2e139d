/** Prime numbers: inverses and Fermat's theorem modulo a prime, and a criterion by which a number is one. */
module Primes {
  import opened Words
  import opened Remainders

  ghost predicate IsPrime(p: nat) {
    p >= 2 && forall d: nat :: 2 <= d < p ==> p % d != 0
  }

  // ---- inverses ----

  lemma {:induction false} InverseBelow(p: nat, a: nat) returns (u: int)
    requires IsPrime(p) && 0 < a < p
    ensures Same(p, a * u, 1)
    decreases a
  {
    if a == 1 {
      u := 1;
    } else {
      var q, r := p / a, p % a;
      var v := InverseBelow(p, r);
      u := -q * v;
      assert p == a * q + r;
      Unfold(a, q, r, v, p);
      SameBy(p, a * u, r * v, -v);
    }
  }

  lemma Unfold(a: int, q: int, r: int, v: int, p: int)
    requires p == a * q + r
    ensures a * (-q * v) == r * v + p * -v
  {
    assert p * -v == a * q * -v + r * -v;
  }

  lemma Inverse(p: nat, a: int) returns (u: int)
    requires IsPrime(p) && a % p != 0
    ensures Same(p, a * u, 1)
  {
    u := InverseBelow(p, a % p);
    SameBy(p, a, a % p, a / p);
    SameMul(p, a, a % p, u, u);
  }

  lemma NoZeroDivisors(p: nat, a: int, b: int)
    requires IsPrime(p) && Same(p, a * b, 0)
    ensures a % p == 0 || b % p == 0
  {
    if a % p != 0 {
      var u := Inverse(p, a);
      SameMul(p, a * u, 1, b, b);
      SameMul(p, a * b, 0, u, u);
      assert (a * b) * u == (a * u) * b;
    }
  }

  // ---- binomials ----

  function Binomial(n: nat, k: nat): (r: nat) {
    if k == 0 then 1 else if n == 0 then 0 else Binomial(n - 1, k - 1) + Binomial(n - 1, k)
  }

  lemma {:induction false} Absorb(n: nat, k: nat)
    requires n > 0 && k > 0
    ensures k * Binomial(n, k) == n * Binomial(n - 1, k - 1)
    decreases n
  {
    if n == 1 {
      assert Binomial(0, k) == 0;
    } else {
      var x, y, z := Binomial(n - 1, k - 1), Binomial(n - 1, k), if k == 1 then 0 else Binomial(n - 2, k - 2);
      Absorb(n - 1, k);
      if k > 1 {
        Absorb(n - 1, k - 1);
      }
      AbsorbStep(n, k, x, y, z, Binomial(n - 2, k - 1));
    }
  }

  lemma AbsorbStep(n: int, k: int, x: int, y: int, z: int, t: int)
    requires k * y == (n - 1) * t && (k - 1) * x == (n - 1) * z && x == z + t
    ensures k * (x + y) == n * x
  {
    assert k * x == x + (n - 1) * z && (n - 1) * x == (n - 1) * z + (n - 1) * t;
  }

  /** The first k terms of the expansion of (a + 1)^n. */
  function Terms(n: nat, a: int, k: nat): (r: int) {
    if k == 0 then 0 else Terms(n, a, k - 1) + Binomial(n, k - 1) * Pow(a, k - 1)
  }

  lemma {:induction false} TermsStep(n: nat, a: int, k: nat)
    requires n > 0
    ensures Terms(n, a, k + 1) == Terms(n - 1, a, k + 1) + a * Terms(n - 1, a, k)
    decreases k
  {
    if k > 0 {
      TermsStep(n, a, k - 1);
      var x, y, p := Binomial(n - 1, k - 1), Binomial(n - 1, k), Pow(a, k - 1);
      TermSplit(a, x, y, p, Terms(n - 1, a, k - 1));
    }
  }

  lemma TermSplit(a: int, x: int, y: int, p: int, t: int)
    ensures (x + y) * (a * p) == y * (a * p) + a * (t + x * p) - a * t
  {
  }

  lemma {:induction false} NoMoreTerms(n: nat, a: int)
    ensures Binomial(n, n + 1) == 0 && Terms(n, a, n + 2) == Terms(n, a, n + 1)
  {
    BeyondTop(n, n + 1);
  }

  lemma {:induction false} BeyondTop(n: nat, k: nat)
    requires n < k
    ensures Binomial(n, k) == 0
  {
    if n > 0 {
      BeyondTop(n - 1, k - 1);
      BeyondTop(n - 1, k);
    }
  }

  lemma {:induction false} Expansion(n: nat, a: int)
    ensures Pow(a + 1, n) == Terms(n, a, n + 1)
  {
    if n == 0 {
      assert Terms(0, a, 1) == Terms(0, a, 0) + Binomial(0, 0) * Pow(a, 0);
    } else {
      Expansion(n - 1, a);
      TermsStep(n, a, n);
      NoMoreTerms(n - 1, a);
      assert (a + 1) * Pow(a + 1, n - 1) == Pow(a + 1, n - 1) + a * Pow(a + 1, n - 1);
    }
  }

  lemma {:induction false} TopIsOne(n: nat)
    ensures Binomial(n, n) == 1
  {
    if n > 0 {
      TopIsOne(n - 1);
      BeyondTop(n - 1, n);
    }
  }

  /** A prime divides all its binomials but the outer ones. */
  lemma MiddleVanishes(p: nat, k: nat)
    requires IsPrime(p) && 0 < k < p
    ensures Binomial(p, k) % p == 0
  {
    Absorb(p, k);
    Divides(p, k, Binomial(p, k), Binomial(p - 1, k - 1));
  }

  lemma Divides(p: nat, k: nat, x: nat, y: int)
    requires IsPrime(p) && 0 < k < p && k * x == p * y
    ensures x % p == 0
  {
    SameBy(p, k * x, 0, y);
    NoZeroDivisors(p, k, x);
    QuotRem(k, p, 0, k);
  }

  lemma {:induction false} TermsVanish(p: nat, a: int, k: nat)
    requires IsPrime(p) && 1 <= k <= p
    ensures Same(p, Terms(p, a, k), 1)
    decreases k
  {
    if k == 1 {
      assert Terms(p, a, 1) == Terms(p, a, 0) + Binomial(p, 0) * Pow(a, 0);
    } else {
      TermsVanish(p, a, k - 1);
      MiddleVanishes(p, k - 1);
      SameMul(p, Binomial(p, k - 1), 0, Pow(a, k - 1), Pow(a, k - 1));
      SameAdd(p, Terms(p, a, k - 1), 1, Binomial(p, k - 1) * Pow(a, k - 1), 0);
    }
  }

  // ---- Fermat's theorem ----

  lemma {:induction false} FermatUp(p: nat, a: nat)
    requires IsPrime(p)
    ensures Same(p, Pow(a, p), a)
    decreases a
  {
    if a == 0 {
      assert Pow(0, p) == 0 * Pow(0, p - 1);
    } else {
      var b := a - 1;
      FermatUp(p, b);
      Expansion(p, b);
      TermsVanish(p, b, p);
      TopIsOne(p);
      SameAdd(p, Terms(p, b, p), 1, Pow(b, p), b);
    }
  }

  /** Fermat's theorem. */
  lemma Fermat(p: nat, a: int)
    requires IsPrime(p) && a % p != 0
    ensures Same(p, Pow(a, p - 1), 1)
  {
    var b, n := a % p, Pow(a, p - 1);
    SameBy(p, a, b, a / p);
    FermatUp(p, b);
    SamePow(p, a, b, p);
    var u := Inverse(p, a);
    SameMul(p, a * n, a, u, u);
    SameMul(p, a * u, 1, n, n);
    assert (a * n) * u == (a * u) * n;
  }

  // ---- a criterion ----

  lemma {:induction false} LeastDivisor(n: nat, d: nat) returns (r: nat)
    requires 2 <= d <= n && forall c: nat :: 2 <= c < d ==> n % c != 0
    ensures IsPrime(r) && n % r == 0 && r <= n
    decreases n - d
  {
    if n % d == 0 {
      r := d;
      forall c: nat | 2 <= c < d ensures d % c != 0 {
        if d % c == 0 {
          DividesOn(c, d, n);
        }
      }
    } else {
      assert d != n;
      r := LeastDivisor(n, d + 1);
    }
  }

  lemma DividesOn(c: nat, d: nat, n: nat)
    requires c > 0 && d > 0 && d % c == 0 && n % d == 0
    ensures n % c == 0
  {
    assert d == c * (d / c) && n == d * (n / d);
    assert n == c * (d / c * (n / d));
    QuotRem(n, c, d / c * (n / d), 0);
  }

  /** If b^q is 1 modulo r and b is not, q divides r - 1. */
  lemma OrderDivides(r: nat, q: nat, b: int)
    requires IsPrime(r) && IsPrime(q) && Same(r, Pow(b, q), 1) && !Same(r, b, 1)
    ensures (r - 1) % q == 0
  {
    if (r - 1) % q != 0 {
      var u, v := Exponents(r, q);
      NotZero(r, q, b);
      Fermat(r, b);
      SamePow(r, Pow(b, r - 1), 1, u);
      SamePow(r, Pow(b, q), 1, v);
      PowOfOne(u);
      PowOfOne(v);
      PowTimes(b, r - 1, u);
      PowTimes(b, q, v);
      assert Pow(b, 1 + q * v) == b * Pow(b, q * v);
      SameMul(r, b, b, Pow(b, q * v), 1);
    }
  }

  lemma Exponents(r: nat, q: nat) returns (u: nat, v: nat)
    requires IsPrime(q) && r >= 1 && (r - 1) % q != 0
    ensures (r - 1) * u == 1 + q * v
  {
    var w := Inverse(q, r - 1);
    u := w % q;
    SameBy(q, w, u, w / q);
    SameMul(q, r - 1, r - 1, w, u);
    var k := SameGap(q, (r - 1) * u, 1);
    assert (r - 1) * u >= 0;
    NotNegative(q, k);
    v := k;
  }

  lemma NotZero(r: nat, q: nat, b: int)
    requires r >= 2 && q > 0 && Same(r, Pow(b, q), 1)
    ensures b % r != 0
  {
    if b % r == 0 {
      SameMul(r, b, 0, Pow(b, q - 1), Pow(b, q - 1));
      QuotRem(1, r, 0, 1);
    }
  }

  /** What two factors of a number leave, each 1 modulo f, is not more than one above the quotient. */
  lemma NoFactors(f: nat, t: nat, u: nat, v: nat, w: nat, s: nat)
    requires u >= 1 && v >= 1 && t == f * (u * v) + (u + v) && t == f * w + s && s < f
    ensures s <= w + 1
  {
    SumBelowProduct(u, v);
    SmallRest(f, u * v, u + v, w, s);
  }

  lemma SumBelowProduct(u: nat, v: nat)
    requires u >= 1 && v >= 1
    ensures u + v <= u * v + 1
  {
    assert u * v + 1 - (u + v) == (u - 1) * (v - 1);
  }

  lemma SmallRest(f: nat, x: nat, m: nat, w: nat, s: nat)
    requires m <= x + 1 && f * x + m == f * w + s && s < f
    ensures s <= w + 1
  {
    if w >= x {
      MulBelow(f, x, f, w);
    } else {
      MulBelow(f, w + 1, f, x);
    }
  }

  /** r is 1 modulo 2q. */
  lemma OneModulo(r: nat, q: nat) returns (u: nat)
    requires r >= 1 && q % 2 == 1 && r % 2 == 1 && (r - 1) % q == 0
    ensures r == 2 * q * u + 1
  {
    var k := (r - 1) / q;
    assert r - 1 == q * k;
    if k % 2 == 1 {
      OddTimesOdd(q, k);
    }
    u := k / 2;
    assert k == 2 * u;
    assert q * (2 * u) == 2 * q * u;
  }

  lemma OddTimesOdd(a: nat, b: nat)
    requires a % 2 == 1 && b % 2 == 1
    ensures (a * b) % 2 == 1
  {
    SameMul(2, a, 1, b, 1);
  }

  lemma Cofactor(n: nat, r: nat, s: nat, f: nat, t: nat, u: nat) returns (v: nat)
    requires n == r * s && r == f * u + 1 && n == f * t + 1 && s >= 1 && f > 0
    ensures s == f * v + 1
  {
    assert r * s == f * (u * s) + s;
    assert s - 1 == f * (t - u * s);
    NotNegative(f, t - u * s);
    v := t - u * s;
  }

  lemma Product2(n: nat, f: nat, t: nat, u: nat, v: nat)
    requires n == (f * u + 1) * (f * v + 1) && n == f * t + 1 && f > 0
    ensures t == f * (u * v) + (u + v)
  {
    assert (f * u + 1) * (f * v + 1) == f * (f * (u * v) + (u + v)) + 1;
    assert f * t == f * (f * (u * v) + (u + v));
    Cancel(f, t, f * (u * v) + (u + v));
  }

  lemma Cancel(f: nat, x: int, y: int)
    requires f > 0 && f * x == f * y
    ensures x == y
  {
    assert f * (x - y) == 0 && f * (y - x) == 0;
    NotNegative(f, x - y);
    NotNegative(f, y - x);
  }

  lemma NotNegative(f: nat, x: int)
    requires f > 0 && f * x > 0 - f
    ensures x >= 0
  {
  }

  /**
   * A number n is prime if some q is whose double divides n - 1, and a power of a is 1 with the exponent n - 1 and far from 1
   * with the exponent (n - 1)/q: then 2q divides each factor of n less one, which leaves no room for two factors.
   */
  lemma Certified(n: nat, q: nat, f: nat, t: nat, w: nat, s: nat, e: nat, m: nat, a: int, i: int)
    requires IsPrime(q) && q % 2 == 1 && f == 2 * q && n == f * t + 1 && n % 2 == 1 && n > 2 && m == n - 1 && m == e * q
    requires Same(n, Pow(a, m), 1) && Same(n, (Pow(a, e) - 1) * i, 1) && t == f * w + s && w + 1 < s < f
    ensures IsPrime(n)
  {
    var r := LeastDivisor(n, 2);
    FactorOne(n, q, e, m, a, i, r);
    if r != n {
      TwoFactors(n, q, f, t, w, s, r, n / r);
    }
  }

  lemma TwoFactors(n: nat, q: nat, f: nat, t: nat, w: nat, s: nat, r: nat, c: nat)
    requires q % 2 == 1 && f == 2 * q && f > 0 && n == f * t + 1 && n == r * c && 1 < r < n && (r - 1) % q == 0 && r % 2 == 1
    requires t == f * w + s && s < f
    ensures s <= w + 1
  {
    var u := OneModulo(r, q);
    assert c != 0 && c != 1;
    var v := Cofactor(n, r, c, f, t, u);
    Positive(f, u);
    Positive(f, v);
    Product2(n, f, t, u, v);
    NoFactors(f, t, u, v, w, s);
  }

  lemma Positive(f: nat, u: nat)
    requires f * u + 1 > 1
    ensures u >= 1
  {
  }

  lemma FactorOne(n: nat, q: nat, e: nat, m: nat, a: int, i: int, r: nat)
    requires IsPrime(q) && n % 2 == 1 && m == e * q && IsPrime(r) && n % r == 0
    requires Same(n, Pow(a, m), 1) && Same(n, (Pow(a, e) - 1) * i, 1)
    ensures (r - 1) % q == 0 && r % 2 == 1
  {
    var b := Pow(a, e);
    PowTimes(a, e, q);
    SameBelow(n, r, Pow(b, q), 1);
    SameBelow(n, r, (b - 1) * i, 1);
    NotOne(r, b, i);
    OrderDivides(r, q, b);
    OddDivisor(n, r);
  }

  lemma NotOne(r: nat, b: int, i: int)
    requires r >= 2 && Same(r, (b - 1) * i, 1)
    ensures !Same(r, b, 1)
  {
    if Same(r, b, 1) {
      SameAdd(r, b, 1, 1, 1);
      SameMul(r, b - 1, 0, i, i);
      QuotRem(1, r, 0, 1);
    }
  }

  lemma OddDivisor(n: nat, r: nat)
    requires n % 2 == 1 && r > 0 && n % r == 0
    ensures r % 2 == 1
  {
    assert n == r * (n / r);
    if r % 2 == 0 {
      SameMul(2, r, 0, n / r, n / r);
    }
  }
}
