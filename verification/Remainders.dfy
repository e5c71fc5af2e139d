/** Powers of integers, and what they leave modulo a number. */
module Remainders {
  import opened Words

  function Pow(x: int, n: nat): int {
    if n == 0 then 1 else x * Pow(x, n - 1)
  }

  lemma {:induction false} PowAdd(x: int, m: nat, n: nat)
    ensures Pow(x, m + n) == Pow(x, m) * Pow(x, n)
  {
    if m > 0 {
      PowAdd(x, m - 1, n);
      Regroup(x, Pow(x, m - 1), Pow(x, n));
    }
  }

  lemma Regroup(x: int, y: int, z: int)
    ensures x * (y * z) == (x * y) * z
  {
  }

  lemma {:induction false} PowTimes(x: int, m: nat, n: nat)
    ensures Pow(x, m * n) == Pow(Pow(x, m), n)
  {
    if n > 0 {
      PowTimes(x, m, n - 1);
      PowAdd(x, m, m * (n - 1));
      assert m * n == m + m * (n - 1);
    }
  }

  /** a and b leave the same remainder. */
  ghost predicate Same(m: nat, a: int, b: int) {
    m > 0 && a % m == b % m
  }

  lemma SameBy(m: nat, a: int, b: int, k: int)
    requires m > 0 && a == b + m * k
    ensures Same(m, a, b)
  {
    assert a == m * (b / m + k) + b % m;
    QuotRem(a, m, b / m + k, b % m);
  }

  lemma SameGap(m: nat, a: int, b: int) returns (k: int)
    requires Same(m, a, b)
    ensures a == b + m * k
  {
    k := a / m - b / m;
    assert a == m * (a / m) + a % m && b == m * (b / m) + b % m;
    assert m * k == m * (a / m) - m * (b / m);
  }

  lemma SameAdd(m: nat, a: int, b: int, c: int, d: int)
    requires Same(m, a, b) && Same(m, c, d)
    ensures Same(m, a + c, b + d) && Same(m, a - c, b - d)
  {
    var k := SameGap(m, a, b);
    var l := SameGap(m, c, d);
    assert m * (k + l) == m * k + m * l && m * (k - l) == m * k - m * l;
    SameBy(m, a + c, b + d, k + l);
    SameBy(m, a - c, b - d, k - l);
  }

  lemma SameMul(m: nat, a: int, b: int, c: int, d: int)
    requires Same(m, a, b) && Same(m, c, d)
    ensures Same(m, a * c, b * d)
  {
    var k := SameGap(m, a, b);
    var l := SameGap(m, c, d);
    MultipliedOut(b, d, m, k, l);
    SameBy(m, a * c, b * d, k * d + b * l + m * (k * l));
  }

  lemma MultipliedOut(b: int, d: int, m: int, k: int, l: int)
    ensures (b + m * k) * (d + m * l) == b * d + m * (k * d + b * l + m * (k * l))
  {
  }

  lemma {:induction false} SamePow(m: nat, a: int, b: int, n: nat)
    requires Same(m, a, b)
    ensures Same(m, Pow(a, n), Pow(b, n))
  {
    if n > 0 {
      SamePow(m, a, b, n - 1);
      SameMul(m, a, b, Pow(a, n - 1), Pow(b, n - 1));
    }
  }

  lemma {:induction false} PowOfOne(n: nat)
    ensures Pow(1, n) == 1
  {
    if n > 0 {
      PowOfOne(n - 1);
    }
  }

  /** What is the same modulo m is so modulo its divisors. */
  lemma SameBelow(m: nat, d: nat, a: int, b: int)
    requires Same(m, a, b) && d > 0 && m % d == 0
    ensures Same(d, a, b)
  {
    var k := SameGap(m, a, b);
    assert m == d * (m / d);
    assert m * k == d * (m / d * k);
    SameBy(d, a, b, m / d * k);
  }
}
