/** Sums and doubles of points of the curve are points of the curve: what the formulas return satisfies its equation. */
module CurveClosure {
  import opened Field
  import opened Points

  /** The equation of the curve in extended coordinates. */
  ghost predicate OnExtended(e: Quad) {
    Congruent(e.y * e.y - e.x * e.x, e.z * e.z + D * (e.t * e.t))
  }

  // ---- polynomials ----

  lemma DifferenceOfSquares(x1: int, y1: int, x2: int, y2: int)
    ensures var e, h := x1 * y2 + y1 * x2, y1 * y2 + x1 * x2;
      h * h - e * e == (y1 * y1 - x1 * x1) * (y2 * y2 - x2 * x2)
  {
  }

  lemma SumOfSquares(x1: int, y1: int, x2: int, y2: int)
    ensures var e, h := x1 * y2 + y1 * x2, y1 * y2 + x1 * x2;
      h * h + e * e == (y1 * y1 + x1 * x1) * (y2 * y2 + x2 * x2) + 4 * ((x1 * y1) * (x2 * y2))
  {
  }

  lemma CrossProduct(x1: int, y1: int, x2: int, y2: int)
    ensures var e, h := x1 * y2 + y1 * x2, y1 * y2 + x1 * x2;
      e * h == (x1 * y1) * (y2 * y2 + x2 * x2) + (x2 * y2) * (y1 * y1 + x1 * x1)
  {
  }

  lemma SquareOfSum(x: int, y: int)
    ensures var s, m, q := y * y + x * x, y * y - x * x, x * y; s * s == m * m + 4 * (q * q)
  {
  }

  /** What is to vanish, in terms of the four factors of a sum. */
  function Rest(e: int, f: int, g: int, h: int): int {
    (g * h) * (g * h) - (e * f) * (e * f) - (f * g) * (f * g) - D * ((e * h) * (e * h))
  }

  lemma RestSplit(e: int, h: int, z: int, c: int)
    ensures Rest(e, z - c, z + c, h) ==
      (z * z + c * c) * (h * h - e * e) + 2 * ((z * c) * (h * h + e * e)) - (z * z - c * c) * (z * z - c * c) - D * ((e * h) * (e * h))
  {
  }

  lemma CrossSquare(q1: int, q2: int, s1: int, s2: int, m1: int, m2: int)
    requires s1 * s1 == m1 * m1 + 4 * (q1 * q1) && s2 * s2 == m2 * m2 + 4 * (q2 * q2)
    ensures var u := q1 * s2 + q2 * s1;
      u * u == (q1 * q1) * (m2 * m2) + (q2 * q2) * (m1 * m1) + 8 * ((q1 * q2) * (q1 * q2)) + 2 * ((q1 * q2) * (s1 * s2))
  {
    var u := q1 * s2 + q2 * s1;
    assert u * u == (q1 * q1) * (s2 * s2) + (q2 * q2) * (s1 * s1) + 2 * ((q1 * q2) * (s1 * s2));
    assert (q1 * q1) * (s2 * s2) == (q1 * q1) * (m2 * m2) + 4 * ((q1 * q1) * (q2 * q2));
    assert (q2 * q2) * (s1 * s1) == (q2 * q2) * (m1 * m1) + 4 * ((q1 * q1) * (q2 * q2));
    assert (q1 * q1) * (q2 * q2) == (q1 * q2) * (q1 * q2);
  }

  /** What is left of it when the curve's equations are used. */
  function Core(z: int, c: int, m1: int, m2: int, q1: int, q2: int): int {
    (z * z + c * c) * (m1 * m2) - (z * z - c * c) * (z * z - c * c) - D * ((q1 * q1) * (m2 * m2) + (q2 * q2) * (m1 * m1))
  }

  lemma Collect(z: int, c: int, m: int, q: int, w: int, k: int, n: int)
    ensures (z * z + c * c) * m + 2 * ((z * c) * (w + 4 * q)) - k - D * (n + 8 * (q * q) + 2 * (q * w)) ==
      (z * z + c * c) * m - k - D * n + (2 * w + 8 * q) * (z * c - D * q)
  {
    assert (2 * w + 8 * q) * (z * c - D * q) == 2 * ((z * c) * w) + 8 * ((z * c) * q) - D * (2 * (q * w)) - D * (8 * (q * q));
    assert 2 * ((z * c) * (w + 4 * q)) == 2 * ((z * c) * w) + 8 * ((z * c) * q);
  }

  lemma RestIs(x1: int, y1: int, x2: int, y2: int, z: int, c: int)
    ensures var s1, s2, m1, m2 := y1 * y1 + x1 * x1, y2 * y2 + x2 * x2, y1 * y1 - x1 * x1, y2 * y2 - x2 * x2;
      var q1, q2 := x1 * y1, x2 * y2;
      Rest(x1 * y2 + y1 * x2, z - c, z + c, y1 * y2 + x1 * x2) ==
      Core(z, c, m1, m2, q1, q2) + (2 * (s1 * s2) + 8 * (q1 * q2)) * (z * c - D * (q1 * q2))
  {
    var s1, s2, m1, m2 := y1 * y1 + x1 * x1, y2 * y2 + x2 * x2, y1 * y1 - x1 * x1, y2 * y2 - x2 * x2;
    var q1, q2, e, h := x1 * y1, x2 * y2, x1 * y2 + y1 * x2, y1 * y2 + x1 * x2;
    RestSplit(e, h, z, c);
    DifferenceOfSquares(x1, y1, x2, y2);
    SumOfSquares(x1, y1, x2, y2);
    CrossProduct(x1, y1, x2, y2);
    SquareOfSum(x1, y1);
    SquareOfSum(x2, y2);
    CrossSquare(q1, q2, s1, s2, m1, m2);
    Collect(z, c, m1 * m2, q1 * q2, s1 * s2, (z * z - c * c) * (z * z - c * c), (q1 * q1) * (m2 * m2) + (q2 * q2) * (m1 * m1));
  }

  lemma Vanishes(a1: int, b1: int, a2: int, b2: int)
    ensures var m1, m2, z, c := a1 + D * b1, a2 + D * b2, a1 * a2, (D * D) * (b1 * b2);
      (z + c) * (m1 * m2) == (z - c) * (z - c) + D * ((a1 * b1) * (m2 * m2) + (a2 * b2) * (m1 * m1))
  {
  }

  lemma CoreVanishes(z1: int, t1: int, z2: int, t2: int)
    ensures Core(z1 * z2, D * (t1 * t2), z1 * z1 + D * (t1 * t1), z2 * z2 + D * (t2 * t2), z1 * t1, z2 * t2) == 0
  {
    Squared(z1, z2);
    Squared(t1, t2);
    Squared(z1, t1);
    Squared(z2, t2);
    Squared(D, t1 * t2);
    Vanishes(z1 * z1, t1 * t1, z2 * z2, t2 * t2);
  }

  lemma Squared(a: int, b: int)
    ensures (a * b) * (a * b) == (a * a) * (b * b)
  {
  }

  // ---- modulo p ----

  lemma Itself(x: int)
    ensures Congruent(x, x)
  {
    CongruentBy(x, x, 0);
  }

  lemma SquareCongruent(a: int, b: int)
    requires Congruent(a, b)
    ensures Congruent(a * a, b * b)
  {
    CongruentMul(a, b, a, b);
  }

  lemma SidesCongruent(q: int, q': int, m: int, m': int)
    requires Congruent(q, q') && Congruent(m, m')
    ensures Congruent((q * q) * (m * m), (q' * q') * (m' * m'))
  {
    SquareCongruent(q, q');
    SquareCongruent(m, m');
    CongruentMul(q * q, q' * q', m * m, m' * m');
  }

  lemma TimesBoth(a: int, x: int, y: int)
    requires Congruent(x, y)
    ensures Congruent(a * x, a * y)
  {
    Itself(a);
    CongruentMul(a, a, x, y);
  }

  lemma CoreCongruent(z: int, c: int, m1: int, m2: int, q1: int, q2: int, n1: int, n2: int, p1: int, p2: int)
    requires Congruent(m1, n1) && Congruent(m2, n2) && Congruent(q1, p1) && Congruent(q2, p2)
    ensures Congruent(Core(z, c, m1, m2, q1, q2), Core(z, c, n1, n2, p1, p2))
  {
    var a, k := z * z + c * c, (z * z - c * c) * (z * z - c * c);
    var u, v := (q1 * q1) * (m2 * m2) + (q2 * q2) * (m1 * m1), (p1 * p1) * (n2 * n2) + (p2 * p2) * (n1 * n1);
    SidesCongruent(q1, p1, m2, n2);
    SidesCongruent(q2, p2, m1, n1);
    CongruentAdd((q1 * q1) * (m2 * m2), (p1 * p1) * (n2 * n2), (q2 * q2) * (m1 * m1), (p2 * p2) * (n1 * n1));
    TimesBoth(D, u, v);
    CongruentMul(m1, n1, m2, n2);
    TimesBoth(a, m1 * m2, n1 * n2);
    Itself(k);
    CongruentAdd(a * (m1 * m2), a * (n1 * n2), k, k);
    CongruentAdd(a * (m1 * m2) - k, a * (n1 * n2) - k, D * u, D * v);
  }

  lemma Transitively(x: int, y: int, z: int)
    requires Congruent(x, y) && Congruent(y, z)
    ensures Congruent(x, z)
  {
    CongruentTurn(x, y);
    CongruentSame(y, x, z);
  }

  /** z1 z2 times d t1 t2 is d times x1 y1 x2 y2. */
  lemma ProductsMeet(e: Quad, f: Quad)
    requires Extended(e) && Extended(f)
    ensures Congruent((e.z * f.z) * (D * (e.t * f.t)) - D * ((e.x * e.y) * (f.x * f.y)), 0)
  {
    var u, v := (e.t * e.z) * (f.t * f.z), (e.x * e.y) * (f.x * f.y);
    CongruentMul(e.t * e.z, e.x * e.y, f.t * f.z, f.x * f.y);
    TimesBoth(D, u, v);
    Itself(D * v);
    CongruentAdd(D * u, D * v, D * v, D * v);
    Shuffle(e.t, f.t, e.z, f.z);
    Moved(e.z * f.z, e.t * f.t);
    CongruentTo(D * u - D * v, 0, (e.z * f.z) * (D * (e.t * f.t)) - D * v, 0);
  }

  lemma Moved(a: int, b: int)
    ensures a * (D * b) == D * (b * a)
  {
  }

  lemma RestVanishes(e: Quad, f: Quad)
    requires Extended(e) && Extended(f) && OnExtended(e) && OnExtended(f)
    ensures var z, c := e.z * f.z, D * (e.t * f.t);
      Congruent(Rest(e.x * f.y + e.y * f.x, z - c, z + c, e.y * f.y + e.x * f.x), 0)
  {
    var z, c, m1, m2 := e.z * f.z, D * (e.t * f.t), e.y * e.y - e.x * e.x, f.y * f.y - f.x * f.x;
    var q1, q2, s := e.x * e.y, f.x * f.y, (e.y * e.y + e.x * e.x) * (f.y * f.y + f.x * f.x);
    var k, w := 2 * s + 8 * (q1 * q2), z * c - D * (q1 * q2);
    RestIs(e.x, e.y, f.x, f.y, z, c);
    ProductsMeet(e, f);
    TimesBoth(k, w, 0);
    CongruentTurn(e.t * e.z, q1);
    CongruentTurn(f.t * f.z, q2);
    CoreCongruent(z, c, m1, m2, q1, q2, e.z * e.z + D * (e.t * e.t), f.z * f.z + D * (f.t * f.t), e.t * e.z, f.t * f.z);
    CoreVanishes(e.z, e.t, f.z, f.t);
    assert e.t * e.z == e.z * e.t && f.t * f.z == f.z * f.t;
    CongruentAdd(Core(z, c, m1, m2, q1, q2), 0, k * w, k * 0);
  }

  lemma Sixteenfold(e: int, f: int, g: int, h: int)
    ensures var x, y, z, t := (2 * e) * (2 * f), (2 * h) * (2 * g), (2 * g) * (2 * f), (2 * e) * (2 * h);
      y * y - x * x == z * z + D * (t * t) + 16 * Rest(e, f, g, h)
  {
  }

  /** The sum of two points of the curve is one. */
  lemma SumOnCurve(e: Quad, f: Quad)
    requires Extended(e) && Extended(f) && OnExtended(e) && OnExtended(f)
    ensures Extended(Full(SumOf(e, f))) && OnExtended(Full(SumOf(e, f)))
  {
    var z, c := e.z * f.z, D * (e.t * f.t);
    var u, h, r := e.x * f.y + e.y * f.x, e.y * f.y + e.x * f.x, Full(SumOf(e, f));
    RestVanishes(e, f);
    TimesBoth(16, Rest(u, z - c, z + c, h), 0);
    Sixteenfold(u, z - c, z + c, h);
    var s := r.z * r.z + D * (r.t * r.t);
    Itself(s);
    CongruentAdd(s, s, 16 * Rest(u, z - c, z + c, h), 16 * 0);
    FullExtended(SumOf(e, f));
  }

  /** What is to vanish for a double. */
  function DoubleRest(m: int, f: int, n: int): int {
    (m * m) * (m * m + 4 * n) - (4 * n) * (f * f) - (m * m) * (f * f) - D * ((4 * n) * (m * m + 4 * n))
  }

  lemma DoubleRestVanishes(a: int, b: int)
    ensures DoubleRest(a + D * b, a - D * b, a * b) == 0
  {
    var n, g, f := a * b, a + D * b, a - D * b;
    assert g * g - f * f == 4 * (D * n);
    assert (g * g) * (g * g + 4 * n) - (4 * n) * (f * f) == (g * g) * (g * g) + (4 * n) * (g * g - f * f);
    assert (g * g) * (f * f) + D * ((4 * n) * (g * g + 4 * n)) == (g * g) * (f * f + 4 * (D * n)) + (4 * n) * (4 * (D * n));
  }

  lemma DoubleRestCongruent(m: int, f: int, n: int, m': int, f': int, n': int)
    requires Congruent(m, m') && Congruent(f, f') && Congruent(n, n')
    ensures Congruent(DoubleRest(m, f, n), DoubleRest(m', f', n'))
  {
    var a, a', b, b', k, k' := m * m, m' * m', f * f, f' * f', m * m + 4 * n, m' * m' + 4 * n';
    SquareCongruent(m, m');
    SquareCongruent(f, f');
    TimesBoth(4, n, n');
    CongruentAdd(a, a', 4 * n, 4 * n');
    CongruentMul(a, a', k, k');
    CongruentMul(4 * n, 4 * n', b, b');
    CongruentMul(a, a', b, b');
    CongruentMul(4 * n, 4 * n', k, k');
    TimesBoth(D, (4 * n) * k, (4 * n') * k');
    CongruentAdd(a * k, a' * k', (4 * n) * b, (4 * n') * b');
    CongruentAdd(a * k - (4 * n) * b, a' * k' - (4 * n') * b', a * b, a' * b');
    CongruentAdd(a * k - (4 * n) * b - a * b, a' * k' - (4 * n') * b' - a' * b', D * ((4 * n) * k), D * ((4 * n') * k'));
  }

  lemma DoubleOut(x: int, y: int, f: int)
    ensures var q, m, h := x * y, y * y - x * x, y * y + x * x;
      var X, Y, Z, T := (2 * q) * f, h * m, m * f, (2 * q) * h;
      Y * Y - X * X == Z * Z + D * (T * T) + DoubleRest(m, f, q * q)
  {
    var q, m, h := x * y, y * y - x * x, y * y + x * x;
    SquareOfSum(x, y);
    Squared(h, m);
    Squared(2 * q, f);
    Squared(m, f);
    Squared(2 * q, h);
    assert (2 * q) * (2 * q) == 4 * (q * q);
  }

  /** The double of a point of the curve is one. */
  lemma DoubleOnCurve(e: Quad)
    requires Extended(e) && OnExtended(e)
    ensures Extended(Full(DoubleOf(e))) && OnExtended(Full(DoubleOf(e)))
  {
    var a, b, q, m, r := e.z * e.z, e.t * e.t, e.x * e.y, e.y * e.y - e.x * e.x, Full(DoubleOf(e));
    var f, g, n := 2 * a - m, a + D * b, e.t * e.z;
    Itself(2 * a);
    CongruentAdd(2 * a, 2 * a, m, g);
    CongruentTurn(n, q);
    SquareCongruent(q, n);
    Squared(e.t, e.z);
    DoubleRestCongruent(m, f, q * q, g, 2 * a - g, n * n);
    DoubleRestVanishes(a, b);
    assert n * n == a * b && 2 * a - g == a - D * b;
    DoubleOut(e.x, e.y, f);
    var s := r.z * r.z + D * (r.t * r.t);
    Itself(s);
    CongruentAdd(s, s, DoubleRest(m, f, q * q), 0);
    FullExtended(DoubleOf(e));
  }

  // ---- the two forms of the equation ----

  /** The equation in extended coordinates is the one for x/z and y/z, times z^2. */
  lemma ExtendedIsOnCurve(e: Quad)
    requires Extended(e) && OnExtended(e)
    ensures OnCurve(e)
  {
    var a, b, q, m := e.z * e.z, e.t * e.t, e.x * e.y, e.y * e.y - e.x * e.x;
    TimesBoth(a, m, a + D * b);
    SquareCongruent(e.t * e.z, q);
    Squared(e.t, e.z);
    TimesBoth(D, b * a, q * q);
    Itself(a * a);
    CongruentAdd(a * a, a * a, D * (b * a), D * (q * q));
    assert a * (a + D * b) == a * a + D * (b * a);
    Transitively(a * m, a * a + D * (b * a), a * a + D * (q * q));
    assert m * a == a * m;
  }

  /** Where z can be divided by, they are the same. */
  lemma OnCurveIsExtended(e: Quad, i: int)
    requires Extended(e) && OnCurve(e) && Congruent(e.z * i, 1)
    ensures OnExtended(e)
  {
    var a, b, q, m, k := e.z * e.z, e.t * e.t, e.x * e.y, e.y * e.y - e.x * e.x, i * i;
    SquareCongruent(e.t * e.z, q);
    Squared(e.t, e.z);
    CongruentTurn(b * a, q * q);
    TimesBoth(D, q * q, b * a);
    Itself(a * a);
    CongruentAdd(a * a, a * a, D * (q * q), D * (b * a));
    Transitively(m * a, a * a + D * (q * q), a * a + D * (b * a));
    SquareCongruent(e.z * i, 1);
    Squared(e.z, i);
    Cancelled(a, k, m, a + D * b);
  }

  lemma Cancelled(a: int, k: int, x: int, y: int)
    requires Congruent(a * k, 1) && Congruent(x * a, a * y)
    ensures Congruent(x, y)
  {
    TimesBoth(k, x * a, a * y);
    TimesBoth(x, a * k, 1);
    TimesBoth(y, a * k, 1);
    assert k * (x * a) == x * (a * k) && k * (a * y) == y * (a * k);
    CongruentSame(x * (a * k), x * 1, y * (a * k));
    Transitively(x, y * (a * k), y * 1);
  }

  // Without dividing by z the equation for x/z and y/z can hold of what is no point, and the sum of two such need not keep it.
  lemma ZeroDenominator()
    ensures var e := Quad(0, 1, 0, 1); Extended(e) && OnCurve(e) && !OnExtended(e) && !OnCurve(Full(SumOf(e, e)))
  {
    var e := Quad(0, 1, 0, 1);
    Itself(0);
    CongruentIff(1, D);
    var r := Full(SumOf(e, e));
    assert r == Quad(0, 4 * D, -4 * D * D, 0);
    CongruentIff((r.y * r.y) * (r.z * r.z), (r.z * r.z) * (r.z * r.z));
  }
}
