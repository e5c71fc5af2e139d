/**
 * What packing and unpacking of points come to, 2^255 - 19 being prime: z^(p - 2) is the inverse of z, an encoding is accepted
 * exactly if the curve has a point with its y, and unpacking what was packed gives the negative of the point.
 */
module Decoding {
  import opened Words
  import opened ScalarBytes
  import opened Field
  import opened FieldBytes
  import opened Residues
  import opened Remainders
  import opened FieldLaws
  import opened Points
  import opened CurveClosure
  import opened Packing
  import opened Inversion

  // ---- square roots ----

  /** Two numbers with the same square are the same or opposite. */
  lemma SameSquares(a: int, b: int)
    requires Congruent(a * a, b * b)
    ensures Congruent(a, b) || Congruent(a, -b)
  {
    Itself(b * b);
    CongruentAdd(a * a, b * b, b * b, b * b);
    assert (a - b) * (a + b) == a * a - b * b;
    NoDivisors(a - b, a + b);
    DifferenceZero(a, b);
    DifferenceZero(a, -b);
  }

  lemma {:induction false} PowOfProduct(x: int, y: int, n: nat)
    ensures Pow(x * y, n) == Pow(x, n) * Pow(y, n)
  {
    if n > 0 {
      PowOfProduct(x, y, n - 1);
      Exchange(x, y, Pow(x, n - 1), Pow(y, n - 1));
    }
  }

  lemma Exchange(x: int, y: int, a: int, b: int)
    ensures (x * y) * (a * b) == (x * a) * (y * b)
  {
    Shuffle(x, a, y, b);
    Shuffle(x, y, a, b);
    assert (x * y) * (a * b) == (x * b) * (y * a) && (x * a) * (y * b) == (x * b) * (a * y);
  }

  lemma EighthPower(m: int)
    ensures var m3 := (m * m) * m; (m3 * m3 * m) * m == Pow(m, 8) && m3 * m == Pow(m, 4)
  {
    assert Pow(m, 1) == m && Pow(m, 2) == m * m;
    PowAdd(m, 2, 2);
    PowAdd(m, 4, 4);
    var q := m * m;
    assert ((q * m) * m) == q * q;
    assert (((q * m) * (q * m)) * m) * m == (q * q) * (q * q);
  }

  /** The base of the power: n m^7 is m^8 v^2. */
  lemma Base(v: int, n: int, m: int)
    requires Congruent(n, m * (v * v))
    ensures var m3 := (m * m) * m; Congruent((m3 * m3 * m) * n, Pow(m, 8) * (v * v))
  {
    var m3 := (m * m) * m;
    var m7 := m3 * m3 * m;
    EighthPower(m);
    TimesBoth(m7, n, m * (v * v));
    assert m7 * (m * (v * v)) == (m7 * m) * (v * v);
  }

  lemma PowerOfBase(v: int, m: int, k: nat)
    ensures Pow(Pow(m, 8) * (v * v), k) == Pow(m, 8 * k) * Pow(v, 2 * k)
  {
    PowOfProduct(Pow(m, 8), v * v, k);
    PowTimes(m, 8, k);
    PowTimes(v, 2, k);
    assert Pow(v, 1) == v && Pow(v, 2) == v * v;
  }

  lemma BasePower(v: int, n: int, m: int, k: nat)
    requires Congruent(n, m * (v * v))
    ensures var m3 := (m * m) * m; Congruent(Pow((m3 * m3 * m) * n, k), Pow(m, 8 * k) * Pow(v, 2 * k))
  {
    var m3 := (m * m) * m;
    Base(v, n, m);
    PowCongruent((m3 * m3 * m) * n, Pow(m, 8) * (v * v), k);
    PowerOfBase(v, m, k);
  }

  lemma Collapse(w: int, x: int, y: int, a: int, n: int, m: int, v: int)
    requires Congruent(w, x * y) && Congruent(n, m * (v * v)) && Congruent(x * (a * m), 1)
    ensures Congruent((w * a) * n, y * (v * v))
  {
    Itself(a);
    CongruentMul(w, x * y, a, a);
    CongruentMul(w * a, x * y * a, n, m * (v * v));
    Gathered(x, y, a, m, v);
    TimesBoth(y * (v * v), x * (a * m), 1);
    Transitively((w * a) * n, (y * (v * v)) * (x * (a * m)), (y * (v * v)) * 1);
  }

  lemma OneAfterAll(m: int, k: nat)
    requires m % P != 0 && 8 * k == P - 5
    ensures Congruent(Pow(m, 8 * k) * (((m * m) * m) * m), 1)
  {
    EighthPower(m);
    PowAdd(m, 8 * k, 4);
    PowerInverts(m);
    assert 8 * k + 4 == P - 1;
  }

  lemma TwoMore(v: int, n: nat)
    ensures Pow(v, n + 2) == Pow(v, n) * (v * v)
  {
    PowAdd(v, n, 2);
    assert Pow(v, 1) == v && Pow(v, 2) == v * v;
  }

  /** The candidate is a power of any root: v^(2k + 2), where 8k = p - 5. */
  lemma CandidateIsPower(c: int, v: int, n: int, m: int, k: nat)
    requires Candidate(c, n, m) && Congruent(n, m * (v * v)) && m % P != 0 && 8 * k == P - 5
    ensures Congruent(c, Pow(v, 2 * k + 2))
  {
    var m3 := (m * m) * m;
    var w := Pow((m3 * m3 * m) * n, k);
    CandidateValue(c, n, m);
    assert (P - 5) / 8 == k;
    BasePower(v, n, m, k);
    OneAfterAll(m, k);
    Collapse(w, Pow(m, 8 * k), Pow(v, 2 * k), m3, n, m, v);
    TwoMore(v, 2 * k);
  }

  lemma Gathered(x: int, y: int, a: int, m: int, v: int)
    ensures x * y * a * (m * (v * v)) == (y * (v * v)) * (x * (a * m))
  {
    var s := v * v;
    assert x * y * a * (m * s) == (x * y) * (a * (m * s));
    assert a * (m * s) == (a * m) * s;
    Exchange(x, y, a * m, s);
    assert (x * (a * m)) * (y * s) == (y * s) * (x * (a * m));
  }

  /** v^((p - 1)/2) is a square root of one. */
  lemma RootOfOne(v: int, k: nat)
    requires 8 * k == P - 5 && v % P != 0
    ensures Congruent(Pow(v, 4 * k + 2), 1) || Congruent(Pow(v, 4 * k + 2), -1)
  {
    var s, n := Pow(v, 4 * k + 2), 4 * k + 2;
    PowAdd(v, n, n);
    PowerInverts(v);
    assert n + n == P - 1;
    SameSquares(s, 1);
  }

  lemma SquareOfPower(v: int, k: nat)
    ensures Pow(v, 2 * k + 2) * Pow(v, 2 * k + 2) == (v * v) * Pow(v, 4 * k + 2)
  {
    var m, n := 2 * k + 2, 4 * k + 2;
    PowAdd(v, m, m);
    PowAdd(v, 2, n);
    assert Pow(v, 1) == v && Pow(v, 2) == v * v;
    assert m + m == 2 + n;
  }

  /** Its square is v^2 times that root. */
  lemma CandidateSquared(c: int, v: int, k: nat)
    requires Congruent(c, Pow(v, 2 * k + 2)) && 8 * k == P - 5 && v % P != 0
    ensures Congruent(c * c, v * v) || Congruent(c * c, -(v * v))
  {
    var s := Pow(v, 4 * k + 2);
    SquareCongruent(c, Pow(v, 2 * k + 2));
    SquareOfPower(v, k);
    RootOfOne(v, k);
    SignedSquare(c * c, v * v, s);
  }

  lemma SignedSquare(x: int, y: int, s: int)
    requires Congruent(x, y * s) && (Congruent(s, 1) || Congruent(s, -1))
    ensures Congruent(x, y) || Congruent(x, -y)
  {
    if Congruent(s, 1) {
      TimesBoth(y, s, 1);
      Transitively(x, y * s, y * 1);
    } else {
      TimesBoth(y, s, -1);
      Transitively(x, y * s, y * -1);
    }
  }

  /** If n/m has a root at all, the candidate is one of it or of its negative. */
  lemma RootFound(v: int, n: int, m: int)
    requires Congruent(n, m * (v * v)) && m % P != 0
    ensures HasRoot(n, m)
  {
    var k := (P - 5) / 8;
    assert 8 * k == P - 5;
    var c := MakeCandidate(n, m);
    HasRootIff(n, m, c);
    var cc := MakeProduct(c, c);
    var q := MakeProduct(cc, m);
    SolvesIff(c, cc, q, m, n);
    SolvesIff(c, cc, q, m, -n);
    CandidateIsPower(c, v, n, m, k);
    if v % P != 0 {
      CandidateSquared(c, v, k);
      ScaledBack(c * c, v * v, m, n);
    } else {
      CandidateZero(c, v, n, m, k);
    }
  }

  lemma ScaledBack(x: int, y: int, m: int, n: int)
    requires Congruent(n, m * y)
    ensures Congruent(x, y) ==> Congruent(x * m, n)
    ensures Congruent(x, -y) ==> Congruent(x * m, -n)
  {
    CongruentTurn(n, m * y);
    if Congruent(x, y) {
      TimesBoth(m, x, y);
      Transitively(m * x, m * y, n);
    }
    if Congruent(x, -y) {
      TimesBoth(m, x, -y);
      Itself(0);
      CongruentAdd(0, 0, m * y, n);
      assert m * -y == 0 - m * y;
      Transitively(m * x, 0 - m * y, 0 - n);
    }
  }

  lemma CandidateZero(c: int, v: int, n: int, m: int, k: nat)
    requires Congruent(c, Pow(v, 2 * k + 2)) && v % P == 0 && Congruent(n, m * (v * v))
    ensures Congruent((c * c) * m, n)
  {
    ZeroIff(v);
    Itself(Pow(v, 2 * k + 1));
    CongruentMul(v, 0, Pow(v, 2 * k + 1), Pow(v, 2 * k + 1));
    Transitively(c, Pow(v, 2 * k + 2), 0);
    SquareCongruent(c, 0);
    Itself(m);
    CongruentMul(c * c, 0, m, m);
    SquareCongruent(v, 0);
    TimesBoth(m, v * v, 0);
    Transitively(n, m * (v * v), 0);
    CongruentTurn(n, 0);
    Transitively((c * c) * m, 0, n);
  }

  lemma MakeCandidate(n: int, m: int) returns (c: int)
    ensures Candidate(c, n, m)
  {
    var m2 := MakeProduct(m, m);
    var m3 := MakeProduct(m2, m);
    var m6 := MakeProduct(m3, m3);
    var m7 := MakeProduct(m6, m);
    var b := MakeProduct(m7, n);
    var w := MakeRootPower(b);
    var a := MakeProduct(w, m3);
    c := MakeProduct(a, n);
  }

  // ---- which encodings are accepted ----

  /** (d y^2 + 1) x^2 is y^2 - 1. */
  ghost predicate HasX(x: int, y: int) {
    Congruent(y * y - 1, (D * (y * y) + 1) * (x * x))
  }

  /** Where the curve has a point the denominator is not zero: d is not -1. */
  lemma DenominatorNotZero(x: int, y: int)
    requires HasX(x, y)
    ensures (D * (y * y) + 1) % P != 0
  {
    var yy, m := y * y, D * (y * y) + 1;
    ZeroIff(m);
    if Congruent(m, 0) {
      Itself(x * x);
      CongruentMul(m, 0, x * x, x * x);
      Transitively(yy - 1, m * (x * x), 0);
      DifferenceZero(yy, 1);
      TimesBoth(D, yy, 1);
      Itself(1);
      CongruentAdd(D * yy, D * 1, 1, 1);
      CongruentSame(m, 0, D + 1);
      CongruentIff(0, D + 1);
    }
  }

  lemma XIsDecoded(x: int, y: int)
    requires HasX(x, y)
    ensures Decodes(y)
  {
    var yy := MakeProduct(y, y);
    var dyy := MakeProduct(yy, D);
    DecodesIff(y, yy, dyy);
    DenominatorNotZero(x, y);
    var n, m := yy - 1, dyy + 1;
    assert n == y * y - 1 && m == D * (y * y) + 1;
    CongruentTo(y * y - 1, (D * (y * y) + 1) * (x * x), n, m * (x * x));
    RootFound(x, n, m);
  }

  lemma DecodedHasX(y: int) returns (x: int)
    requires Decodes(y)
    ensures HasX(x, y)
  {
    var yy := MakeProduct(y, y);
    var dyy := MakeProduct(yy, D);
    DecodesIff(y, yy, dyy);
    x := RootBehind(yy - 1, dyy + 1);
    RootIsX(x, y, yy, dyy);
  }

  lemma RootBehind(n: int, m: int) returns (v: int)
    requires HasRoot(n, m)
    ensures Solves(v, m, n)
  {
    var c :| Candidate(c, n, m) && (Solves(c, m, n) || Solves(c, m, -n));
    if Solves(c, m, n) {
      v := c;
    } else {
      v := MakeProduct(c, ROOT);
      OtherRootFound(c, m, n, v);
    }
  }

  /** There is an x for y exactly if the curve has a point with that y. */
  lemma DecodesExactly(y: int)
    ensures Decodes(y) <==> exists x :: HasX(x, y)
  {
    if Decodes(y) {
      var x := DecodedHasX(y);
    }
    if exists x :: HasX(x, y) {
      var x :| HasX(x, y);
      XIsDecoded(x, y);
    }
  }

  lemma RootIsX(v: int, y: int, yy: int, dyy: int)
    requires yy == y * y && dyy == yy * D && Solves(v, dyy + 1, yy - 1)
    ensures HasX(v, y)
  {
    var vv, q :| Product(vv, v, v) && Product(q, vv, dyy + 1) && Congruent(q, yy - 1);
    ProductIff(vv, v, v);
    ProductIff(q, vv, dyy + 1);
    CongruentTurn(q, yy - 1);
    assert q == (D * (y * y) + 1) * (v * v);
  }

  /**
   * Unpacks the negative of a point, exactly where the curve has one. What is returned is a point of the curve with the
   * given y, and x is zero or has the parity the top bit does not have.
   */
  method UnpackNegative(p: seq<byte>) returns (ok: bool, r: Point, ghost e: Quad)
    requires |p| == 32
    ensures ok <==> exists x :: HasX(x, LeValue(p) % T255)
    ensures ok ==> PointIs(r, e) && OnCurve(e) && Extended(e)
    ensures ok ==> e.z == 1 && e.y == LeValue(p) % T255 && (e.x % P == 0 || (e.x % P % 2 == 1) != (p[31] >= 0x80))
  {
    var y := FieldBytes.Expand(p);
    ghost var vy := Val(y);
    IsSelf(y, vy);
    IsSelf(ONE, 1);
    RootConstants();
    var num, yy := SquareOf(y, vy);
    var den, dyy := MulOf(num, ECD, yy, D);
    num := SubReduceOf(num, ONE, yy, 1);
    den := AddOf(den, ONE, dyy, 1, T, 2);
    var x;
    ghost var vx;
    ok, x, vx := FindRoot(num, den, yy - 1, dyy + 1);
    DecodesIff(vy, yy, dyy);
    DecodesExactly(vy);
    var s, w := OppositeParity(x, p[31] >= 0x80, vx);
    var t, vt := MulOf(s, y, w, vy);
    r := Point(s, y, ONE, t);
    e := Quad(w, vy, 1, vt);
    if ok {
      OnCurveWith(vx, w, vy, yy, dyy, vt);
    }
  }

  // ---- packing and unpacking ----

  /** A point of the curve in coordinates without a denominator. */
  lemma Affine(q: Quad, i: int)
    requires OnCurve(q) && Congruent(q.z * i, 1)
    ensures HasX(q.x * i, q.y * i)
  {
    var m, a, b, k := q.y * q.y - q.x * q.x, q.z * q.z, q.x * q.y, i * i;
    SquareCongruent(q.z * i, 1);
    Squared(q.z, i);
    Squared(q.x, i);
    Squared(q.y, i);
    Exchange(q.x, q.y, i, i);
    Squared(b, k);
    TimesBoth(k * k, m * a, a * a + D * (b * b));
    AffineTerms(m, a, b * b, k);
    Scale(a * k, m * k, D * ((b * b) * (k * k)));
    AffineForm((q.x * i) * (q.x * i), (q.y * i) * (q.y * i), (q.x * q.x) * k, (q.y * q.y) * k, (b * b) * (k * k), m, k);
  }

  lemma AffineTerms(m: int, a: int, bb: int, k: int)
    ensures (k * k) * (m * a) == (m * k) * (a * k) && (k * k) * (a * a + D * bb) == (a * k) * (a * k) + D * (bb * (k * k))
  {
  }

  /** Where c is one, m c = c c + t says m = 1 + t. */
  lemma Scale(c: int, m: int, t: int)
    requires Congruent(c, 1) && Congruent(m * c, c * c + t)
    ensures Congruent(m, 1 + t)
  {
    TimesBoth(m, c, 1);
    SquareCongruent(c, 1);
    Itself(t);
    CongruentAdd(c * c, 1 * 1, t, t);
    CongruentSame(m * c, m * 1, c * c + t);
    Transitively(m, c * c + t, 1 + t);
  }

  lemma AffineForm(xx: int, yy: int, x2: int, y2: int, w: int, m: int, k: int)
    requires xx == x2 && yy == y2 && m * k == y2 - x2 && w == xx * yy && Congruent(m * k, 1 + D * w)
    ensures Congruent(yy - 1, (D * yy + 1) * xx)
  {
    var l := Gap(m * k, 1 + D * w);
    assert (D * yy + 1) * xx == D * (xx * yy) + xx;
    CongruentBy(yy - 1, (D * yy + 1) * xx, l);
  }

  lemma HasXSame(x: int, y: int, y': int)
    requires HasX(x, y) && Congruent(y, y')
    ensures HasX(x, y')
  {
    var a, b, s := y * y, y' * y', x * x;
    SquareCongruent(y, y');
    Itself(1);
    CongruentAdd(a, b, 1, 1);
    TimesBoth(D, a, b);
    CongruentAdd(D * a, D * b, 1, 1);
    Itself(s);
    CongruentMul(D * a + 1, D * b + 1, s, s);
    CongruentSame(a - 1, b - 1, (D * a + 1) * s);
    Transitively(b - 1, (D * a + 1) * s, (D * b + 1) * s);
  }

  /** The points with one y are opposite. */
  lemma Opposite(x: int, x': int, y: int)
    requires HasX(x, y) && HasX(x', y)
    ensures Congruent(x', x) || Congruent(x', -x)
  {
    var m := D * (y * y) + 1;
    DenominatorNotZero(x, y);
    PowerInverts(m);
    CongruentSame(y * y - 1, m * (x' * x'), m * (x * x));
    assert (x' * x') * m == m * (x' * x');
    Cancelled(m, Pow(m, P - 2), x' * x', x * x);
    SameSquares(x', x);
  }

  /** Of two opposite ones that are not zero the parities differ. */
  lemma ParityTells(x: int, x': int)
    requires Congruent(x', x) || Congruent(x', -x)
    requires x' % P == 0 || (x' % P % 2 == 1) != (x % P % 2 == 1)
    ensures Congruent(x', -x)
  {
    if Congruent(x', x) {
      CongruentIff(x', x);
      NegatedParity(x);
      CongruentIff(x', -x);
    }
  }

  lemma TopBit(s: seq<byte>, y: nat, odd: bool)
    requires |s| == 32 && y < P && LeValue(s) == y + if odd then T255 else 0
    ensures LeValue(s) % T255 == y && (s[31] >= 0x80 <==> odd)
  {
    LastByte(s);
    LeBelow(s[..31]);
    Powers();
    assert Power256(32) == 0x100 * Power256(31);
    QuotRem(LeValue(s), T255, if odd then 1 else 0, y);
  }

  lemma Reduced(a: int)
    ensures Congruent(a % P, a) && (a % P) % P == a % P
  {
    CongruentBy(a % P, a, -(a / P));
    CongruentIff(a % P, a);
  }

  /** The curve has a point with the y of a packed point. */
  lemma PackedHasX(q: Quad, i: int, y: int)
    requires OnCurve(q) && Congruent(q.z * i, 1) && Congruent(y, q.y * i)
    ensures HasX(q.x * i, y)
  {
    Affine(q, i);
    CongruentTurn(y, q.y * i);
    HasXSame(q.x * i, q.y * i, y);
  }

  lemma UnpackedX(x: int, y: int, e: Quad)
    requires HasX(x, y) && OnCurve(e) && e.z == 1 && e.y == y && (e.x % P == 0 || (e.x % P % 2 == 1) != (x % P % 2 == 1))
    ensures Congruent(e.x, -x)
  {
    Itself(1);
    Affine(e, 1);
    Opposite(x, e.x, y);
    ParityTells(x, e.x);
  }

  /** What UnpackNegative says of the point it returns. */
  ghost predicate Unpacks(s: seq<byte>, e: Quad)
    requires |s| == 32
  {
    OnCurve(e) && e.z == 1 && e.y == LeValue(s) % T255 && (e.x % P == 0 || (e.x % P % 2 == 1) != (s[31] >= 0x80))
  }

  /** What a packed point unpacks to. */
  lemma Unpacked(q: Quad, i: int, s: seq<byte>, e: Quad)
    requires OnCurve(q) && Congruent(q.z * i, 1) && |s| == 32
    requires LeValue(s) == (q.y * i) % P + if (q.x * i) % P % 2 == 1 then T255 else 0
    ensures exists x :: HasX(x, LeValue(s) % T255)
    ensures Unpacks(s, e) ==> Congruent(e.x, -(q.x * i)) && Congruent(e.y, q.y * i)
  {
    var x, y := q.x * i, (q.y * i) % P;
    TopBit(s, y, x % P % 2 == 1);
    Reduced(q.y * i);
    PackedHasX(q, i, y);
    if Unpacks(s, e) {
      UnpackedX(x, y, e);
    }
  }

  function Values(p: Point): (q: Quad) {
    Quad(Val(p.x), Val(p.y), Val(p.z), Val(p.t))
  }

  /** Every point of the curve survives: unpacking what was packed gives its negative. */
  method PackThenUnpack(p: Point) returns (ok: bool, r: Point, ghost e: Quad, ghost i: int)
    requires Below(p.x, T) && Below(p.y, T) && Below(p.z, T) && OnCurve(Values(p)) && Val(p.z) % P != 0
    ensures ok && PointIs(r, e) && OnCurve(e) && Extended(e) && e.z == 1
    ensures Congruent(Val(p.z) * i, 1) && Congruent(e.x, -(Val(p.x) * i)) && Congruent(e.y, Val(p.y) * i)
  {
    var s;
    s, i := Pack(p);
    ok, r, e := UnpackNegative(s);
    Unpacked(Values(p), i, s, e);
  }
}
