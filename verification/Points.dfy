/**
 * Points of the twisted Edwards curve -x^2 + y^2 = 1 + d x^2 y^2 modulo 2^255 - 19 in extended coordinates, as in
 * section 5.1.4 of RFC 8032. Every operand of a multiplication stays below 2^54 limb by limb and no subtraction
 * goes below zero, which is what the preconditions of the field operations ask.
 */
module Points {
  import opened Field
  import opened Residues

  const D := 0x52036cee2b6ffe738cc740797779e89800700a4d4141d8ab75eb4dca135978a3

  const EC2D := Fe(0x00069b9426b2f159, 0x00035050762add7a, 0x0003cf44c0038052, 0x0006738cc7407977, 0x0002406d9dc56dff)

  /** d is -121665/121666, and the stored constant is twice d. */
  lemma CurveConstants()
    ensures Congruent(D * 121666, -121665) && Is(EC2D, 2 * D)
  {
    CongruentBy(D * 121666, -121665, 77955);
    CongruentBy(Val(EC2D), 2 * D, -1);
    IsIff(EC2D, 2 * D);
  }

  // ---- points ----

  datatype Point = Point(x: Fe, y: Fe, z: Fe, t: Fe)

  /** A sum or double before its coordinates are multiplied out. */
  datatype P1P1 = P1P1(x: Fe, y: Fe, z: Fe, t: Fe)

  /** A point prepared for addition, with and without a denominator. */
  datatype Pniels = Pniels(ysubx: Fe, xaddy: Fe, z: Fe, t2d: Fe)
  datatype Niels = Niels(ysubx: Fe, xaddy: Fe, t2d: Fe)

  /** Coordinates as numbers modulo p. */
  datatype Quad = Quad(x: int, y: int, z: int, t: int)

  ghost predicate PointIs(p: Point, e: Quad) {
    && Below(p.x, T) && Below(p.y, T) && Below(p.z, T) && Below(p.t, T)
    && Is(p.x, e.x) && Is(p.y, e.y) && Is(p.z, e.z) && Is(p.t, e.t)
  }

  ghost predicate P1P1Is(p: P1P1, e: Quad) {
    && Loose(p.x) && Loose(p.y) && Loose(p.z) && Loose(p.t)
    && Is(p.x, e.x) && Is(p.y, e.y) && Is(p.z, e.z) && Is(p.t, e.t)
  }

  ghost predicate PnielsIs(q: Pniels, e: Quad) {
    && Loose(q.ysubx) && Loose(q.xaddy) && Below(q.z, T) && Below(q.t2d, T)
    && Is(q.ysubx, e.y - e.x) && Is(q.xaddy, e.y + e.x) && Is(q.z, e.z) && Is(q.t2d, e.t * (2 * D))
  }

  ghost predicate NielsIs(q: Niels, e: Quad) {
    && Loose(q.ysubx) && Loose(q.xaddy) && Below(q.t2d, T) && e.z == 1
    && Is(q.ysubx, e.y - e.x) && Is(q.xaddy, e.y + e.x) && Is(q.t2d, e.t * (2 * D))
  }

  function Negated(e: Quad): Quad {
    Quad(-e.x, e.y, e.z, -e.t)
  }

  /** The sum of two points, before multiplying out. */
  function SumOf(e: Quad, f: Quad): Quad {
    Quad(2 * (e.x * f.y + e.y * f.x), 2 * (e.y * f.y + e.x * f.x),
         2 * (e.z * f.z + D * (e.t * f.t)), 2 * (e.z * f.z - D * (e.t * f.t)))
  }

  /** The double of a point, before multiplying out. */
  function DoubleOf(e: Quad): Quad {
    Quad(2 * (e.x * e.y), e.y * e.y + e.x * e.x, e.y * e.y - e.x * e.x, 2 * (e.z * e.z) - (e.y * e.y - e.x * e.x))
  }

  function Full(e: Quad): Quad {
    Quad(e.x * e.t, e.y * e.z, e.z * e.t, e.x * e.y)
  }

  // ---- conversions ----


  lemma FullFrom(e: Quad, x: int, y: int, z: int, t: int)
    requires Product(x, e.x, e.t) && Product(y, e.y, e.z) && Product(z, e.z, e.t) && Product(t, e.x, e.y)
    ensures Full(e) == Quad(x, y, z, t)
  {
    ProductIff(x, e.x, e.t);
    ProductIff(y, e.y, e.z);
    ProductIff(z, e.z, e.t);
    ProductIff(t, e.x, e.y);
  }

  /** x, y and z only; the fourth coordinate is left as it was. */
  method ToPartial(r: Point, p: P1P1, ghost e: Quad) returns (s: Point)
    requires P1P1Is(p, e)
    ensures Below(s.x, T) && Below(s.y, T) && Below(s.z, T) && s.t == r.t
    ensures Is(s.x, Full(e).x) && Is(s.y, Full(e).y) && Is(s.z, Full(e).z)
  {
    var x, vx := MulOf(p.x, p.t, e.x, e.t);
    var y, vy := MulOf(p.y, p.z, e.y, e.z);
    var z, vz := MulOf(p.z, p.t, e.z, e.t);
    s := Point(x, y, z, r.t);
    ghost var vt := MakeProduct(e.x, e.y);
    FullFrom(e, vx, vy, vz, vt);
  }

  method ToFull(p: P1P1, ghost e: Quad) returns (r: Point)
    requires P1P1Is(p, e)
    ensures PointIs(r, Full(e))
  {
    var x, vx := MulOf(p.x, p.t, e.x, e.t);
    var y, vy := MulOf(p.y, p.z, e.y, e.z);
    var z, vz := MulOf(p.z, p.t, e.z, e.t);
    var t, vt := MulOf(p.x, p.y, e.x, e.y);
    r := Point(x, y, z, t);
    FullFrom(e, vx, vy, vz, vt);
  }

  method FullToPniels(r: Point, ghost e: Quad) returns (p: Pniels)
    requires PointIs(r, e)
    ensures PnielsIs(p, e)
  {
    var ysubx := SubOf(r.y, r.x, e.y, e.x, T);
    var xaddy := AddOf(r.y, r.x, e.y, e.x, T, T);
    CurveConstants();
    var t2d, v := MulOf(r.t, EC2D, e.t, 2 * D);
    ProductIff(v, e.t, 2 * D);
    p := Pniels(ysubx, xaddy, r.z, t2d);
  }

  // ---- additions ----

  lemma SumFrom(e: Quad, f: Quad, a: int, b: int, c: int, d: int, t: int)
    requires Product(a, e.y - e.x, f.y - f.x) && Product(b, e.y + e.x, f.y + f.x)
    requires Product(t, e.t, f.t) && Product(c, t, 2 * D) && Product(d, e.z, f.z)
    ensures SumOf(e, f) == Quad(b - a, b + a, 2 * d + c, 2 * d - c)
  {
    ProductIff(a, e.y - e.x, f.y - f.x);
    ProductIff(b, e.y + e.x, f.y + f.x);
    ProductIff(t, e.t, f.t);
    ProductIff(c, t, 2 * D);
    ProductIff(d, e.z, f.z);
    CrossProducts(e.x, e.y, f.x, f.y);
  }

  lemma CrossProducts(x1: int, y1: int, x2: int, y2: int)
    ensures (y1 + x1) * (y2 + x2) - (y1 - x1) * (y2 - x2) == 2 * (x1 * y2 + y1 * x2)
    ensures (y1 + x1) * (y2 + x2) + (y1 - x1) * (y2 - x2) == 2 * (y1 * y2 + x1 * x2)
  {
  }

  /** What a sum makes of its products. */
  method CombineSum(a: Fe, b: Fe, c: Fe, d: Fe, ghost va: int, ghost vb: int, ghost vc: int, ghost vd: int)
    returns (r: P1P1)
    requires Below(a, T) && Below(b, T) && Below(c, T) && Below(d, 2 * T)
    requires Is(a, va) && Is(b, vb) && Is(c, vc) && Is(d, vd)
    ensures P1P1Is(r, Quad(vb - va, vb + va, vd + vc, vd - vc))
  {
    var rx := SubOf(b, a, vb, va, T);
    var ry := AddOf(b, a, vb, va, T, T);
    var rz := AddOf(d, c, vd, vc, 2 * T, T);
    var rt := SubAfterBasicOf(d, c, vd, vc, 2 * T);
    r := P1P1(rx, ry, rz, rt);
  }

  method AddP1P1(p: Point, q: Point, ghost e: Quad, ghost f: Quad) returns (r: P1P1)
    requires PointIs(p, e) && PointIs(q, f)
    ensures P1P1Is(r, SumOf(e, f))
  {
    var a := SubOf(p.y, p.x, e.y, e.x, T);
    var b := AddOf(p.y, p.x, e.y, e.x, T, T);
    var t := SubOf(q.y, q.x, f.y, f.x, T);
    var u := AddOf(q.y, q.x, f.y, f.x, T, T);
    ghost var va, vb, vt, vc, vd;
    a, va := MulOf(a, t, e.y - e.x, f.y - f.x);
    b, vb := MulOf(b, u, e.y + e.x, f.y + f.x);
    var c;
    c, vt := MulOf(p.t, q.t, e.t, f.t);
    CurveConstants();
    c, vc := MulOf(c, EC2D, vt, 2 * D);
    var d;
    d, vd := MulOf(p.z, q.z, e.z, f.z);
    d := AddOf(d, d, vd, vd, T, T);
    r := CombineSum(a, b, c, d, va, vb, vc, 2 * vd);
    SumFrom(e, f, va, vb, vc, vd, vt);
  }

  lemma DoubleFrom(e: Quad, xx: int, yy: int, zz: int, ss: int)
    requires Product(xx, e.x, e.x) && Product(yy, e.y, e.y) && Product(zz, e.z, e.z) && Product(ss, e.x + e.y, e.x + e.y)
    ensures DoubleOf(e) == Quad(ss - (yy + xx), yy + xx, yy - xx, 2 * zz - (yy - xx))
  {
    ProductIff(xx, e.x, e.x);
    ProductIff(yy, e.y, e.y);
    ProductIff(zz, e.z, e.z);
    ProductIff(ss, e.x + e.y, e.x + e.y);
  }

  method CombineDouble(a: Fe, b: Fe, c: Fe, s: Fe, ghost xx: int, ghost yy: int, ghost zz2: int, ghost ss: int)
    returns (r: P1P1)
    requires Below(a, T) && Below(b, T) && Below(c, T) && Below(s, T)
    requires Is(a, xx) && Is(b, yy) && Is(c, zz2) && Is(s, ss)
    ensures P1P1Is(r, Quad(ss - (yy + xx), yy + xx, yy - xx, zz2 - (yy - xx)))
  {
    var ry := AddOf(b, a, yy, xx, T, T);
    var rz := SubOf(b, a, yy, xx, T);
    var rx := SubAfterBasicOf(s, ry, ss, yy + xx, T);
    var rt := SubAfterBasicOf(c, rz, zz2, yy - xx, T);
    r := P1P1(rx, ry, rz, rt);
  }

  method DoubleP1P1(p: Point, ghost e: Quad) returns (r: P1P1)
    requires Below(p.x, T) && Below(p.y, T) && Below(p.z, T) && Is(p.x, e.x) && Is(p.y, e.y) && Is(p.z, e.z)
    ensures P1P1Is(r, DoubleOf(e))
  {
    var a, xx := SquareOf(p.x, e.x);
    var b, yy := SquareOf(p.y, e.y);
    var c, zz := SquareOf(p.z, e.z);
    c := AddReduceOf(c, c, zz, zz);
    var rx := AddOf(p.x, p.y, e.x, e.y, T, T);
    ghost var ss;
    rx, ss := SquareOf(rx, e.x + e.y);
    r := CombineDouble(a, b, c, rx, xx, yy, 2 * zz, ss);
    DoubleFrom(e, xx, yy, zz, ss);
  }

  // ---- additions of prepared points ----

  function Signed(e: Quad, negative: bool): Quad {
    if negative then Negated(e) else e
  }

  lemma SignedFrom(e: Quad, f: Quad, negative: bool, a: int, b: int, c: int, d: int)
    requires var g := Signed(f, negative); Product(a, e.y - e.x, g.y - g.x) && Product(b, e.y + e.x, g.y + g.x)
    requires Product(c, e.t, f.t * (2 * D)) && Product(d, e.z, f.z)
    ensures SumOf(e, Signed(f, negative)) ==
      Quad(b - a, b + a, if negative then 2 * d - c else 2 * d + c, if negative then 2 * d + c else 2 * d - c)
  {
    var g := Signed(f, negative);
    ProductIff(c, e.t, f.t * (2 * D));
    ProductIff(d, e.z, f.z);
    var t := MakeProduct(e.t, g.t);
    var s := MakeProduct(t, 2 * D);
    var dd := MakeProduct(e.z, g.z);
    SumFrom(e, g, a, b, s, dd, t);
    SignedProduct(e.t, f.t);
  }

  lemma SignedProduct(t: int, u: int)
    ensures t * (u * (2 * D)) == (t * u) * (2 * D) && t * -u == -(t * u)
  {
  }

  /** The coordinates z and t of a sum with a prepared point, exchanged when it is subtracted. */
  method CombineSigned(x: Fe, a: Fe, c: Fe, d: Fe, negative: bool, ghost vb: int, ghost va: int, ghost vc: int, ghost vd: int)
    returns (r: P1P1)
    requires Below(x, T) && Below(a, T) && Below(c, T) && Below(d, T)
    requires Is(x, vb) && Is(a, va) && Is(c, vc) && Is(d, vd)
    ensures P1P1Is(r, Quad(vb - va, vb + va, if negative then vd - vc else vd + vc, if negative then vd + vc else vd - vc))
  {
    var ry := AddOf(x, a, vb, va, T, T);
    var rx := SubOf(x, a, vb, va, T);
    var plus := AddOf(d, c, vd, vc, T, T);
    var minus := SubOf(d, c, vd, vc, T);
    r := if negative then P1P1(rx, ry, minus, plus) else P1P1(rx, ry, plus, minus);
  }

  method PnielsAddP1P1(p: Point, q: Pniels, signbit: bool, ghost e: Quad, ghost f: Quad) returns (r: P1P1)
    requires PointIs(p, e) && PnielsIs(q, f)
    ensures P1P1Is(r, SumOf(e, Signed(f, signbit)))
  {
    ghost var g := Signed(f, signbit);
    var a := SubOf(p.y, p.x, e.y, e.x, T);
    var b := AddOf(p.y, p.x, e.y, e.x, T, T);
    ghost var va, vb, vc, vd;
    a, va := MulOf(a, if signbit then q.xaddy else q.ysubx, e.y - e.x, g.y - g.x);
    var x;
    x, vb := MulOf(b, if signbit then q.ysubx else q.xaddy, e.y + e.x, g.y + g.x);
    var c;
    c, vc := MulOf(p.t, q.t2d, e.t, f.t * (2 * D));
    var d;
    d, vd := MulOf(p.z, q.z, e.z, f.z);
    d := AddReduceOf(d, d, vd, vd);
    r := CombineSigned(x, a, c, d, signbit, vb, va, vc, 2 * vd);
    SignedFrom(e, f, signbit, va, vb, vc, vd);
  }

  method NielsAddP1P1(p: Point, q: Niels, signbit: bool, ghost e: Quad, ghost f: Quad) returns (r: P1P1)
    requires PointIs(p, e) && NielsIs(q, f)
    ensures P1P1Is(r, SumOf(e, Signed(f, signbit)))
  {
    ghost var g := Signed(f, signbit);
    var a := SubOf(p.y, p.x, e.y, e.x, T);
    var b := AddOf(p.y, p.x, e.y, e.x, T, T);
    ghost var va, vb, vc;
    a, va := MulOf(a, if signbit then q.xaddy else q.ysubx, e.y - e.x, g.y - g.x);
    var x;
    x, vb := MulOf(b, if signbit then q.ysubx else q.xaddy, e.y + e.x, g.y + g.x);
    var c;
    c, vc := MulOf(p.t, q.t2d, e.t, f.t * (2 * D));
    var d := AddReduceOf(p.z, p.z, e.z, e.z);
    r := CombineSigned(x, a, c, d, signbit, vb, va, vc, 2 * e.z);
    ProductIff(e.z, e.z, f.z);
    SignedFrom(e, f, signbit, va, vb, vc, e.z);
  }

  // ---- whole operations ----

  method DoublePartial(r: Point, p: Point, ghost e: Quad) returns (s: Point)
    requires Below(p.x, T) && Below(p.y, T) && Below(p.z, T) && Is(p.x, e.x) && Is(p.y, e.y) && Is(p.z, e.z)
    ensures Below(s.x, T) && Below(s.y, T) && Below(s.z, T) && s.t == r.t
    ensures var f := Full(DoubleOf(e)); Is(s.x, f.x) && Is(s.y, f.y) && Is(s.z, f.z)
  {
    var t := DoubleP1P1(p, e);
    s := ToPartial(r, t, DoubleOf(e));
  }

  method DoublePoint(p: Point, ghost e: Quad) returns (r: Point)
    requires Below(p.x, T) && Below(p.y, T) && Below(p.z, T) && Is(p.x, e.x) && Is(p.y, e.y) && Is(p.z, e.z)
    ensures PointIs(r, Full(DoubleOf(e)))
  {
    var t := DoubleP1P1(p, e);
    r := ToFull(t, DoubleOf(e));
  }

  method AddPoints(p: Point, q: Point, ghost e: Quad, ghost f: Quad) returns (r: Point)
    requires PointIs(p, e) && PointIs(q, f)
    ensures PointIs(r, Full(SumOf(e, f)))
  {
    var t := AddP1P1(p, q, e, f);
    r := ToFull(t, SumOf(e, f));
  }

  /** The sum with a prepared point, in place of the point. */
  method NielsAdd2(r: Point, q: Niels, ghost e: Quad, ghost f: Quad) returns (s: Point)
    requires PointIs(r, e) && NielsIs(q, f)
    ensures PointIs(s, Full(SumOf(e, f)))
  {
    var a := SubOf(r.y, r.x, e.y, e.x, T);
    var b := AddOf(r.y, r.x, e.y, e.x, T, T);
    ghost var va, vb, vc;
    a, va := MulOf(a, q.ysubx, e.y - e.x, f.y - f.x);
    var x;
    x, vb := MulOf(b, q.xaddy, e.y + e.x, f.y + f.x);
    var c;
    c, vc := MulOf(r.t, q.t2d, e.t, f.t * (2 * D));
    var d := AddOf(r.z, r.z, e.z, e.z, T, T);
    var t := CombineSum(a, x, c, d, va, vb, vc, 2 * e.z);
    ProductIff(e.z, e.z, f.z);
    SignedFrom(e, f, false, va, vb, vc, e.z);
    s := ToFull(t, SumOf(e, f));
  }

  /** The sum of a point and a prepared point, itself prepared. */
  method PnielsAdd(p: Point, q: Pniels, ghost e: Quad, ghost f: Quad) returns (r: Pniels)
    requires PointIs(p, e) && PnielsIs(q, f)
    ensures PnielsIs(r, Full(SumOf(e, f)))
  {
    var a := SubOf(p.y, p.x, e.y, e.x, T);
    var b := AddOf(p.y, p.x, e.y, e.x, T, T);
    ghost var va, vb, vc, vd;
    a, va := MulOf(a, q.ysubx, e.y - e.x, f.y - f.x);
    var x;
    x, vb := MulOf(b, q.xaddy, e.y + e.x, f.y + f.x);
    var c;
    c, vc := MulOf(p.t, q.t2d, e.t, f.t * (2 * D));
    var d;
    d, vd := MulOf(p.z, q.z, e.z, f.z);
    d := AddOf(d, d, vd, vd, T, T);
    var t := CombineSum(a, x, c, d, va, vb, vc, 2 * vd);
    SignedFrom(e, f, false, va, vb, vc, vd);
    var s := ToFull(t, SumOf(e, f));
    r := FullToPniels(s, Full(SumOf(e, f)));
  }

  // ---- the group law of the curve ----

  /** The fourth coordinate is the product of the first two over the third. */
  ghost predicate Extended(e: Quad) {
    Congruent(e.t * e.z, e.x * e.y)
  }

  /** -x^2 + y^2 = 1 + d x^2 y^2 for x/z and y/z. */
  ghost predicate OnCurve(e: Quad) {
    Congruent((e.y * e.y - e.x * e.x) * (e.z * e.z), (e.z * e.z) * (e.z * e.z) + D * ((e.x * e.y) * (e.x * e.y)))
  }

  /** The two denominators of the law, over z1 z2: z1^2 z2^2 plus and minus d x1 x2 y1 y2. */
  function Plus(e: Quad, f: Quad): int {
    (e.z * f.z) * (e.z * f.z) + D * ((e.x * e.y) * (f.x * f.y))
  }

  function Minus(e: Quad, f: Quad): int {
    (e.z * f.z) * (e.z * f.z) - D * ((e.x * e.y) * (f.x * f.y))
  }

  /**
   * r is the sum of e and f by the complete law of section 5.1.4 of RFC 8032, cleared of denominators:
   * x3 = (x1 y2 + x2 y1) / (1 + d x1 x2 y1 y2) and y3 = (y1 y2 + x1 x2) / (1 - d x1 x2 y1 y2).
   */
  ghost predicate IsSum(e: Quad, f: Quad, r: Quad) {
    && Congruent(r.x * Plus(e, f), r.z * ((e.x * f.y + e.y * f.x) * (e.z * f.z)))
    && Congruent(r.y * Minus(e, f), r.z * ((e.y * f.y + e.x * f.x) * (e.z * f.z)))
    && Extended(r)
  }

  lemma FullExtended(e: Quad)
    ensures Extended(Full(e))
  {
    Shuffle(e.x, e.y, e.z, e.t);
    CongruentBy(Full(e).t * Full(e).z, Full(e).x * Full(e).y, 0);
  }

  lemma Shuffle(x: int, y: int, z: int, t: int)
    ensures (x * y) * (z * t) == (x * t) * (y * z)
  {
    assert (x * y) * (z * t) == x * (y * (z * t)) && (x * t) * (y * z) == x * (t * (y * z));
    assert y * (z * t) == t * (y * z);
  }

  /** z1 z2 (z1 z2 + d t1 t2) is the denominator. */
  lemma Denominators(e: Quad, f: Quad)
    requires Extended(e) && Extended(f)
    ensures Congruent((e.z * f.z) * (e.z * f.z + D * (e.t * f.t)), Plus(e, f))
    ensures Congruent((e.z * f.z) * (e.z * f.z - D * (e.t * f.t)), Minus(e, f))
  {
    var zz, tt, u, v := e.z * f.z, e.t * f.t, (e.t * e.z) * (f.t * f.z), (e.x * e.y) * (f.x * f.y);
    CongruentMul(e.t * e.z, e.x * e.y, f.t * f.z, f.x * f.y);
    SameSpread(zz, u, v);
    Shuffle(e.t, f.t, e.z, f.z);
    Spread(zz, tt, u);
    CongruentTo(zz * zz + D * u, zz * zz + D * v, zz * (zz + D * tt), Plus(e, f));
    CongruentTo(zz * zz - D * u, zz * zz - D * v, zz * (zz - D * tt), Minus(e, f));
  }

  lemma SameSpread(z: int, u: int, v: int)
    requires Congruent(u, v)
    ensures Congruent(z * z + D * u, z * z + D * v) && Congruent(z * z - D * u, z * z - D * v)
  {
    CongruentBy(D, D, 0);
    CongruentMul(D, D, u, v);
    CongruentBy(z * z, z * z, 0);
    CongruentAdd(z * z, z * z, D * u, D * v);
  }

  lemma Spread(z: int, t: int, u: int)
    requires u == t * z
    ensures z * (z + D * t) == z * z + D * u && z * (z - D * t) == z * z - D * u
  {
    assert z * (D * t) == D * (t * z);
  }

  lemma Rearranged(u: int, h: int, z: int, g: int)
    ensures ((2 * u) * (2 * h)) * (z * g) == ((2 * g) * (2 * h)) * (u * z)
  {
    assert ((2 * u) * (2 * h)) * (z * g) == 4 * ((u * h) * (z * g));
    assert ((2 * g) * (2 * h)) * (u * z) == 4 * ((g * h) * (u * z));
    Shuffle(u, h, z, g);
    Shuffle(g, h, u, z);
    Shuffle(u, h, g, z);
    assert z * g == g * z && (u * z) * (h * g) == (h * g) * (u * z);
  }

  /** The formulas for a sum compute the law, for all points in extended coordinates. */
  lemma SumLaw(e: Quad, f: Quad)
    requires Extended(e) && Extended(f)
    ensures IsSum(e, f, Full(SumOf(e, f)))
  {
    var u, w, zz := e.x * f.y + e.y * f.x, e.y * f.y + e.x * f.x, e.z * f.z;
    var g, h := zz + D * (e.t * f.t), zz - D * (e.t * f.t);
    var r := Full(SumOf(e, f));
    Denominators(e, f);
    Rearranged(u, h, zz, g);
    Rearranged(w, g, zz, h);
    assert (2 * h) * (2 * g) == (2 * g) * (2 * h);
    Cleared(r.x, zz * g, Plus(e, f), r.z * (u * zz));
    Cleared(r.y, zz * h, Minus(e, f), r.z * (w * zz));
    FullExtended(SumOf(e, f));
  }

  lemma Cleared(x: int, a: int, b: int, c: int)
    requires Congruent(a, b) && x * a == c
    ensures Congruent(x * b, c)
  {
    CongruentBy(x, x, 0);
    CongruentMul(x, x, a, b);
    CongruentBy(c, x * a, 0);
    CongruentSame(x * a, x * b, c);
  }

  lemma Rearranged2(a: int, f: int, g: int, z: int)
    ensures (a * f) * (g * z) == (g * f) * (a * z)
  {
    Shuffle(a, f, g, z);
    Shuffle(g, f, a, z);
    assert (a * z) * (f * g) == (g * f) * (a * z);
  }

  /** The shorter formulas for a double compute the same law, for points of the curve. */
  lemma DoubleLaw(e: Quad)
    requires OnCurve(e)
    ensures IsSum(e, e, Full(DoubleOf(e)))
  {
    var zz, g := e.z * e.z, e.y * e.y - e.x * e.x;
    var x, h, f := 2 * (e.x * e.y), e.y * e.y + e.x * e.x, 2 * zz - g;
    var r := Full(DoubleOf(e));
    DoubleDenominators(e);
    Rearranged2(x, f, g, zz);
    Rearranged2(h, g, f, zz);
    assert f * g == g * f && e.x * e.y + e.y * e.x == x;
    Cleared(r.x, g * zz, Plus(e, e), r.z * (x * zz));
    Cleared(r.y, f * zz, Minus(e, e), r.z * (h * zz));
    FullExtended(DoubleOf(e));
  }

  lemma DoubleDenominators(e: Quad)
    requires OnCurve(e)
    ensures var zz, g := e.z * e.z, e.y * e.y - e.x * e.x;
      Congruent(g * zz, Plus(e, e)) && Congruent((2 * zz - g) * zz, Minus(e, e))
  {
    var zz, g := e.z * e.z, e.y * e.y - e.x * e.x;
    CongruentBy(2 * (zz * zz), 2 * (zz * zz), 0);
    CongruentAdd(2 * (zz * zz), 2 * (zz * zz), g * zz, Plus(e, e));
    TwiceLess(zz, g);
    CongruentTo(2 * (zz * zz) - g * zz, 2 * (zz * zz) - Plus(e, e), (2 * zz - g) * zz, Minus(e, e));
  }

  lemma TwiceLess(z: int, g: int)
    ensures (2 * z - g) * z == 2 * (z * z) - g * z
  {
  }
}
