/**
 Arithmetic modulo p = 2^255 - 19 (section 4.1 of RFC 7748) on five 51-bit limbs, as
 crypto/curve25519-donna-64bit.h does it. Field elements are values here: a routine that
 overwrites an output array becomes one that returns the new element.
 */
module Field {
  import opened Words

  const P := 0x7fffffffffffffffffffffffffffffffffffffffffffffffffffffffffffffed

  const B51 := 0x8000000000000

  datatype Fe = Fe(a: u64, b: u64, c: u64, d: u64, e: u64)

  /** The number five 51-bit limbs stand for. */
  function V51(a: int, b: int, c: int, d: int, e: int): int {
    a + 0x8000000000000 * b + 0x40000000000000000000000000 * c
    + 0x200000000000000000000000000000000000000 * d
    + 0x1000000000000000000000000000000000000000000000000000 * e
  }

  function Val(x: Fe): int {
    V51(x.a, x.b, x.c, x.d, x.e)
  }

  ghost predicate Below(x: Fe, bound: int) {
    x.a < bound && x.b < bound && x.c < bound && x.d < bound && x.e < bound
  }

  /** What a multiplication accepts: limbs below 2^54. */
  ghost predicate Loose(x: Fe) {
    Below(x, 0x40000000000000)
  }

  /** What a multiplication or a reducing operation delivers: limbs below 2^51 + 2^18. */
  ghost predicate Tight(x: Fe) {
    Below(x, 0x8000000040000)
  }

  ghost predicate Apart(x: int, y: int, k: int) {
    x == y + P * k
  }

  // `Seen` says nothing: it only lets a proof choose where the arithmetic behind `Congruent` comes into sight.
  ghost predicate Seen(x: int, y: int, k: int) { true }

  /** x and y are the same modulo p. */
  ghost predicate Congruent(x: int, y: int) {
    forall k: int {:trigger Seen(x, y, k)} :: Seen(x, y, k) ==> exists l :: Apart(x, y, l)
  }

  lemma CongruentBy(x: int, y: int, k: int)
    requires x == y + P * k
    ensures Congruent(x, y)
  {
    assert Apart(x, y, k);
  }

  lemma Gap(x: int, y: int) returns (k: int)
    requires Congruent(x, y)
    ensures x == y + P * k
  {
    assert Seen(x, y, 0);
    k :| Apart(x, y, k);
  }

  lemma CongruentIff(x: int, y: int)
    ensures Congruent(x, y) <==> x % P == y % P
  {
    if Congruent(x, y) {
      var k := Gap(x, y);
      QuotRem(x, P, y / P + k, y % P);
    }
    if x % P == y % P {
      CongruentBy(x, y, x / P - y / P);
    }
  }

  lemma CongruentTurn(x: int, y: int)
    requires Congruent(x, y)
    ensures Congruent(y, x)
  {
    var k := Gap(x, y);
    CongruentBy(y, x, -k);
  }

  lemma CongruentTo(x: int, y: int, a: int, b: int)
    requires Congruent(x, y) && a == x && b == y
    ensures Congruent(a, b)
  {
  }

  lemma CongruentSame(x: int, y: int, z: int)
    requires Congruent(x, y) && Congruent(x, z)
    ensures Congruent(y, z) && Congruent(y, x)
  {
    var k := Gap(x, y);
    var l := Gap(x, z);
    CongruentBy(y, z, l - k);
    CongruentBy(y, x, -k);
  }

  lemma Row(x: int, y0: int, y1: int, y2: int, y3: int, y4: int)
    ensures x * V51(y0, y1, y2, y3, y4) == V51(x * y0, x * y1, x * y2, x * y3, x * y4)
  {
  }

  /** Multiplying out, and folding the high columns back by 2^255 = p + 19. */
  lemma FoldedProduct(r0: int, r1: int, r2: int, r3: int, r4: int, s0: int, s1: int, s2: int, s3: int, s4: int)
    ensures V51(r0, r1, r2, r3, r4) * V51(s0, s1, s2, s3, s4) ==
            V51(r0 * s0 + 19 * (r4 * s1 + r1 * s4 + r2 * s3 + r3 * s2),
                r0 * s1 + r1 * s0 + 19 * (r4 * s2 + r2 * s4 + r3 * s3),
                r0 * s2 + r2 * s0 + r1 * s1 + 19 * (r4 * s3 + r3 * s4),
                r0 * s3 + r3 * s0 + r1 * s2 + r2 * s1 + 19 * (r4 * s4),
                r0 * s4 + r4 * s0 + r3 * s1 + r1 * s3 + r2 * s2)
            + P * V51(r4 * s1 + r1 * s4 + r2 * s3 + r3 * s2, r4 * s2 + r2 * s4 + r3 * s3, r4 * s3 + r3 * s4, r4 * s4, 0)
  {
    Row(V51(s0, s1, s2, s3, s4), r0, r1, r2, r3, r4);
    Row(r0, s0, s1, s2, s3, s4);
    Row(r1, s0, s1, s2, s3, s4);
    Row(r2, s0, s1, s2, s3, s4);
    Row(r3, s0, s1, s2, s3, s4);
    Row(r4, s0, s1, s2, s3, s4);
  }

  /** A 128-bit column: a limb and a 64-bit carry. */
  method Carry(sum: int, carry: u64) returns (r: u64, c: u64)
    requires 0 <= sum < 0x78000000000000000000000000000
    ensures r < B51 && sum + carry == r + B51 * c
  {
    var t: u128 := sum + carry;
    r, c := t % B51, t / B51;
  }

  /** The carry chain of mul and square: the top carry comes back, times 19, at the bottom. */
  method CarryChain(t0: int, t1: int, t2: int, t3: int, t4: int) returns (r: Fe, ghost k: int)
    requires 0 <= t0 < 0x78000000000000000000000000000 && 0 <= t1 < 0x78000000000000000000000000000
    requires 0 <= t2 < 0x78000000000000000000000000000 && 0 <= t3 < 0x78000000000000000000000000000
    requires 0 <= t4 < 0x5000000000000000000000000000
    ensures Tight(r)
    ensures V51(t0, t1, t2, t3, t4) == Val(r) + P * k
  {
    var r0, r1, r2, r3, r4, c;
    r0, c := Carry(t0, 0);
    r1, c := Carry(t1, c);
    r2, c := Carry(t2, c);
    r3, c := Carry(t3, c);
    r4, c := Carry(t4, c);
    k := c;
    var back: u64 := c * 19;
    r0 := r0 + back;
    c := r0 / B51;
    r0 := r0 % B51;
    r1 := r1 + c;
    r := Fe(r0, r1, r2, r3, r4);
  }

  ghost predicate Limbs(x0: int, x1: int, x2: int, x3: int, x4: int, bound: int) {
    0 <= x0 < bound && 0 <= x1 < bound && 0 <= x2 < bound && 0 <= x3 < bound && 0 <= x4 < bound
  }

  lemma ProductsBelow(x0: int, x1: int, x2: int, x3: int, x4: int, y0: int, y1: int, y2: int, y3: int, y4: int)
    requires Limbs(x0, x1, x2, x3, x4, 0x40000000000000) && Limbs(y0, y1, y2, y3, y4, 0x40000000000000)
    ensures forall x, y :: x in {x0, x1, x2, x3, x4} && y in {y0, y1, y2, y3, y4} ==> 0 <= x * y < 0x1000000000000000000000000000
  {
    forall x, y | x in {x0, x1, x2, x3, x4} && y in {y0, y1, y2, y3, y4}
      ensures 0 <= x * y < 0x1000000000000000000000000000
    {
      MulBelow(x, y, 0x3fffffffffffff, 0x3fffffffffffff);
    }
  }

  /** The five folded columns of a product. */
  method MulColumns(r0: int, r1: int, r2: int, r3: int, r4: int, s0: int, s1: int, s2: int, s3: int, s4: int)
    returns (t0: int, t1: int, t2: int, t3: int, t4: int, ghost k: int)
    requires Limbs(r0, r1, r2, r3, r4, 0x40000000000000) && Limbs(s0, s1, s2, s3, s4, 0x40000000000000)
    ensures Limbs(t0, t1, t2, t3, t4, 0x78000000000000000000000000000) && t4 < 0x5000000000000000000000000000
    ensures V51(r0, r1, r2, r3, r4) * V51(s0, s1, s2, s3, s4) == V51(t0, t1, t2, t3, t4) + P * k
  {
    ProductsBelow(r0, r1, r2, r3, r4, s0, s1, s2, s3, s4);
    FoldedProduct(r0, r1, r2, r3, r4, s0, s1, s2, s3, s4);
    t0 := r0 * s0;
    t1 := r0 * s1 + r1 * s0;
    t2 := r0 * s2 + r2 * s0 + r1 * s1;
    t3 := r0 * s3 + r3 * s0 + r1 * s2 + r2 * s1;
    t4 := r0 * s4 + r4 * s0 + r3 * s1 + r1 * s3 + r2 * s2;
    var n1: u64, n2: u64, n3: u64, n4: u64 := r1 * 19, r2 * 19, r3 * 19, r4 * 19;
    Nineteen(r4, s1, r1, s4, r2, s3, r3, s2);
    Nineteen(r4, s2, r2, s4, r3, s3, 0, 0);
    Nineteen(r4, s3, r3, s4, r4, s4, 0, 0);
    t0 := t0 + n4 as int * s1 + n1 as int * s4 + n2 as int * s3 + n3 as int * s2;
    t1 := t1 + n4 as int * s2 + n2 as int * s4 + n3 as int * s3;
    t2 := t2 + n4 as int * s3 + n3 as int * s4;
    t3 := t3 + n4 as int * s4;
    k := V51(r4 * s1 + r1 * s4 + r2 * s3 + r3 * s2, r4 * s2 + r2 * s4 + r3 * s3, r4 * s3 + r3 * s4, r4 * s4, 0);
  }

  lemma Nineteen(a: int, b: int, c: int, d: int, e: int, f: int, g: int, h: int)
    ensures (a * 19) * b == 19 * (a * b) && (c * 19) * d == 19 * (c * d)
    ensures (e * 19) * f == 19 * (e * f) && (g * 19) * h == 19 * (g * h)
  {
  }

  /** For all limbs below 2^54: nothing overflows, and the result is the product modulo p. */
  method Mul(x: Fe, y: Fe) returns (r: Fe)
    requires Loose(x) && Loose(y)
    ensures Tight(r) && Congruent(Val(x) * Val(y), Val(r))
  {
    var t0, t1, t2, t3, t4, k := MulColumns(y.a, y.b, y.c, y.d, y.e, x.a, x.b, x.c, x.d, x.e);
    ghost var l;
    r, l := CarryChain(t0, t1, t2, t3, t4);
    CongruentBy(Val(y) * Val(x), Val(r), k + l);
  }

  // ----- squaring -----

  /** The five folded columns of a square, with the doubled and 19-fold limbs shared. */
  method SquareColumns(r0: int, r1: int, r2: int, r3: int, r4: int)
    returns (t0: int, t1: int, t2: int, t3: int, t4: int, ghost k: int)
    requires Limbs(r0, r1, r2, r3, r4, 0x40000000000000)
    ensures Limbs(t0, t1, t2, t3, t4, 0x78000000000000000000000000000) && t4 < 0x5000000000000000000000000000
    ensures V51(r0, r1, r2, r3, r4) * V51(r0, r1, r2, r3, r4) == V51(t0, t1, t2, t3, t4) + P * k
  {
    ProductsBelow(r0, r1, r2, r3, r4, r0, r1, r2, r3, r4);
    FoldedProduct(r0, r1, r2, r3, r4, r0, r1, r2, r3, r4);
    var d0: u64, d1: u64, d2: u64, d419: u64 := r0 * 2, r1 * 2, r2 * 2 * 19, r4 * 19;
    var d4: u64, n3: u64 := d419 * 2, r3 * 19;
    Scaled(d0, 2, r0, r1, r2);
    Scaled(d0, 2, r0, r3, r4);
    Scaled(d1, 2, r1, r2, r3);
    Scaled(d2, 38, r2, r3, r3);
    Scaled(d4, 38, r4, r1, r2);
    Scaled(d4, 38, r4, r3, r3);
    Scaled(n3, 19, r3, r3, r3);
    Scaled(d419, 19, r4, r4, r4);
    t0 := r0 * r0 + d4 as int * r1 + d2 as int * r3;
    t1 := d0 as int * r1 + d4 as int * r2 + n3 as int * r3;
    t2 := d0 as int * r2 + r1 * r1 + d4 as int * r3;
    t3 := d0 as int * r3 + d1 as int * r2 + d419 as int * r4;
    t4 := d0 as int * r4 + d1 as int * r3 + r2 * r2;
    k := V51(r4 * r1 + r1 * r4 + r2 * r3 + r3 * r2, r4 * r2 + r2 * r4 + r3 * r3, r4 * r3 + r3 * r4, r4 * r4, 0);
  }

  lemma Scaled(d: int, n: int, x: int, y: int, z: int)
    requires d == n * x
    ensures d * y == n * (x * y) && d * z == n * (x * z) && x * y == y * x && x * z == z * x
  {
  }

  method Square(x: Fe) returns (r: Fe)
    requires Loose(x)
    ensures Tight(r) && Congruent(Val(x) * Val(x), Val(r))
  {
    var t0, t1, t2, t3, t4, k := SquareColumns(x.a, x.b, x.c, x.d, x.e);
    ghost var l;
    r, l := CarryChain(t0, t1, t2, t3, t4);
    CongruentBy(Val(x) * Val(x), Val(r), k + l);
  }

  /** One column cut in two without waiting for the carry from below. */
  method Cut(t: int) returns (low: u64, high: u64)
    requires 0 <= t < 0x78000000000000000000000000000
    ensures low < B51 && t == low + B51 * high
  {
    low := Wrap64(t) % B51;
    // shl128 by 13: the high word of the column shifted left
    high := (t * 0x2000) % 0x1_0000_0000_0000_0000_0000_0000_0000_0000 / 0x1_0000_0000_0000_0000;
    var q, r := t / B51, t % B51;
    QuotRem(t, 0x1_0000_0000_0000_0000, q / 0x2000, r + B51 * (q % 0x2000));
    QuotRem(Wrap64(t), B51, q % 0x2000, r);
    QuotRem(t * 0x2000, 0x1_0000_0000_0000_0000, q, r * 0x2000);
  }

  /** The carry chain of square_times: all columns are cut first, then carried twice round. */
  method CarryTwice(t0: int, t1: int, t2: int, t3: int, t4: int) returns (r: Fe, ghost k: int)
    requires Limbs(t0, t1, t2, t3, t4, 0x78000000000000000000000000000) && t4 < 0x5000000000000000000000000000
    ensures Tight(r)
    ensures V51(t0, t1, t2, t3, t4) == Val(r) + P * k
  {
    var r0, c0 := Cut(t0);
    var r1, c1 := Cut(t1);
    var r2, c2 := Cut(t2);
    var r3, c3 := Cut(t3);
    var r4, c4 := Cut(t4);
    r1, r2, r3, r4 := r1 + c0, r2 + c1, r3 + c2, r4 + c3;
    r0 := r0 + c4 * 19;
    ghost var top;
    r, top := CarryRound(r0, r1, r2, r3, r4);
    k := c4 + top;
  }

  method CarryRound(s0: u64, s1: u64, s2: u64, s3: u64, s4: u64) returns (r: Fe, ghost k: int)
    requires Limbs(s0, s1, s2, s3, s4, 0xff00_0000_0000_0000)
    ensures Tight(r)
    ensures V51(s0, s1, s2, s3, s4) == Val(r) + P * k
  {
    var r0, r1, r2, r3, r4 := s0, s1, s2, s3, s4;
    var c: u64 := r0 / B51;
    r0 := r0 % B51;
    r1 := r1 + c;
    c, r1 := r1 / B51, r1 % B51;
    r2 := r2 + c;
    c, r2 := r2 / B51, r2 % B51;
    r3 := r3 + c;
    c, r3 := r3 / B51, r3 % B51;
    r4 := r4 + c;
    c, r4 := r4 / B51, r4 % B51;
    r0 := r0 + c * 19;
    k := c;
    r := Fe(r0, r1, r2, r3, r4);
  }

  // ----- sums, differences and negation -----

  /** Limb-wise sum, without reduction. */
  function Add(x: Fe, y: Fe): (r: Fe)
    requires Loose(x) && Loose(y)
    ensures Val(r) == Val(x) + Val(y)
  {
    Fe(x.a + y.a, x.b + y.b, x.c + y.c, x.d + y.d, x.e + y.e)
  }

  /** x - y with 2p added limb by limb: the limbs of y must not exceed those of 2p. */
  function Sub(x: Fe, y: Fe): (r: Fe)
    requires Loose(x)
    requires y.a <= 0x0fffffffffffda && y.b <= 0x0ffffffffffffe && y.c <= 0x0ffffffffffffe
    requires y.d <= 0x0ffffffffffffe && y.e <= 0x0ffffffffffffe
    ensures Val(r) == Val(x) - Val(y) + 2 * P
  {
    Fe(x.a + 0x0fffffffffffda - y.a, x.b + 0x0ffffffffffffe - y.b, x.c + 0x0ffffffffffffe - y.c,
       x.d + 0x0ffffffffffffe - y.d, x.e + 0x0ffffffffffffe - y.e)
  }

  /** x - y with 4p added limb by limb. */
  function SubAfterBasic(x: Fe, y: Fe): (r: Fe)
    requires Loose(x)
    requires y.a <= 0x1fffffffffffb4 && y.b <= 0x1ffffffffffffc && y.c <= 0x1ffffffffffffc
    requires y.d <= 0x1ffffffffffffc && y.e <= 0x1ffffffffffffc
    ensures Val(r) == Val(x) - Val(y) + 4 * P
  {
    Fe(x.a + 0x1fffffffffffb4 - y.a, x.b + 0x1ffffffffffffc - y.b, x.c + 0x1ffffffffffffc - y.c,
       x.d + 0x1ffffffffffffc - y.d, x.e + 0x1ffffffffffffc - y.e)
  }

  /** Sum followed by one round of carries. */
  method AddReduce(x: Fe, y: Fe) returns (r: Fe, ghost k: int)
    requires Loose(x) && Loose(y)
    ensures Tight(r) && Val(x) + Val(y) == Val(r) + P * k
  {
    var s := Add(x, y);
    r, k := CarryRound(s.a, s.b, s.c, s.d, s.e);
  }

  /** Difference with 4p added, followed by one round of carries. */
  method SubReduce(x: Fe, y: Fe) returns (r: Fe, ghost k: int)
    requires Loose(x)
    requires y.a <= 0x1fffffffffffb4 && y.b <= 0x1ffffffffffffc && y.c <= 0x1ffffffffffffc
    requires y.d <= 0x1ffffffffffffc && y.e <= 0x1ffffffffffffc
    ensures Tight(r) && Val(x) - Val(y) == Val(r) + P * k
  {
    var s := SubAfterBasic(x, y);
    ghost var c;
    r, c := CarryRound(s.a, s.b, s.c, s.d, s.e);
    k := c - 4;
  }

  method Neg(x: Fe) returns (r: Fe, ghost k: int)
    requires Tight(x)
    ensures Tight(r) && -Val(x) == Val(r) + P * k
  {
    var s0: u64, s1: u64, s2: u64 := 0x0fffffffffffda - x.a, 0x0ffffffffffffe - x.b, 0x0ffffffffffffe - x.c;
    var s3: u64, s4: u64 := 0x0ffffffffffffe - x.d, 0x0ffffffffffffe - x.e;
    ghost var c;
    r, c := CarryRound(s0, s1, s2, s3, s4);
    NegatedLimbs(x, s0, s1, s2, s3, s4);
    k := c - 2;
  }

  lemma NegatedLimbs(x: Fe, s0: int, s1: int, s2: int, s3: int, s4: int)
    requires s0 == 0x0fffffffffffda - x.a as int && s1 == 0x0ffffffffffffe - x.b as int
    requires s2 == 0x0ffffffffffffe - x.c as int && s3 == 0x0ffffffffffffe - x.d as int
    requires s4 == 0x0ffffffffffffe - x.e as int
    ensures V51(s0, s1, s2, s3, s4) == 2 * P - Val(x)
  {
  }

  // ----- congruence -----

  lemma CongruentMul(a: int, b: int, c: int, d: int)
    requires Congruent(a, b) && Congruent(c, d)
    ensures Congruent(a * c, b * d)
  {
    var k := Gap(a, b);
    var l := Gap(c, d);
    ProductShift(b, k, d, l);
    CongruentBy(a * c, b * d, k * d + b * l + P * (k * l));
  }

  lemma ProductShift(b: int, k: int, d: int, l: int)
    ensures (b + P * k) * (d + P * l) == b * d + P * (k * d + b * l + P * (k * l))
  {
  }

  lemma CongruentAdd(a: int, b: int, c: int, d: int)
    requires Congruent(a, b) && Congruent(c, d)
    ensures Congruent(a + c, b + d) && Congruent(a - c, b - d)
  {
    var k := Gap(a, b);
    var l := Gap(c, d);
    CongruentBy(a + c, b + d, k + l);
    CongruentBy(a - c, b - d, k - l);
  }

  /** One of the squarings of a repeated squaring. */
  method SquareStep(z: Fe) returns (r: Fe)
    requires Loose(z)
    ensures Tight(r) && Congruent(Val(z) * Val(z), Val(r))
  {
    var t0, t1, t2, t3, t4, k := SquareColumns(z.a, z.b, z.c, z.d, z.e);
    ghost var l;
    r, l := CarryTwice(t0, t1, t2, t3, t4);
    CongruentBy(Val(z) * Val(z), Val(r), k + l);
  }
}
