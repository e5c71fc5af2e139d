/**
 Arithmetic modulo the order L of the Ed25519 base point (section 5.1 of RFC 8032)
 on five 56-bit limbs, as crypto/modm-donna-64bit.h does it.
 */
module ScalarField {
  import opened Words

  const L := 0x1000000000000000000000000000000014def9dea2f79cd65812631a5cf5d3ed
  // floor(2^512 / L)
  const MU := 0xfffffffffffffffffffffffffffffffeb2106215d086329a7ed9ce5a30a2c131b

  const B40 := 0x10000000000
  const B56 := 0x100000000000000
  const B248 := 0x1_00000000000000000000000000000000000000000000000000000000000000
  const B255 := 0x8000000000000000000000000000000000000000000000000000000000000000
  const B264 := 0x1_000000000000000000000000000000000000000000000000000000000000000000
  const B512 := 0x1_00000000000000000000000000000000_00000000000000000000000000000000_00000000000000000000000000000000_00000000000000000000000000000000

  /** The number five limbs stand for. */
  function V5(a: int, b: int, c: int, d: int, e: int): int {
    a + 0x100000000000000 * b + 0x10000000000000000000000000000 * c
    + 0x1000000000000000000000000000000000000000000 * d
    + 0x100000000000000000000000000000000000000000000000000000000 * e
  }

  function Value(s: seq<int>): int
    requires |s| == 5
  {
    V5(s[0], s[1], s[2], s[3], s[4])
  }

  ghost predicate Limb(x: int) {
    0 <= x < 0x100000000000000
  }

  /** Four full limbs and a top limb below `top`. */
  ghost predicate Fit(a: int, b: int, c: int, d: int, e: int, top: int) {
    Limb(a) && Limb(b) && Limb(c) && Limb(d) && 0 <= e < top
  }

  ghost predicate Fits(s: seq<int>, top: int) {
    |s| == 5 && Fit(s[0], s[1], s[2], s[3], s[4], top)
  }

  // ----- subtraction with borrow, and the conditional subtraction of L -----

  function LessThan(a: u64, b: u64): u64 {
    Wrap64(a - b) / 0x8000_0000_0000_0000
  }

  /** One column of a subtraction: `lift` is what a borrow adds back. */
  method Borrow(x: u64, pb: u64, lift: int) returns (t: u64, b: u64)
    requires x <= B56 && pb <= B56 && 0 <= lift <= B56
    ensures b == if x < pb then 1 else 0
    ensures pb <= x + b * lift ==> t == x - pb + b * lift
  {
    if x < pb {
      QuotRem(x - pb, 0x1_0000_0000_0000_0000, -1, 0x1_0000_0000_0000_0000 + x - pb);
      QuotRem(0x1_0000_0000_0000_0000 + x - pb, 0x8000_0000_0000_0000, 1, 0x8000_0000_0000_0000 + x - pb);
    }
    b := LessThan(x, pb);
    t := Wrap64(x - pb + b * lift);
  }

  /** Column-wise subtraction with borrows is subtraction of the numbers. */
  lemma BorrowValue(x0: int, x1: int, x2: int, x3: int, x4: int, y0: int, y1: int, y2: int, y3: int, y4: int,
                    t0: int, t1: int, t2: int, t3: int, b0: int, b1: int, b2: int, b3: int)
    requires t0 == x0 - y0 + b0 * B56 && t1 == x1 - y1 - b0 + b1 * B56
    requires t2 == x2 - y2 - b1 + b2 * B56 && t3 == x3 - y3 - b2 + b3 * B56
    ensures V5(t0, t1, t2, t3, x4 - y4 - b3) == V5(x0, x1, x2, x3, x4) - V5(y0, y1, y2, y3, y4)
  {
  }

  /** `t = r - L`, kept only when it does not borrow. */
  method ReduceLimbs(x0: u64, x1: u64, x2: u64, x3: u64, x4: u64) returns (t0: u64, t1: u64, t2: u64, t3: u64, t4: u64)
    requires Fit(x0, x1, x2, x3, x4, B40)
    ensures Fit(t0, t1, t2, t3, t4, B40)
    ensures var v := V5(x0, x1, x2, x3, x4); V5(t0, t1, t2, t3, t4) == if v < L then v else v - L
  {
    var b0, b1, b2, b3, b4;
    t0, b0 := Borrow(x0, 0x12631a5cf5d3ed, B56);
    t1, b1 := Borrow(x1, b0 + 0xf9dea2f79cd658, B56);
    t2, b2 := Borrow(x2, b1 + 0x14de, B56);
    t3, b3 := Borrow(x3, b2 + 0x0, B56);
    t4, b4 := Borrow(x4, b3 + 0x10000000, 0x100000000);
    BorrowValue(x0, x1, x2, x3, x4, 0x12631a5cf5d3ed, 0xf9dea2f79cd658, 0x14de, 0, 0x10000000,
                t0, t1, t2, t3, b0, b1, b2, b3);
    if b4 == 1 {
      t0, t1, t2, t3, t4 := x0, x1, x2, x3, x4;
    }
  }

  method Reduce(r: array<u64>)
    requires r.Length == 5 && Fits(r[..], B40)
    modifies r
    ensures Fits(r[..], B40)
    ensures Value(r[..]) == if old(Value(r[..])) < L then old(Value(r[..])) else old(Value(r[..])) - L
  {
    r[0], r[1], r[2], r[3], r[4] := ReduceLimbs(r[0], r[1], r[2], r[3], r[4]);
  }

  // ----- Barrett reduction -----

  /** A sum of partial products that leaves room in 128 bits for a 64-bit carry. */
  ghost predicate Column(s: int) {
    0 <= s < 0x800000000000000000000000000000
  }

  /** One 128-bit column: a limb and the carry into the next column. */
  method Carry(sum: int, carry: u64) returns (r: u64, f: u64)
    requires Column(sum)
    ensures r < B56 && sum + carry == r + B56 * f
  {
    var c: u128 := sum + carry;
    r, f := c % B56, c / B56;
  }

  /** One 128-bit column, cut where the quotient's limbs begin (bit 40 of the column). */
  method CutAt40(sum: int, carry: u64) returns (low: int, mid: int, f: u64, ghost a: int)
    requires Column(sum)
    ensures low == 0x10000 * a && 0 <= a < B40 && 0 <= mid < 0x10000
    ensures sum + carry == a + B40 * mid + B56 * f
  {
    var c: u128 := sum + carry;
    a := c % B40;
    ghost var t := c / B40;
    ghost var b, u := t % 0x10000, t / 0x10000;
    ghost var g, k := u % 0x100, u / 0x100;
    QuotRem(c, 0x1_0000_0000_0000_0000, k, a + B40 * b + B56 * g);
    f := Wrap64(c);
    QuotRem(f * 0x10000, 0x1_0000_0000_0000_0000, b / 0x100 + 0x100 * g, 0x10000 * a + B56 * (b % 0x100));
    QuotRem(0x10000 * a + B56 * (b % 0x100), B56, b % 0x100, 0x10000 * a);
    low := Wrap64(f * 0x10000) % B56;
    QuotRem(f, B40, b + 0x10000 * g, a);
    QuotRem(b + 0x10000 * g, 0x10000, g, b);
    mid := (f / B40) % 0x10000;
    QuotRem(c, B56, u, a + B40 * b);
    f := c / B56;
  }

  /** What the truncated multiplication by mu leaves out: columns 0 to 2 and the bits below 264. */
  function Dropped(x0: int, x1: int, x2: int, l3: int, a4: int): (e: int)
    requires Limb(x0) && Limb(x1) && Limb(x2) && Limb(l3) && 0 <= a4 < B40
    ensures 0 <= e < B264 + B264 / 0x10000000
  {
    0x9ce5a30a2c131b * x0 + 0x100000000000000 * (0x9ce5a30a2c131b * x1 + 0x215d086329a7ed * x0)
    + 0x10000000000000000000000000000 * (0x9ce5a30a2c131b * x2 + 0x215d086329a7ed * x1 + 0xffffffffeb2106 * x0)
    + 0x1000000000000000000000000000000000000000000 * l3
    + 0x100000000000000000000000000000000000000000000000000000000 * a4
  }

  lemma QuotientValue(x0: int, x1: int, x2: int, x3: int, x4: int, l3: int, f3: int,
                      a4: int, m4: int, f4: int, a5: int, m5: int, f5: int, a6: int, m6: int, f6: int,
                      a7: int, m7: int, f7: int, a8: int, m8: int, f8: int,
                      q0: int, q1: int, q2: int, q3: int, q4: int) returns (e: int)
    requires Limb(x0) && Limb(x1) && Limb(x2)
    requires 0x9ce5a30a2c131b * x3 + 0xffffffffffffff * x0 + 0x215d086329a7ed * x2 + 0xffffffffeb2106 * x1
             == l3 + B56 * f3 && Limb(l3)
    requires 0x9ce5a30a2c131b * x4 + 0xfffffffff * x0 + 0xffffffffffffff * x1 + 0x215d086329a7ed * x3
             + 0xffffffffeb2106 * x2 + f3 == a4 + B40 * m4 + B56 * f4 && 0 <= a4 < B40
    requires 0xfffffffff * x1 + 0x215d086329a7ed * x4 + 0xffffffffeb2106 * x3 + 0xffffffffffffff * x2 + f4
             == a5 + B40 * m5 + B56 * f5
    requires 0xfffffffff * x2 + 0xffffffffeb2106 * x4 + 0xffffffffffffff * x3 + f5 == a6 + B40 * m6 + B56 * f6
    requires 0xfffffffff * x3 + 0xffffffffffffff * x4 + f6 == a7 + B40 * m7 + B56 * f7
    requires 0xfffffffff * x4 + f7 == a8 + B40 * m8 + B56 * f8
    requires q0 == m4 + 0x10000 * a5 && q1 == m5 + 0x10000 * a6 && q2 == m6 + 0x10000 * a7
    requires q3 == m7 + 0x10000 * a8 && q4 == m8 + 0x10000 * f8
    requires Limb(x3) && 0 <= x4 < B40
    requires 0 <= a5 < B40 && 0 <= a6 < B40 && 0 <= a7 < B40 && 0 <= a8 < B40
    requires 0 <= m4 < 0x10000 && 0 <= m5 < 0x10000 && 0 <= m6 < 0x10000 && 0 <= m7 < 0x10000 && 0 <= m8 < 0x10000
    requires 0 <= f7 < 0x1_0000_0000_0000_0000 && 0 <= f8
    ensures Fit(q0, q1, q2, q3, q4, B40)
    ensures V5(x0, x1, x2, x3, x4) * MU == B264 * V5(q0, q1, q2, q3, q4) + e
    ensures 0 <= e < B264 + B264 / 0x10000000
  {
    e := Dropped(x0, x1, x2, l3, a4);
  }

  /** q3 = (mu * q1) >> 264, without the low partial products. */
  method BarrettQuotient(x0: int, x1: int, x2: int, x3: int, x4: int)
    returns (q0: int, q1: int, q2: int, q3: int, q4: int, ghost e: int)
    requires Fit(x0, x1, x2, x3, x4, B40)
    ensures Fit(q0, q1, q2, q3, q4, B40)
    ensures V5(x0, x1, x2, x3, x4) * MU == B264 * V5(q0, q1, q2, q3, q4) + e
    ensures 0 <= e < B264 + B264 / 0x10000000
  {
    ghost var a4, a5, a6, a7, a8, f4, f5, f6, f7, m4, m5, m6, m7;
    var lo, f := Carry(0x9ce5a30a2c131b * x3 + 0xffffffffffffff * x0 + 0x215d086329a7ed * x2 + 0xffffffffeb2106 * x1, 0);
    ghost var l3, f3 := lo, f;
    lo, q0, f, a4 := CutAt40(0x9ce5a30a2c131b * x4 + 0xfffffffff * x0 + 0xffffffffffffff * x1
                             + 0x215d086329a7ed * x3 + 0xffffffffeb2106 * x2, f);
    f4, m4 := f, q0;
    lo, q1, f, a5 := CutAt40(0xfffffffff * x1 + 0x215d086329a7ed * x4 + 0xffffffffeb2106 * x3 + 0xffffffffffffff * x2, f);
    f5, m5, q0 := f, q1, q0 + lo;
    lo, q2, f, a6 := CutAt40(0xfffffffff * x2 + 0xffffffffeb2106 * x4 + 0xffffffffffffff * x3, f);
    f6, m6, q1 := f, q2, q1 + lo;
    lo, q3, f, a7 := CutAt40(0xfffffffff * x3 + 0xffffffffffffff * x4, f);
    f7, m7, q2 := f, q3, q2 + lo;
    lo, q4, f, a8 := CutAt40(0xfffffffff * x4, f);
    q3 := q3 + lo;
    ghost var m8 := q4;
    q4 := q4 + f * 0x10000;
    e := QuotientValue(x0, x1, x2, x3, x4, l3, f3, a4, m4, f4, a5, m5, f5, a6, m6, f6, a7, m7, f7, a8, m8, f,
                       q0, q1, q2, q3, q4);
  }

  /** r2 = (q3 * L) mod 2^264. */
  method BarrettProduct(q0: int, q1: int, q2: int, q3: int, q4: int)
    returns (r0: u64, r1: u64, r2: u64, r3: u64, r4: u64, ghost h: int)
    requires Fit(q0, q1, q2, q3, q4, B40)
    ensures Fit(r0, r1, r2, r3, r4, B40)
    ensures V5(q0, q1, q2, q3, q4) * L == V5(r0, r1, r2, r3, r4) + B264 * h
  {
    var f: u64;
    r0, f := Carry(0x12631a5cf5d3ed * q0, 0);
    ghost var f0 := f;
    r1, f := Carry(0x12631a5cf5d3ed * q1 + 0xf9dea2f79cd658 * q0, f);
    ghost var f1 := f;
    r2, f := Carry(0x12631a5cf5d3ed * q2 + 0x14de * q0 + 0xf9dea2f79cd658 * q1, f);
    ghost var f2 := f;
    r3, f := Carry(0x12631a5cf5d3ed * q3 + 0x0 * q0 + 0xf9dea2f79cd658 * q2 + 0x14de * q1, f);
    var c: u128 := 0x12631a5cf5d3ed * q4 + f + 0x10000000 * q0 + 0x0 * q1 + 0xf9dea2f79cd658 * q3 + 0x14de * q2;
    r4 := c % B40;
    h := ProductValue(q0, q1, q2, q3, q4, r0, f0, r1, f1, r2, f2, r3, f, r4, c / B40);
  }

  lemma ProductValue(q0: int, q1: int, q2: int, q3: int, q4: int,
                     r0: int, f0: int, r1: int, f1: int, r2: int, f2: int, r3: int, f3: int, r4: int, f4: int)
    returns (h: int)
    requires 0x12631a5cf5d3ed * q0 == r0 + B56 * f0
    requires 0x12631a5cf5d3ed * q1 + 0xf9dea2f79cd658 * q0 + f0 == r1 + B56 * f1
    requires 0x12631a5cf5d3ed * q2 + 0x14de * q0 + 0xf9dea2f79cd658 * q1 + f1 == r2 + B56 * f2
    requires 0x12631a5cf5d3ed * q3 + 0xf9dea2f79cd658 * q2 + 0x14de * q1 + f2 == r3 + B56 * f3
    requires 0x12631a5cf5d3ed * q4 + f3 + 0x10000000 * q0 + 0xf9dea2f79cd658 * q3 + 0x14de * q2 == r4 + B40 * f4
    ensures V5(q0, q1, q2, q3, q4) * L == V5(r0, r1, r2, r3, r4) + B264 * h
  {
    h := f4 + 0x10000 * (0xf9dea2f79cd658 * q4 + 0x14de * q3 + 0x10000000 * q1)
         + 0x1000000000000000000 * (0x14de * q4 + 0x10000000 * q2)
         + 0x100000000000000000000000000000000 * (0x10000000 * q3)
         + 0x10000000000000000000000000000000000000000000000 * (0x10000000 * q4);
  }

  /**
   Barrett's estimate is at most two short, although the low partial products were dropped:
   two conditional subtractions are enough.
   */
  lemma BarrettBound(x: int, q1: int, q3: int, e: int)
    requires 0 <= x < B512 && q1 == x / B248
    requires q1 * MU == B264 * q3 + e
    requires 0 <= e < B264 + B264 / 0x10000000
    ensures 0 <= x - q3 * L < 3 * L
  {
  }

  /** r1 - r2 modulo 2^264. */
  method Difference(x0: u64, x1: u64, x2: u64, x3: u64, x4: u64, y0: int, y1: int, y2: int, y3: int, y4: int)
    returns (t0: u64, t1: u64, t2: u64, t3: u64, t4: u64, ghost k: int)
    requires Fit(x0, x1, x2, x3, x4, B40) && Fit(y0, y1, y2, y3, y4, B40)
    ensures Fit(t0, t1, t2, t3, t4, B40)
    ensures V5(t0, t1, t2, t3, t4) == V5(x0, x1, x2, x3, x4) - V5(y0, y1, y2, y3, y4) + B264 * k
  {
    var b0, b1, b2, b3, b4;
    t0, b0 := Borrow(x0, y0, B56);
    t1, b1 := Borrow(x1, b0 + y1, B56);
    t2, b2 := Borrow(x2, b1 + y2, B56);
    t3, b3 := Borrow(x3, b2 + y3, B56);
    t4, b4 := Borrow(x4, b3 + y4, B40);
    BorrowValue(x0, x1, x2, x3, x4, y0, y1, y2, y3, y4, t0, t1, t2, t3, b0, b1, b2, b3);
    k := b4;
  }

  /** The three stages of Barrett reduction, on the numbers. */
  lemma BarrettValue(x: int, q1: int, r1: int, q3: int, e: int, r2: int, h: int, r: int, k: int)
    requires 0 <= x < B512 && q1 == x / B248 && r1 == x % B264
    requires q1 * MU == B264 * q3 + e && 0 <= e < B264 + B264 / 0x10000000
    requires q3 * L == r2 + B264 * h
    requires r == r1 - r2 + B264 * k && 0 <= r < B264
    ensures r == x - q3 * L && 0 <= r < 3 * L
  {
    BarrettBound(x, q1, q3, e);
    var d := x - q3 * L;
    assert r - d == B264 * (k - x / B264 + h);
  }

  lemma TwoSubtractions(x: int, q: int, r: int, s: int, t: int)
    requires r == x - q * L && 0 <= r < 3 * L
    requires s == if r < L then r else r - L
    requires t == if s < L then s else s - L
    ensures t == x % L
  {
    if r < L {
      QuotRem(x, L, q, t);
    } else if r < 2 * L {
      QuotRem(x, L, q + 1, t);
    } else {
      QuotRem(x, L, q + 2, t);
    }
  }

  /**
   For every x below 2^512, given its top limbs `q1` and its low limbs `r1`, the result is x mod L.
   `r` may be `r1`.
   */
  method Barrett(r: array<u64>, q1: array<u64>, r1: array<u64>, ghost x: int)
    requires r.Length == 5 && Fits(q1[..], B40) && Fits(r1[..], B40)
    requires 0 <= x < B512 && Value(q1[..]) == x / B248 && Value(r1[..]) == x % B264
    modifies r
    ensures Fits(r[..], B40) && Value(r[..]) == x % L
  {
    var u0, u1, u2, u3, u4, e := BarrettQuotient(q1[0], q1[1], q1[2], q1[3], q1[4]);
    var p0, p1, p2, p3, p4, h := BarrettProduct(u0, u1, u2, u3, u4);
    var d0, d1, d2, d3, d4, k := Difference(r1[0], r1[1], r1[2], r1[3], r1[4], p0, p1, p2, p3, p4);
    ghost var q := V5(u0, u1, u2, u3, u4);
    BarrettValue(x, Value(q1[..]), Value(r1[..]), q, e, V5(p0, p1, p2, p3, p4), h, V5(d0, d1, d2, d3, d4), k);
    r[0], r[1], r[2], r[3], r[4] := d0, d1, d2, d3, d4;
    ghost var v0 := Value(r[..]);
    Reduce(r);
    ghost var v1 := Value(r[..]);
    Reduce(r);
    TwoSubtractions(x, q, v0, v1, Value(r[..]));
  }

  // ----- addition and multiplication -----

  method Add(r: array<u64>, x: array<u64>, y: array<u64>)
    requires r.Length == 5 && Fits(x[..], B40) && Fits(y[..], B40)
    requires Value(x[..]) < L && Value(y[..]) < L
    modifies r
    ensures Fits(r[..], B40) && Value(r[..]) == (old(Value(x[..])) + old(Value(y[..]))) % L
  {
    ghost var v := Value(x[..]) + Value(y[..]);
    var c0, c1, c2, c3, c4, f;
    c0, f := Carry(x[0] as int + y[0] as int, 0);
    c1, f := Carry(x[1] as int + y[1] as int, f);
    c2, f := Carry(x[2] as int + y[2] as int, f);
    c3, f := Carry(x[3] as int + y[3] as int, f);
    c4 := f + x[4] + y[4];
    assert V5(c0, c1, c2, c3, c4) == v;
    r[0], r[1], r[2], r[3], r[4] := c0, c1, c2, c3, c4;
    Reduce(r);
    QuotRem(v, L, if v < L then 0 else 1, Value(r[..]));
  }

  /** The columns of a product of two five-limb numbers. */
  lemma Columns(x0: int, x1: int, x2: int, x3: int, x4: int, y0: int, y1: int, y2: int, y3: int, y4: int)
    ensures V5(x0, x1, x2, x3, x4) * V5(y0, y1, y2, y3, y4) ==
            V5(x0 * y0, x0 * y1 + x1 * y0, x0 * y2 + x2 * y0 + x1 * y1,
               x0 * y3 + x3 * y0 + x1 * y2 + x2 * y1,
               x0 * y4 + x4 * y0 + x3 * y1 + x1 * y3 + x2 * y2)
            + 0x10000000000000000000000000000000000000000000000000000000000000000000000 *
            V5(x4 * y1 + x1 * y4 + x2 * y3 + x3 * y2, x4 * y2 + x2 * y4 + x3 * y3, x4 * y3 + x3 * y4, x4 * y4, 0)
  {
    Row(V5(y0, y1, y2, y3, y4), x0, x1, x2, x3, x4);
    Row(x0, y0, y1, y2, y3, y4);
    Row(x1, y0, y1, y2, y3, y4);
    Row(x2, y0, y1, y2, y3, y4);
    Row(x3, y0, y1, y2, y3, y4);
    Row(x4, y0, y1, y2, y3, y4);
  }

  lemma Row(x: int, y0: int, y1: int, y2: int, y3: int, y4: int)
    ensures x * V5(y0, y1, y2, y3, y4) == V5(x * y0, x * y1, x * y2, x * y3, x * y4)
  {
  }

  lemma ProductsBelow(x0: int, x1: int, x2: int, x3: int, x4: int, y0: int, y1: int, y2: int, y3: int, y4: int)
    requires Fit(x0, x1, x2, x3, x4, 0x1_0000_0000) && Fit(y0, y1, y2, y3, y4, 0x1_0000_0000)
    ensures forall x, y :: x in {x0, x1, x2, x3, x4} && y in {y0, y1, y2, y3, y4} ==> 0 <= x * y < 0x10000000000000000000000000000
    ensures 0 <= x4 * y4 < 0x1_0000_0000_0000_0000
  {
    forall x, y | x in {x0, x1, x2, x3, x4} && y in {y0, y1, y2, y3, y4}
      ensures 0 <= x * y < 0x10000000000000000000000000000
    {
      MulBelow(x, y, B56 - 1, B56 - 1);
    }
    MulBelow(x4, y4, 0xFFFF_FFFF, 0xFFFF_FFFF);
  }

  /** One 128-bit column, cut at bit 24, where the limbs of the high part begin. */
  method CutAt24(sum: int, carry: u64) returns (low: int, mid: int, f: u64, ghost a: int)
    requires Column(sum)
    ensures low == 0x100000000 * a && 0 <= a < 0x1000000 && 0 <= mid < 0x100000000
    ensures sum + carry == a + 0x1000000 * mid + B56 * f
  {
    var c: u128 := sum + carry;
    a := c % 0x1000000;
    ghost var t := c / 0x1000000;
    ghost var b, u := t % 0x100000000, t / 0x100000000;
    ghost var g, k := u % 0x100, u / 0x100;
    QuotRem(c, 0x1_0000_0000_0000_0000, k, a + 0x1000000 * b + B56 * g);
    f := Wrap64(c);
    QuotRem(f * 0x100000000, 0x1_0000_0000_0000_0000, b / 0x100 + 0x1000000 * g, 0x100000000 * a + B56 * (b % 0x100));
    QuotRem(0x100000000 * a + B56 * (b % 0x100), B56, b % 0x100, 0x100000000 * a);
    low := Wrap64(f * 0x100000000) % B56;
    QuotRem(f, 0x1000000, b + 0x100000000 * g, a);
    QuotRem(b + 0x100000000 * g, 0x100000000, g, b);
    mid := (f / 0x1000000) % 0x100000000;
    QuotRem(c, B56, u, a + 0x1000000 * b);
    f := c / B56;
  }

  /** The number nine columns stand for. */
  function V9(s0: int, s1: int, s2: int, s3: int, s4: int, s5: int, s6: int, s7: int, s8: int): int {
    V5(s0, s1, s2, s3, s4)
    + 0x10000000000000000000000000000000000000000000000000000000000000000000000 * V5(s5, s6, s7, s8, 0)
  }

  /** Low part: the product modulo 2^264. */
  method LowLimbs(s0: int, s1: int, s2: int, s3: int) returns (r0: u64, r1: u64, r2: u64, r3: u64, f: u64)
    requires Column(s0) && Column(s1) && Column(s2) && Column(s3)
    ensures Fit(r0, r1, r2, r3, 0, 1)
    ensures V5(s0, s1, s2, s3, 0) == V5(r0, r1, r2, r3, f)
  {
    r0, f := Carry(s0, 0);
    r1, f := Carry(s1, f);
    r2, f := Carry(s2, f);
    r3, f := Carry(s3, f);
  }

  /** High part: the product shifted right by 248, and the limb of the low part it overlaps. */
  method HighLimbs(s4: int, s5: int, s6: int, s7: int, s8: int, carry: u64)
    returns (r4: u64, q0: int, q1: int, q2: int, q3: int, q4: int, ghost a: int)
    requires Column(s4) && Column(s5) && Column(s6) && Column(s7)
    requires 0 <= s8 < 0x1_0000_0000_0000_0000
    requires V5(s4 + carry, s5, s6, s7, s8) < 0x1000000 * B264
    ensures Fit(q0, q1, q2, q3, q4, B40)
    ensures V5(s4 + carry, s5, s6, s7, s8) == a + 0x1000000 * V5(q0, q1, q2, q3, q4) && 0 <= a < 0x1000000
    ensures r4 == a + 0x1000000 * (V5(q0, q1, q2, q3, q4) % 0x10000)
  {
    ghost var a5, a6, a7, a8;
    var lo, f;
    lo, q0, f, a := CutAt24(s4, carry);
    r4 := Wrap64(s4 + carry) % B40;
    ghost var m, f4 := q0, f;
    lo, q1, f, a5 := CutAt24(s5, f);
    q0 := q0 + lo;
    lo, q2, f, a6 := CutAt24(s6, f);
    q1 := q1 + lo;
    lo, q3, f, a7 := CutAt24(s7, f);
    q2 := q2 + lo;
    lo, q4, f, a8 := CutAt24(s8, f);
    q3 := q3 + lo;
    q4 := q4 + f * 0x100000000;
    Overlap(s4 + carry, a, m, f4, a5, q0, q1, q2, q3, q4);
  }

  lemma Overlap(c: int, a: int, m: int, f: int, a5: int, q0: int, q1: int, q2: int, q3: int, q4: int)
    requires c == a + 0x1000000 * m + B56 * f && 0 <= a < 0x1000000 && 0 <= m < 0x100000000 && 0 <= f
    requires q0 == m + 0x100000000 * a5
    ensures Wrap64(c) % B40 == a + 0x1000000 * (V5(q0, q1, q2, q3, q4) % 0x10000)
  {
    QuotRem(c, 0x1_0000_0000_0000_0000, f / 0x100, a + 0x1000000 * m + B56 * (f % 0x100));
    QuotRem(Wrap64(c), B40, m / 0x10000 + 0x10000 * (f % 0x100), a + 0x1000000 * (m % 0x10000));
    QuotRem(V5(q0, q1, q2, q3, q4), 0x10000,
            m / 0x10000 + 0x10000 * a5 + 0x10000000000 * V5(q1, q2, q3, q4, 0), m % 0x10000);
  }

  /** How the low limbs and the high limbs of a product overlap: Barrett's r1 and q1. */
  lemma SplitValue(v: int, low: int, a: int, q: int, r4: int)
    requires v == low + 0x100000000000000000000000000000000000000000000000000000000 * (a + 0x1000000 * q)
    requires 0 <= low < 0x100000000000000000000000000000000000000000000000000000000 && 0 <= a < 0x1000000
    requires r4 == a + 0x1000000 * (q % 0x10000)
    ensures v / B248 == q
    ensures v % B264 == low + 0x100000000000000000000000000000000000000000000000000000000 * r4
  {
    QuotRem(v, B248, q, low + 0x100000000000000000000000000000000000000000000000000000000 * a);
    QuotRem(v, B264, q / 0x10000, low + 0x100000000000000000000000000000000000000000000000000000000 * r4);
  }

  lemma HighBelow(s0: int, s1: int, s2: int, s3: int, s4: int, s5: int, s6: int, s7: int, s8: int,
                  r0: int, r1: int, r2: int, r3: int, f: int)
    requires V9(s0, s1, s2, s3, s4, s5, s6, s7, s8) < B512
    requires V5(s0, s1, s2, s3, 0) == V5(r0, r1, r2, r3, f) && 0 <= r0 && 0 <= r1 && 0 <= r2 && 0 <= r3
    ensures V5(s4 + f, s5, s6, s7, s8) < 0x1000000 * B264
    ensures V9(s0, s1, s2, s3, s4, s5, s6, s7, s8) ==
            V5(r0, r1, r2, r3, 0) + 0x100000000000000000000000000000000000000000000000000000000 * V5(s4 + f, s5, s6, s7, s8)
  {
  }

  lemma ProductBelow(x: int, y: int, b: int)
    requires 0 <= x < b && 0 <= y < b
    ensures 0 <= x * y < b * b
  {
    MulBelow(x, y, b - 1, b - 1);
    assert (b - 1) * (b - 1) < b * b;
  }

  /** The nine columns of a 256-bit by 256-bit product. */
  method ProductColumns(x0: int, x1: int, x2: int, x3: int, x4: int, y0: int, y1: int, y2: int, y3: int, y4: int)
    returns (s0: int, s1: int, s2: int, s3: int, s4: int, s5: int, s6: int, s7: int, s8: int)
    requires Fit(x0, x1, x2, x3, x4, 0x1_0000_0000) && Fit(y0, y1, y2, y3, y4, 0x1_0000_0000)
    ensures V9(s0, s1, s2, s3, s4, s5, s6, s7, s8) == V5(x0, x1, x2, x3, x4) * V5(y0, y1, y2, y3, y4)
    ensures Column(s0) && Column(s1) && Column(s2) && Column(s3) && Column(s4) && Column(s5) && Column(s6) && Column(s7)
    ensures 0 <= s8 < 0x1_0000_0000_0000_0000
  {
    Columns(x0, x1, x2, x3, x4, y0, y1, y2, y3, y4);
    ProductsBelow(x0, x1, x2, x3, x4, y0, y1, y2, y3, y4);
    s0 := x0 * y0;
    s1 := x0 * y1 + x1 * y0;
    s2 := x0 * y2 + x2 * y0 + x1 * y1;
    s3 := x0 * y3 + x3 * y0 + x1 * y2 + x2 * y1;
    s4 := x0 * y4 + x4 * y0 + x3 * y1 + x1 * y3 + x2 * y2;
    s5 := x4 * y1 + x1 * y4 + x2 * y3 + x3 * y2;
    s6 := x4 * y2 + x2 * y4 + x3 * y3;
    s7 := x4 * y3 + x3 * y4;
    s8 := x4 * y4;
  }

  /** For all 256-bit x and y the result is x * y mod L. `r` may be `x` or `y`. */
  method Mul(r: array<u64>, x: array<u64>, y: array<u64>)
    requires r.Length == 5 && Fits(x[..], 0x1_0000_0000) && Fits(y[..], 0x1_0000_0000)
    modifies r
    ensures Fits(r[..], B40) && Value(r[..]) == (old(Value(x[..])) * old(Value(y[..]))) % L
  {
    ghost var v := Value(x[..]) * Value(y[..]);
    ProductBelow(Value(x[..]), Value(y[..]), 0x1_0000000000000000000000000000000000000000000000000000000000000000);
    var s0, s1, s2, s3, s4, s5, s6, s7, s8 :=
      ProductColumns(x[0], x[1], x[2], x[3], x[4], y[0], y[1], y[2], y[3], y[4]);
    var q1, r1 := SplitColumns(s0, s1, s2, s3, s4, s5, s6, s7, s8);
    Barrett(r, q1, r1, v);
  }

  method SplitColumns(s0: int, s1: int, s2: int, s3: int, s4: int, s5: int, s6: int, s7: int, s8: int)
    returns (q1: array<u64>, r1: array<u64>)
    requires Column(s0) && Column(s1) && Column(s2) && Column(s3) && Column(s4) && Column(s5) && Column(s6) && Column(s7)
    requires 0 <= s8 < 0x1_0000_0000_0000_0000
    requires 0 <= V9(s0, s1, s2, s3, s4, s5, s6, s7, s8) < B512
    ensures fresh(q1) && fresh(r1) && Fits(q1[..], B40) && Fits(r1[..], B40)
    ensures var v := V9(s0, s1, s2, s3, s4, s5, s6, s7, s8); Value(q1[..]) == v / B248 && Value(r1[..]) == v % B264
  {
    var r0, l1, r2, r3, f := LowLimbs(s0, s1, s2, s3);
    HighBelow(s0, s1, s2, s3, s4, s5, s6, s7, s8, r0, l1, r2, r3, f);
    var r4, q0, h1, q2, q3, q4, a := HighLimbs(s4, s5, s6, s7, s8, f);
    SplitValue(V9(s0, s1, s2, s3, s4, s5, s6, s7, s8), V5(r0, l1, r2, r3, 0), a, V5(q0, h1, q2, q3, q4), r4);
    q1 := new u64[][q0, h1, q2, q3, q4];
    r1 := new u64[][r0, l1, r2, r3, r4];
  }
}
