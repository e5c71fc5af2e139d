/**
 Double-scalar and base-point multiplication over an abstract group, as
 crypto/ed25519-donna-impl-base.h computes them. The table of multiples of the base point is
 an assumption about constant data; the table of multiples of the other point is built here.
 */
module ScalarMult {
  import opened Words
  import opened ScalarField
  import opened Groups
  import Recoding
  import WindowFour

  /** Entry i of a table of odd multiples. */
  ghost predicate OddMultiples<G(!new)>(g: Group<G>, table: seq<G>, p: G) {
    forall i :: 0 <= i < |table| ==> table[i] == Times(g, 2 * i + 1, p)
  }

  lemma DigitIndex(d: int, w: nat, magnitude: nat)
    requires w > 1 && Recoding.Digit(d, w) && magnitude == if d < 0 then -d else d
    ensures 2 * (magnitude / 2) + 1 == magnitude && magnitude / 2 < Recoding.P2(w - 2)
  {
  }

  /** Adds the table entry a nonzero digit stands for, or its negative when the sign bit is set. */
  method AddDigit<G(!new)>(g: Group<G>, t: G, table: seq<G>, d: int, w: nat, ghost p: G) returns (r: G)
    requires Abelian(g) && w > 1 && Recoding.Digit(d, w)
    requires |table| == Recoding.P2(w - 2) && OddMultiples(g, table, p)
    ensures r == g.add(t, Times(g, d, p))
  {
    var magnitude := if d < 0 then -d else d;
    DigitIndex(d, w, magnitude);
    var entry := table[magnitude / 2];
    if d < 0 {
      TimesNeg(g, magnitude, p);
      r := g.add(t, g.neg(entry));
    } else {
      r := g.add(t, entry);
    }
  }

  /** The table [1]p, [3]p, ..., [15]p. */
  method BuildTable<G(!new)>(g: Group<G>, p: G) returns (pre: seq<G>)
    requires Abelian(g)
    ensures |pre| == 8 && OddMultiples(g, pre, p)
  {
    var d := g.add(p, p);
    assert Times(g, 1, p) == g.add(p, Times(g, 0, p)) == p;
    TimesTwo(g, 1, p);
    pre := [p];
    var i := 0;
    while i < 7
      invariant 0 <= i <= 7 && |pre| == i + 1
      invariant OddMultiples(g, pre, p)
    {
      TimesAdd(g, 2, 2 * i + 1, p);
      pre := pre + [g.add(d, pre[i])];
      i := i + 1;
    }
  }

  /** One digit position: double, then add both digits. */
  lemma HornerStep<G(!new)>(g: Group<G>, p: G, b: G, n1: int, n2: int, d1: int, d2: int, r: G)
    requires Abelian(g) && r == g.add(Times(g, n1, p), Times(g, n2, b))
    ensures g.add(g.add(g.add(r, r), Times(g, d1, p)), Times(g, d2, b)) ==
            g.add(Times(g, d1 + 2 * n1, p), Times(g, d2 + 2 * n2, b))
  {
    var x, y, u, v := Times(g, n1, p), Times(g, n2, b), Times(g, d1, p), Times(g, d2, b);
    Exchange(g, x, y, x, y);
    TimesTwo(g, n1, p);
    TimesTwo(g, n2, b);
    var xx, yy := Times(g, 2 * n1, p), Times(g, 2 * n2, b);
    Associate(g, g.add(xx, yy), u, v);
    Exchange(g, xx, yy, u, v);
    TimesAdd(g, 2 * n1, d1, p);
    TimesAdd(g, 2 * n2, d2, b);
  }

  /** The loop body: r becomes 2r + [d1]p + [d2]base. */
  method DigitPosition<G(!new)>(g: Group<G>, ghost p: G, ghost base: G, pre: seq<G>, multiples: seq<G>,
                                d1: int, d2: int, r: G, ghost n1: int, ghost n2: int) returns (t: G)
    requires Abelian(g) && r == g.add(Times(g, n1, p), Times(g, n2, base))
    requires |pre| == 8 && OddMultiples(g, pre, p) && |multiples| == 32 && OddMultiples(g, multiples, base)
    requires d1 != 0 ==> Recoding.Digit(d1, 5)
    requires d2 != 0 ==> Recoding.Digit(d2, 7)
    ensures t == g.add(Times(g, d1 + 2 * n1, p), Times(g, d2 + 2 * n2, base))
  {
    HornerStep(g, p, base, n1, n2, d1, d2, r);
    t := g.add(r, r);
    if d1 != 0 {
      t := AddDigit(g, t, pre, d1, 5, p);
    }
    if d2 != 0 {
      t := AddDigit(g, t, multiples, d2, 7, base);
    }
  }

  /** The highest position at which one of the scalars has a digit. */
  method TopDigit(slide1: seq<int>, slide2: seq<int>) returns (i: int)
    requires |slide1| == |slide2| == 256
    ensures -1 <= i < 256
    ensures Recoding.Eval(slide1[i + 1..]) == 0 && Recoding.Eval(slide2[i + 1..]) == 0
  {
    i := 255;
    while i >= 0 && slide1[i] == 0 && slide2[i] == 0
      invariant -1 <= i < 256
      invariant Recoding.Gap(slide1, i + 1, 256) && Recoding.Gap(slide2, i + 1, 256)
    {
      i := i - 1;
    }
    Recoding.GapTail(slide1, i + 1);
    Recoding.GapTail(slide2, i + 1);
  }

  /** Scanning the digits from the top gives the sum the digits stand for. */
  lemma EvalFrom(s: seq<int>, i: nat)
    requires i < |s|
    ensures Recoding.Eval(s[i..]) == s[i] + 2 * Recoding.Eval(s[i + 1..])
  {
    assert s[i..][1..] == s[i + 1..];
  }

  method ScanDigits<G(!new)>(g: Group<G>, ghost p: G, ghost base: G, pre: seq<G>, multiples: seq<G>,
                             slide1: seq<int>, slide2: seq<int>) returns (r: G)
    requires Abelian(g) && |slide1| == |slide2| == 256
    requires |pre| == 8 && OddMultiples(g, pre, p) && |multiples| == 32 && OddMultiples(g, multiples, base)
    requires forall k :: 0 <= k < 256 && slide1[k] != 0 ==> Recoding.Digit(slide1[k], 5)
    requires forall k :: 0 <= k < 256 && slide2[k] != 0 ==> Recoding.Digit(slide2[k], 7)
    ensures r == g.add(Times(g, Recoding.Eval(slide1), p), Times(g, Recoding.Eval(slide2), base))
  {
    assert slide1[0..] == slide1 && slide2[0..] == slide2;
    r := g.zero;
    var i := TopDigit(slide1, slide2);
    while i >= 0
      invariant -1 <= i < 256
      invariant r == g.add(Times(g, Recoding.Eval(slide1[i + 1..]), p), Times(g, Recoding.Eval(slide2[i + 1..]), base))
    {
      ghost var n1, n2 := Recoding.Eval(slide1[i + 1..]), Recoding.Eval(slide2[i + 1..]);
      EvalFrom(slide1, i);
      EvalFrom(slide2, i);
      r := DigitPosition(g, p, base, pre, multiples, slide1[i], slide2[i], r, n1, n2);
      i := i - 1;
    }
  }

  /** [s1]p + [s2]base for all scalars up to 2^255. */
  method DoubleScalarMult<G(!new)>(g: Group<G>, p: G, base: G, multiples: seq<G>, s1: array<u64>, s2: array<u64>)
    returns (r: G)
    requires Abelian(g) && |multiples| == 32 && OddMultiples(g, multiples, base)
    requires Fits(s1[..], 0x1_0000_0000) && Value(s1[..]) <= B255
    requires Fits(s2[..], 0x1_0000_0000) && Value(s2[..]) <= B255
    ensures r == g.add(Times(g, Value(s1[..]), p), Times(g, Value(s2[..]), base))
  {
    var slide1, slide2 := new int[256], new int[256];
    Recoding.SlidingWindow(slide1, s1, 5);
    Recoding.SlidingWindow(slide2, s2, 7);
    var pre1 := BuildTable(g, p);
    r := ScanDigits(g, p, base, pre1, multiples, slide1[..], slide2[..]);
  }

  // ----- base-point multiplication -----

  /** Entry 8k + i of the base-point table is [(i + 1) * 256^k]base. */
  ghost predicate WindowTable<G(!new)>(g: Group<G>, table: seq<G>, base: G) {
    |table| == 256 &&
    forall j :: 0 <= j < 256 ==> table[j] == Times(g, (j % 8 + 1) * WindowFour.P16(2 * (j / 8)), base)
  }

  /** The multiple a window digit stands for, selected by scanning the eight entries of its row. */
  method Choose<G(!new)>(g: Group<G>, table: seq<G>, pos: nat, b: int, ghost base: G) returns (t: G)
    requires Abelian(g) && WindowTable(g, table, base) && pos < 32 && -8 <= b <= 8
    ensures t == Times(g, b * WindowFour.P16(2 * pos), base)
  {
    var u := if b < 0 then -b else b;
    t := g.zero;
    var i := 0;
    while i < 8
      invariant 0 <= i <= 8
      invariant t == if 1 <= u <= i then table[8 * pos + (u - 1)] else g.zero
    {
      if u == i + 1 {
        t := table[8 * pos + i];
      }
      i := i + 1;
    }
    RowEntry(g, table, pos, u, base);
    if b < 0 {
      NegatedEntry(g, b, u, WindowFour.P16(2 * pos), base);
      t := g.neg(t);
    }
  }

  lemma RowEntry<G(!new)>(g: Group<G>, table: seq<G>, pos: nat, u: nat, base: G)
    requires WindowTable(g, table, base) && pos < 32 && u <= 8
    ensures Times(g, u * WindowFour.P16(2 * pos), base) == if u == 0 then g.zero else table[8 * pos + (u - 1)]
  {
    if u > 0 {
      QuotRem(8 * pos + (u - 1), 8, pos, u - 1);
    }
  }

  lemma NegatedEntry<G(!new)>(g: Group<G>, b: int, u: nat, p: nat, base: G)
    requires Abelian(g) && u == -b
    ensures Times(g, b * p, base) == g.neg(Times(g, u * p, base))
  {
    TimesNeg(g, u * p, base);
    assert -(u * p) == b * p;
  }

  /** The digits at positions 2k + side, weighted by 256^k, below n. */
  function SideSum(d: seq<int>, side: nat, n: nat): int
    requires side < 2 && 2 * n <= |d|
  {
    if n == 0 then 0 else SideSum(d, side, n - 1) + d[2 * (n - 1) + side] * WindowFour.P16(2 * (n - 1))
  }

  lemma {:induction false} TwoSides(d: seq<int>, n: nat)
    requires 2 * n <= |d|
    ensures WindowFour.Eval16(d[..2 * n]) == SideSum(d, 0, n) + 16 * SideSum(d, 1, n)
  {
    if n > 0 {
      TwoSides(d, n - 1);
      var m := 2 * (n - 1);
      assert d[..2 * n] == d[..m] + d[m..2 * n];
      WindowFour.Eval16Append(d[..m], d[m..2 * n]);
      assert d[m..2 * n] == [d[m], d[m + 1]];
      assert WindowFour.Eval16([d[m], d[m + 1]]) == d[m] + 16 * d[m + 1] by {
        assert [d[m], d[m + 1]][1..] == [d[m + 1]];
        assert WindowFour.Eval16([d[m + 1]]) == d[m + 1];
      }
      Weigh(WindowFour.P16(m), d[m], d[m + 1]);
    }
  }

  lemma Weigh(p: int, a: int, b: int)
    ensures p * (a + 16 * b) == a * p + 16 * (b * p)
  {
  }

  /** Adds the multiples the digits on one side stand for, from position 1 on. */
  method AddSide<G(!new)>(g: Group<G>, table: seq<G>, d: seq<int>, side: nat, r: G, ghost n: int, ghost base: G)
    returns (t: G, ghost m: int)
    requires Abelian(g) && WindowTable(g, table, base) && side < 2
    requires |d| == 64 && forall k :: 0 <= k < 64 ==> -8 <= d[k] <= 8
    requires r == Times(g, n, base)
    ensures t == Times(g, m, base) && m == n + SideSum(d, side, 32) - SideSum(d, side, 1)
  {
    t, m := r, n;
    var i := 1;
    while i < 32
      invariant 1 <= i <= 32
      invariant t == Times(g, m, base) && m == n + SideSum(d, side, i) - SideSum(d, side, 1)
    {
      t, m := AddChosen(g, table, i, d[2 * i + side], t, m, base);
      i := i + 1;
    }
  }

  method AddChosen<G(!new)>(g: Group<G>, table: seq<G>, pos: nat, b: int, r: G, ghost n: int, ghost base: G)
    returns (t: G, ghost m: int)
    requires Abelian(g) && WindowTable(g, table, base) && pos < 32 && -8 <= b <= 8
    requires r == Times(g, n, base)
    ensures t == Times(g, m, base) && m == n + b * WindowFour.P16(2 * pos)
  {
    var c := Choose(g, table, pos, b, base);
    ghost var y := b * WindowFour.P16(2 * pos);
    TimesAdd(g, n, y, base);
    t, m := g.add(r, c), n + y;
  }

  /** Four doublings. */
  method TimesSixteen<G(!new)>(g: Group<G>, r: G, ghost n: int, ghost base: G) returns (t: G)
    requires Abelian(g) && r == Times(g, n, base)
    ensures t == Times(g, 16 * n, base)
  {
    TimesTwo(g, n, base);
    t := g.add(r, r);
    TimesTwo(g, 2 * n, base);
    t := g.add(t, t);
    TimesTwo(g, 4 * n, base);
    t := g.add(t, t);
    TimesTwo(g, 8 * n, base);
    t := g.add(t, t);
  }

  /** The odd digits first, then sixteen times that, then the even digits. */
  method SumDigits<G(!new)>(g: Group<G>, table: seq<G>, b: seq<int>, ghost base: G) returns (r: G, ghost n: int)
    requires Abelian(g) && WindowTable(g, table, base)
    requires |b| == 64 && forall k :: 0 <= k < 64 ==> -8 <= b[k] <= 8
    ensures r == Times(g, n, base) && n == SideSum(b, 0, 32) + 16 * SideSum(b, 1, 32)
  {
    FirstOfSide(b, 0);
    FirstOfSide(b, 1);
    r := Choose(g, table, 0, b[1], base);
    r, n := AddSide(g, table, b, 1, r, b[1] * WindowFour.P16(2 * 0), base);
    r := TimesSixteen(g, r, n, base);
    r, n := AddChosen(g, table, 0, b[0], r, 16 * n, base);
    r, n := AddSide(g, table, b, 0, r, n, base);
  }

  lemma FirstOfSide(b: seq<int>, side: nat)
    requires side < 2 && |b| == 64
    ensures SideSum(b, side, 1) == b[side] * WindowFour.P16(2 * 0)
  {
  }

  lemma BothSides(d: seq<int>)
    requires |d| == 64
    ensures WindowFour.Eval16(d) == SideSum(d, 0, 32) + 16 * SideSum(d, 1, 32)
  {
    TwoSides(d, 32);
    assert d[..2 * 32] == d;
  }

  /** [s]base for all scalars below 2^255. */
  method ScalarMultBase<G(!new)>(g: Group<G>, table: seq<G>, s: array<u64>, ghost base: G) returns (r: G)
    requires Abelian(g) && WindowTable(g, table, base)
    requires Fits(s[..], 0x1_0000_0000) && Value(s[..]) < B255
    ensures r == Times(g, Value(s[..]), base)
  {
    var b := new int[64];
    WindowFour.WindowDigits(b, s);
    BothSides(b[..]);
    ghost var n;
    r, n := SumDigits(g, table, b[..], base);
  }
}
