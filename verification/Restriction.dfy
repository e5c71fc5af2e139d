/**
 * Restricting one pattern by another: the two-ended merge that intersects a requested name with the name a
 * permission was granted on.
 */
module Restriction {
  import opened Options
  import opened Patterns

  // ---- what the merge computes ----

  predicate Compatible(x: Cell, y: Cell) {
    x != Star && y != Star && (x == y || x == Plus || y == Plus)
  }

  function MeetCell(x: Cell, y: Cell): Cell {
    if x == y || y == Plus then x else y
  }

  function Max(a: nat, b: nat): nat {
    if a < b then b else a
  }

  predicate FrontsAgree(x: seq<Cell>, y: seq<Cell>) {
    forall i :: 0 <= i < |x| && i < |y| ==> Compatible(x[i], y[i])
  }

  /** Two prefixes laid over one another. */
  function Front(x: seq<Cell>, y: seq<Cell>): (r: seq<Cell>) {
    seq(Max(|x|, |y|), i requires 0 <= i < Max(|x|, |y|) =>
      if i >= |x| then y[i] else if i >= |y| then x[i] else MeetCell(x[i], y[i]))
  }

  predicate BacksAgree(x: seq<Cell>, y: seq<Cell>) {
    forall i :: 0 <= i < |x| && 0 <= i - |x| + |y| ==> Compatible(x[i], y[i - |x| + |y|])
  }

  /** Two suffixes laid over one another, right-aligned. */
  function Back(x: seq<Cell>, y: seq<Cell>): (r: seq<Cell>) {
    seq(Max(|x|, |y|), i requires 0 <= i < Max(|x|, |y|) =>
      if i < |y| - |x| then y[i] else if i < |x| - |y| then x[i]
      else MeetCell(x[i - Max(|x|, |y|) + |x|], y[i - Max(|x|, |y|) + |y|]))
  }

  /** A starless list with a starred pattern laid over both its ends. */
  function Inlay(c: seq<Cell>, pre: seq<Cell>, suf: seq<Cell>): (r: seq<Cell>)
    requires |pre| + |suf| <= |c|
  {
    seq(|c|, i requires 0 <= i < |c| =>
      if i < |pre| then MeetCell(c[i], pre[i])
      else if i >= |c| - |suf| then MeetCell(c[i], suf[i - |c| + |suf|])
      else c[i])
  }

  predicate Fits(c: seq<Cell>, pre: seq<Cell>, suf: seq<Cell>) {
    |pre| + |suf| <= |c| && FrontsAgree(c, pre) && BacksAgree(c, suf)
  }

  function Meet(x: Shape, y: Shape): Option<Shape> {
    match (x, y)
    case (Flat(c), Flat(d)) =>
      if |c| == |d| && FrontsAgree(c, d) then Some(Flat(Front(c, d))) else None
    case (Flat(c), Starred(pre, suf)) =>
      if Fits(c, pre, suf) then Some(Flat(Inlay(c, pre, suf))) else None
    case (Starred(pre, suf), Flat(c)) =>
      if Fits(c, pre, suf) then Some(Flat(Inlay(c, pre, suf))) else None
    case (Starred(p, s), Starred(q, u)) =>
      if FrontsAgree(p, q) && BacksAgree(s, u) then Some(Starred(Front(p, q), Back(s, u))) else None
    case (_, _) => None
  }

  lemma BackCell(x: seq<Cell>, y: seq<Cell>, i: nat)
    requires BacksAgree(x, y) && i < |x| && 0 <= i - |x| + |y|
    ensures Compatible(x[i], y[i - |x| + |y|])
  {
  }

  lemma BackStarless(x: seq<Cell>, y: seq<Cell>)
    requires Starless(x) && Starless(y) && BacksAgree(x, y)
    ensures Starless(Back(x, y))
  {
    var r := Back(x, y);
    forall i | 0 <= i < |r| ensures r[i] != Star {
      if |y| - |x| <= i && |x| - |y| <= i {
        BackCell(x, y, i - Max(|x|, |y|) + |x|);
      }
    }
  }

  lemma MeetPlain(x: Shape, y: Shape)
    requires Plain(x) && Plain(y)
    ensures Meet(x, y).Some? ==> Plain(Meet(x, y).value) && !Meet(x, y).value.Wild?
  {
    if x.Starred? && y.Starred? && BacksAgree(x.suf, y.suf) {
      BackStarless(x.suf, y.suf);
    }
  }

  /** The restriction of one pattern by another, with None for the failed merge. */
  function Restrict(f: seq<Cell>, b: seq<Cell>): (r: Option<seq<Cell>>) {
    var m := Meet(ShapeOf(f), ShapeOf(b));
    MeetPlain(ShapeOf(f), ShapeOf(b));
    if m.Some? then Some(Render(m.value)) else None
  }

  // ---- the merge itself ----

  /** How far the front loop and then the back loop get. */
  predicate Ran(f: seq<Cell>, b: seq<Cell>, m: nat, k: nat) {
    && m + k <= |f| && m + k <= |b|
    && (forall i :: 0 <= i < m ==> Compatible(f[i], b[i]))
    && (forall i :: |f| - k <= i < |f| ==> Compatible(f[i], b[i - |f| + |b|]))
    && (m < |f| && m < |b| ==> !Compatible(f[m], b[m]))
    && (m + k < |f| && m + k < |b| ==> !Compatible(f[|f| - 1 - k], b[|b| - 1 - k]))
  }

  function MeetFront(f: seq<Cell>, b: seq<Cell>, m: nat): (r: seq<Cell>)
    requires m <= |f| && m <= |b|
  {
    seq(m, i requires 0 <= i < m => MeetCell(f[i], b[i]))
  }

  function MeetBack(f: seq<Cell>, b: seq<Cell>, k: nat): (r: seq<Cell>)
    requires k <= |f| && k <= |b|
  {
    seq(k, i requires 0 <= i < k => MeetCell(f[|f| - k + i], b[|b| - k + i]))
  }

  /** The next star of p at or after i, or else last + 1. */
  function RunUp(p: seq<Cell>, i: nat, last: int): (r: nat)
    requires i <= last + 1 <= |p|
    ensures i <= r <= last + 1 && Clear(p, i, r) && (r <= last ==> p[r] == Star)
    decreases last - i
  {
    if i <= last && p[i] != Star then RunUp(p, i + 1, last) else i
  }

  /** The next star of p at or before i, or else first - 1. */
  function RunDown(p: seq<Cell>, i: int, first: nat): (r: int)
    requires first - 1 <= i < |p|
    ensures first - 1 <= r <= i && Clear(p, r + 1, i + 1) && (first <= r ==> p[r] == Star)
    decreases i - first + 1
  {
    if first <= i && p[i] != Star then RunDown(p, i - 1, first) else i
  }

  predicate StarAt(p: seq<Cell>, i: int) {
    0 <= i < |p| && p[i] == Star
  }

  function SwallowFront(f: seq<Cell>, b: seq<Cell>, m: nat, k: nat): (r: (nat, nat))
    requires m + k <= |f| && m + k <= |b|
    ensures m <= r.0 <= |f| - k && m <= r.1 <= |b| - k
  {
    if StarAt(f, m) then (m, RunUp(b, m, |b| - 1 - k))
    else if StarAt(b, m) then (RunUp(f, m, |f| - 1 - k), m)
    else (m, m)
  }

  function SwallowBack(f: seq<Cell>, b: seq<Cell>, k: nat, fi: nat, bi: nat): (r: (int, int))
    requires fi + k <= |f| && bi + k <= |b|
    ensures fi <= r.0 + 1 <= |f| - k && bi <= r.1 + 1 <= |b| - k
  {
    var fn, bn := |f| - 1 - k, |b| - 1 - k;
    if StarAt(f, fn) then (fn, RunDown(b, bn, bi))
    else if StarAt(b, bn) then (RunDown(f, fn, fi), bn)
    else (fn, bn)
  }

  /** The indices after the star of either pattern has swallowed what faces it. */
  function Swallow(f: seq<Cell>, b: seq<Cell>, m: nat, k: nat): (r: (nat, nat, int, int))
    requires m + k <= |f| && m + k <= |b|
    ensures m <= r.0 <= r.2 + 1 <= |f| - k && m <= r.1 <= r.3 + 1 <= |b| - k
  {
    var (fi, bi) := SwallowFront(f, b, m, k);
    var (fni, bni) := SwallowBack(f, b, k, fi, bi);
    (fi, bi, fni, bni)
  }

  function Opening(f: seq<Cell>, b: seq<Cell>, m: nat, fi: nat, bi: nat): (r: seq<Cell>)
    requires m <= fi <= |f| && m <= bi <= |b|
  {
    MeetFront(f, b, m) + b[m..bi] + f[m..fi]
  }

  function Closing(f: seq<Cell>, b: seq<Cell>, k: nat, fni: int, bni: int): (r: seq<Cell>)
    requires -1 <= fni < |f| - k && -1 <= bni < |b| - k
  {
    b[bni + 1..|b| - k] + f[fni + 1..|f| - k] + MeetBack(f, b, k)
  }

  /** Phase 5: both patterns are used up, but for one star each. */
  function Verdict(f: seq<Cell>, b: seq<Cell>, fi: nat, bi: nat, fni: int, bni: int, front: seq<Cell>, back: seq<Cell>)
    : (r: Option<seq<Cell>>)
  {
    if fi == fni && StarAt(f, fi) && bi == bni && StarAt(b, bi) then Some(front + [Star] + back)
    else
      var fe := if StarAt(f, fi) then fi + 1 else fi;
      var be := if StarAt(b, bi) then bi + 1 else bi;
      if fe == fni + 1 && be == bni + 1 then Some(front + back) else None
  }

  /** What the last three phases make of the two loops' results. */
  function Finish(f: seq<Cell>, b: seq<Cell>, m: nat, k: nat): (r: Option<seq<Cell>>)
    requires m + k <= |f| && m + k <= |b|
  {
    var (fi, bi, fni, bni) := Swallow(f, b, m, k);
    Verdict(f, b, fi, bi, fni, bni, Opening(f, b, m, fi, bi), Closing(f, b, k, fni, bni))
  }

  // ---- why the merge computes it ----

  lemma RunUpTo(p: seq<Cell>, i: nat, last: int, s: nat)
    requires i <= s <= last < |p| && p[s] == Star && Clear(p, 0, s)
    ensures RunUp(p, i, last) == s
  {
  }

  lemma RunDownTo(p: seq<Cell>, i: int, first: nat, s: nat)
    requires first <= s <= i < |p| && p[s] == Star && Clear(p, s + 1, |p|)
    ensures RunDown(p, i, first) == s
  {
  }

  lemma OpeningCells(f: seq<Cell>, b: seq<Cell>, m: nat, fi: nat, bi: nat)
    requires m <= fi <= |f| && m <= bi <= |b| && (fi == m || bi == m)
    ensures var r := Opening(f, b, m, fi, bi);
      |r| == Max(fi, bi) &&
      forall i :: 0 <= i < |r| ==>
        (r[i] == if i < m then MeetCell(f[i], b[i]) else if i < fi then f[i] else b[i])
  {
  }

  lemma FlatFlat(f: seq<Cell>, b: seq<Cell>, m: nat, k: nat)
    requires Starless(f) && Starless(b) && Ran(f, b, m, k)
    ensures Finish(f, b, m, k) == Restrict(f, b)
  {
    FlatShape(f);
    FlatShape(b);
    FlatSwallow(f, b, m, k);
    FlatRuns(f, b, m, k);
    if m == |f| - k && m == |b| - k {
      assert Opening(f, b, m, m, m) + Closing(f, b, k, m - 1, m - 1) == Front(f, b);
    }
  }

  lemma FlatSwallow(f: seq<Cell>, b: seq<Cell>, m: nat, k: nat)
    requires Starless(f) && Starless(b) && m + k <= |f| && m + k <= |b|
    ensures Swallow(f, b, m, k) == (m, m, |f| - 1 - k, |b| - 1 - k)
  {
  }

  lemma FlatRuns(f: seq<Cell>, b: seq<Cell>, m: nat, k: nat)
    requires Ran(f, b, m, k)
    ensures |f| == |b| && FrontsAgree(f, b) <==> m == |f| - k && m == |b| - k
  {
  }

  lemma RanCells(f: seq<Cell>, b: seq<Cell>, m: nat, k: nat, j: nat)
    requires Ran(f, b, m, k) && j < |b|
    ensures j < m || |b| - k <= j ==> b[j] != Star
  {
    if |b| - k <= j {
      assert Compatible(f[j - |b| + |f|], b[j]);
    }
  }

  /** Where the loops stop when b has its star at s. */
  lemma StopAtStar(f: seq<Cell>, b: seq<Cell>, m: nat, k: nat, s: nat)
    requires Ran(f, b, m, k) && StarAt(b, s)
    ensures m <= s && k < |b| - s
  {
    RanCells(f, b, m, k, s);
  }

  lemma FlatStarRuns(f: seq<Cell>, b: seq<Cell>, m: nat, k: nat, s: nat)
    requires Starless(f) && StarAt(b, s) && Ran(f, b, m, k)
    ensures Fits(f, b[..s], b[s + 1..]) <==> m == s && k == |b| - 1 - s
  {
    StopAtStar(f, b, m, k, s);
    var suf := b[s + 1..];
    if m + k < |f| && k < |suf| {
      var i: nat := |f| - 1 - k;
      if Fits(f, b[..s], suf) {
        BackCell(f, suf, i);
      }
    }
    if m == s && k == |b| - 1 - s {
      forall i | 0 <= i < |f| && 0 <= i - |f| + |suf| ensures Compatible(f[i], suf[i - |f| + |suf|]) {
        assert Compatible(f[i], b[i - |f| + |b|]);
      }
    }
  }

  lemma InlayParts(f: seq<Cell>, b: seq<Cell>, k: nat, s: nat)
    requires s < |b| && k == |b| - 1 - s && s + k <= |f|
    ensures Opening(f, b, s, |f| - k, s) + Closing(f, b, k, |f| - 1 - k, s) == Inlay(f, b[..s], b[s + 1..])
  {
    var x, y, r := Opening(f, b, s, |f| - k, s), MeetBack(f, b, k), Inlay(f, b[..s], b[s + 1..]);
    OpeningCells(f, b, s, |f| - k, s);
    assert Closing(f, b, k, |f| - 1 - k, s) == y;
    forall i | 0 <= i < |f| ensures (x + y)[i] == r[i] {
      if |f| - k <= i {
        assert (x + y)[i] == y[i - (|f| - k)];
      }
    }
    assert x + y == r;
  }

  lemma FlatStarSwallow(f: seq<Cell>, b: seq<Cell>, m: nat, k: nat, s: nat)
    requires Starless(f) && StarAt(b, s) && Ran(f, b, m, k) && m == s && k == |b| - 1 - s
    ensures Swallow(f, b, m, k) == (|f| - k, m, |f| - 1 - k, s)
  {
  }

  lemma FlatStarFits(f: seq<Cell>, b: seq<Cell>, m: nat, k: nat, s: nat)
    requires Starless(f) && StarAt(b, s) && Ran(f, b, m, k) && m == s && k == |b| - 1 - s
    ensures Finish(f, b, m, k) == Some(Inlay(f, b[..s], b[s + 1..]))
  {
    FlatStarSwallow(f, b, m, k, s);
    InlayParts(f, b, k, s);
  }

  lemma FlatStarFails(f: seq<Cell>, b: seq<Cell>, m: nat, k: nat, s: nat)
    requires Starless(f) && StarAt(b, s) && Clear(b, 0, s) && Ran(f, b, m, k)
    requires m != s || k != |b| - 1 - s
    ensures Finish(f, b, m, k) == None
  {
    StopAtStar(f, b, m, k, s);
  }

  lemma FlatStar(f: seq<Cell>, b: seq<Cell>, m: nat, k: nat, s: nat)
    requires Starless(f) && StarAt(b, s) && Clear(b, 0, s) && Clear(b, s + 1, |b|) && Ran(f, b, m, k)
    ensures Finish(f, b, m, k) == Restrict(f, b)
  {
    FlatShape(f);
    StarredShape(b, s);
    FlatStarRuns(f, b, m, k, s);
    if m == s && k == |b| - 1 - s {
      FlatStarFits(f, b, m, k, s);
    } else {
      FlatStarFails(f, b, m, k, s);
    }
  }

  // ---- both inputs alike ----

  lemma CellsCommute(x: Cell, y: Cell)
    requires Compatible(x, y)
    ensures Compatible(y, x) && MeetCell(x, y) == MeetCell(y, x)
  {
  }

  lemma BacksCommute(x: seq<Cell>, y: seq<Cell>)
    requires BacksAgree(x, y)
    ensures BacksAgree(y, x)
  {
    forall i | 0 <= i < |y| && 0 <= i - |y| + |x| ensures Compatible(y[i], x[i - |y| + |x|]) {
      BackCell(x, y, i - |y| + |x|);
    }
  }

  lemma BackCommutes(x: seq<Cell>, y: seq<Cell>)
    requires BacksAgree(x, y)
    ensures Back(x, y) == Back(y, x)
  {
    forall i | 0 <= i < Max(|x|, |y|) ensures Back(x, y)[i] == Back(y, x)[i] {
      if |y| - |x| <= i && |x| - |y| <= i {
        var j := i - Max(|x|, |y|) + |x|;
        BackCell(x, y, j);
        CellsCommute(x[j], y[i - Max(|x|, |y|) + |y|]);
      }
    }
  }

  lemma FrontsCommute(x: seq<Cell>, y: seq<Cell>)
    requires FrontsAgree(x, y)
    ensures FrontsAgree(y, x) && Front(x, y) == Front(y, x)
  {
  }

  lemma MeetCommutes(x: Shape, y: Shape)
    ensures Meet(x, y) == Meet(y, x)
  {
    if x.Flat? && y.Flat? {
      if FrontsAgree(x.cells, y.cells) || FrontsAgree(y.cells, x.cells) {
        FrontsCommute(x.cells, y.cells);
      }
    } else if x.Starred? && y.Starred? {
      if FrontsAgree(x.pre, y.pre) || FrontsAgree(y.pre, x.pre) {
        FrontsCommute(x.pre, y.pre);
      }
      if BacksAgree(x.suf, y.suf) {
        BacksCommute(x.suf, y.suf);
        BackCommutes(x.suf, y.suf);
      } else if BacksAgree(y.suf, x.suf) {
        BacksCommute(y.suf, x.suf);
      }
    }
  }

  /** Restriction does not care which pattern restricts which. */
  lemma RestrictCommutes(f: seq<Cell>, b: seq<Cell>)
    ensures Restrict(f, b) == Restrict(b, f)
  {
    MeetCommutes(ShapeOf(f), ShapeOf(b));
  }

  lemma RanCommutes(f: seq<Cell>, b: seq<Cell>, m: nat, k: nat)
    requires Ran(f, b, m, k)
    ensures Ran(b, f, m, k) && MeetFront(f, b, m) == MeetFront(b, f, m) && MeetBack(f, b, k) == MeetBack(b, f, k)
  {
    forall i | |b| - k <= i < |b| ensures Compatible(b[i], f[i - |b| + |f|]) {
      assert Compatible(f[i - |b| + |f|], b[i]);
    }
    forall i | 0 <= i < k ensures MeetBack(f, b, k)[i] == MeetBack(b, f, k)[i] {
      assert Compatible(f[|f| - k + i], b[|f| - k + i - |f| + |b|]);
      CellsCommute(f[|f| - k + i], b[|b| - k + i]);
    }
  }

  lemma SwallowCommutes(f: seq<Cell>, b: seq<Cell>, m: nat, k: nat)
    requires m + k <= |f| && m + k <= |b|
    ensures var (fi, bi, fni, bni) := Swallow(f, b, m, k); Swallow(b, f, m, k) == (bi, fi, bni, fni)
  {
  }

  lemma PartsCommute(f: seq<Cell>, b: seq<Cell>, m: nat, k: nat)
    requires Ran(f, b, m, k)
    ensures var (fi, bi, fni, bni) := Swallow(f, b, m, k);
      Opening(f, b, m, fi, bi) == Opening(b, f, m, bi, fi) && Closing(f, b, k, fni, bni) == Closing(b, f, k, bni, fni)
  {
    RanCommutes(f, b, m, k);
    var (fi, bi, fni, bni) := Swallow(f, b, m, k);
    assert fi == m || bi == m;
    assert f[m..m] == [] && b[m..m] == [];
    assert fni == |f| - 1 - k || bni == |b| - 1 - k;
    assert f[|f| - k..|f| - k] == [] && b[|b| - k..|b| - k] == [];
  }

  lemma FinishCommutes(f: seq<Cell>, b: seq<Cell>, m: nat, k: nat)
    requires Ran(f, b, m, k)
    ensures Finish(f, b, m, k) == Finish(b, f, m, k)
  {
    SwallowCommutes(f, b, m, k);
    PartsCommute(f, b, m, k);
  }

  // ---- two stars ----

  function Min(a: int, b: int): int {
    if a < b then a else b
  }

  lemma FrontRuns(f: seq<Cell>, b: seq<Cell>, m: nat, k: nat, r: nat, s: nat)
    requires StarAt(f, r) && StarAt(b, s) && Ran(f, b, m, k) && m <= r && m <= s
    ensures FrontsAgree(f[..r], b[..s]) <==> m == Min(r, s)
  {
  }

  lemma BackRuns(f: seq<Cell>, b: seq<Cell>, m: nat, k: nat, r: nat, s: nat)
    requires StarAt(f, r) && StarAt(b, s) && Ran(f, b, m, k)
    requires m <= r && m <= s && k < |f| - r && k < |b| - s
    ensures BacksAgree(f[r + 1..], b[s + 1..]) <==> k == Min(|f| - 1 - r, |b| - 1 - s)
  {
    var x, y := f[r + 1..], b[s + 1..];
    if k < |x| && k < |y| {
      var i: nat := |x| - 1 - k;
      if BacksAgree(x, y) {
        BackCell(x, y, i);
      }
    } else {
      forall i | 0 <= i < |x| && 0 <= i - |x| + |y| ensures Compatible(x[i], y[i - |x| + |y|]) {
        assert Compatible(f[r + 1 + i], b[r + 1 + i - |f| + |b|]);
      }
    }
  }

  lemma StarStarRuns(f: seq<Cell>, b: seq<Cell>, m: nat, k: nat, r: nat, s: nat)
    requires StarAt(f, r) && StarAt(b, s) && Ran(f, b, m, k)
    ensures m <= r && m <= s && k < |f| - r && k < |b| - s
    ensures FrontsAgree(f[..r], b[..s]) <==> m == Min(r, s)
    ensures BacksAgree(f[r + 1..], b[s + 1..]) <==> k == Min(|f| - 1 - r, |b| - 1 - s)
  {
    RanCommutes(f, b, m, k);
    StopAtStar(f, b, m, k, s);
    StopAtStar(b, f, m, k, r);
    FrontRuns(f, b, m, k, r, s);
    BackRuns(f, b, m, k, r, s);
  }

  lemma StarStarSwallow(f: seq<Cell>, b: seq<Cell>, m: nat, k: nat, r: nat, s: nat)
    requires StarAt(f, r) && Clear(f, 0, r) && Clear(f, r + 1, |f|)
    requires StarAt(b, s) && Clear(b, 0, s) && Clear(b, s + 1, |b|)
    requires m == Min(r, s) && k == Min(|f| - 1 - r, |b| - 1 - s)
    ensures Swallow(f, b, m, k) == (r, s, r, s)
  {
    assert SwallowFront(f, b, m, k) == (r, s) by {
      if m == r {
        RunUpTo(b, m, |b| - 1 - k, s);
      } else {
        RunUpTo(f, m, |f| - 1 - k, r);
      }
    }
    assert SwallowBack(f, b, k, r, s) == (r, s) by {
      if k == |f| - 1 - r {
        RunDownTo(b, |b| - 1 - k, s, s);
      } else {
        RunDownTo(f, |f| - 1 - k, r, r);
      }
    }
  }

  lemma StarStarFails(f: seq<Cell>, b: seq<Cell>, m: nat, k: nat, r: nat, s: nat)
    requires StarAt(f, r) && Clear(f, 0, r) && Clear(f, r + 1, |f|)
    requires StarAt(b, s) && Clear(b, 0, s) && Clear(b, s + 1, |b|)
    requires m <= r && m <= s && k < |f| - r && k < |b| - s
    requires m < Min(r, s) || k < Min(|f| - 1 - r, |b| - 1 - s)
    ensures Finish(f, b, m, k) == None
  {
  }

  lemma OverlaidFronts(f: seq<Cell>, b: seq<Cell>, r: nat, s: nat)
    requires r < |f| && s < |b|
    ensures Opening(f, b, Min(r, s), r, s) == Front(f[..r], b[..s])
  {
    OpeningCells(f, b, Min(r, s), r, s);
  }

  lemma OverlaidBacks(f: seq<Cell>, b: seq<Cell>, r: nat, s: nat)
    requires r < |f| && s < |b|
    ensures Closing(f, b, Min(|f| - 1 - r, |b| - 1 - s), r, s) == Back(f[r + 1..], b[s + 1..])
  {
  }

  lemma StarStar(f: seq<Cell>, b: seq<Cell>, m: nat, k: nat, r: nat, s: nat)
    requires StarAt(f, r) && Clear(f, 0, r) && Clear(f, r + 1, |f|)
    requires StarAt(b, s) && Clear(b, 0, s) && Clear(b, s + 1, |b|) && Ran(f, b, m, k)
    ensures Finish(f, b, m, k) == Restrict(f, b)
  {
    StarredShape(f, r);
    StarredShape(b, s);
    StarStarRuns(f, b, m, k, r, s);
    if m == Min(r, s) && k == Min(|f| - 1 - r, |b| - 1 - s) {
      StarStarSwallow(f, b, m, k, r, s);
      OverlaidFronts(f, b, r, s);
      OverlaidBacks(f, b, r, s);
    } else {
      StarStarFails(f, b, m, k, r, s);
    }
  }

  // ---- any number of stars ----

  /** A merge that succeeds has used up both patterns, but for one star each. */
  lemma SuccessIsSimple(f: seq<Cell>, b: seq<Cell>, m: nat, k: nat)
    requires Ran(f, b, m, k) && Finish(f, b, m, k).Some?
    ensures Simple(f)
  {
    var (fi, bi, fni, bni) := Swallow(f, b, m, k);
    assert Clear(f, 0, fi) && Clear(f, fni + 1, |f|);
    if StarAt(f, fi) {
      StarredShape(f, fi);
    } else {
      FlatShape(f);
    }
  }

  /** The loops and the three phases after them compute the restriction, whatever the inputs. */
  lemma MergeIsRestrict(f: seq<Cell>, b: seq<Cell>, m: nat, k: nat)
    requires Ran(f, b, m, k)
    ensures Finish(f, b, m, k) == Restrict(f, b)
  {
    FinishCommutes(f, b, m, k);
    RanCommutes(f, b, m, k);
    RestrictCommutes(f, b);
    match (ShapeOf(f), ShapeOf(b))
    case (Flat(_), Flat(_)) => FlatFlat(f, b, m, k);
    case (Flat(_), Starred(pre, _)) => FlatStar(f, b, m, k, |pre|);
    case (Starred(pre, _), Flat(_)) => FlatStar(b, f, m, k, |pre|);
    case (Starred(p, _), Starred(q, _)) => StarStar(f, b, m, k, |p|, |q|);
    case (_, _) =>
      if Finish(f, b, m, k).Some? {
        SuccessIsSimple(f, b, m, k);
        SuccessIsSimple(b, f, m, k);
      }
  }

  /** A star not yet passed at the front is not yet passed at the back. */
  predicate LeavesStars(f: seq<Cell>, b: seq<Cell>, m: nat, k: nat)
    requires m + k <= |f| && m + k <= |b|
  {
    var (fi, bi, fni, bni) := Swallow(f, b, m, k);
    (StarAt(f, fi) ==> fi <= fni) && (StarAt(b, bi) ==> bi <= bni)
  }

  lemma SwallowLeaves(f: seq<Cell>, b: seq<Cell>, m: nat, k: nat)
    requires Ran(f, b, m, k)
    ensures LeavesStars(f, b, m, k)
  {
    RanCommutes(f, b, m, k);
    var (fi, bi, fni, bni) := Swallow(f, b, m, k);
    if StarAt(f, fi) && fni < fi {
      RanCells(b, f, m, k, fi);
    }
    if StarAt(b, bi) && bni < bi {
      RanCells(f, b, m, k, bi);
    }
  }

  function Reversed(s: seq<Cell>): (r: seq<Cell>)
    ensures |r| == |s| && forall i :: 0 <= i < |s| ==> r[i] == s[|s| - 1 - i]
  {
    seq(|s|, i requires 0 <= i < |s| => s[|s| - 1 - i])
  }

  lemma MeetFrontStep(f: seq<Cell>, b: seq<Cell>, m: nat)
    requires m < |f| && m < |b|
    ensures MeetFront(f, b, m + 1) == MeetFront(f, b, m) + [MeetCell(f[m], b[m])]
  {
  }

  lemma MeetBackStep(f: seq<Cell>, b: seq<Cell>, k: nat)
    requires k < |f| && k < |b|
    ensures Reversed(MeetBack(f, b, k + 1)) ==
            Reversed(MeetBack(f, b, k)) + [MeetCell(f[|f| - 1 - k], b[|b| - 1 - k])]
  {
    assert MeetBack(f, b, k + 1) == [MeetCell(f[|f| - 1 - k], b[|b| - 1 - k])] + MeetBack(f, b, k);
  }

  /** The first loop: cells emitted from the front. */
  method EmitFront(fp: seq<Cell>, bp: seq<Cell>) returns (m: nat, fout: seq<Cell>)
    ensures m <= |fp| && m <= |bp| && (forall i :: 0 <= i < m ==> Compatible(fp[i], bp[i]))
    ensures m < |fp| && m < |bp| ==> !Compatible(fp[m], bp[m])
    ensures fout == MeetFront(fp, bp, m)
  {
    m, fout := 0, [];
    while m < |fp| && m < |bp|
      invariant m <= |fp| && m <= |bp|
      invariant forall i :: 0 <= i < m ==> Compatible(fp[i], bp[i])
      invariant fout == MeetFront(fp, bp, m)
    {
      MeetFrontStep(fp, bp, m);
      if fp[m] != Star && (fp[m] == bp[m] || (bp[m] == Plus && fp[m] != Star)) {
        fout := fout + [fp[m]];
      } else if fp[m] == Plus && bp[m] != Star {
        fout := fout + [bp[m]];
      } else {
        break;
      }
      m := m + 1;
    }
  }

  /** The second loop: cells emitted from the back, no further than the front loop came. */
  method EmitBack(fp: seq<Cell>, bp: seq<Cell>, m: nat) returns (k: nat, bout: seq<Cell>)
    requires m <= |fp| && m <= |bp|
    ensures m + k <= |fp| && m + k <= |bp|
    ensures forall i :: |fp| - k <= i < |fp| ==> Compatible(fp[i], bp[i - |fp| + |bp|])
    ensures m + k < |fp| && m + k < |bp| ==> !Compatible(fp[|fp| - 1 - k], bp[|bp| - 1 - k])
    ensures bout == Reversed(MeetBack(fp, bp, k))
  {
    k, bout := 0, [];
    var fni, bni := |fp| - 1, |bp| - 1;
    while fni >= m && bni >= m
      invariant m + k <= |fp| && m + k <= |bp| && fni == |fp| - 1 - k && bni == |bp| - 1 - k
      invariant forall i :: |fp| - k <= i < |fp| ==> Compatible(fp[i], bp[i - |fp| + |bp|])
      invariant bout == Reversed(MeetBack(fp, bp, k))
    {
      MeetBackStep(fp, bp, k);
      if bp[bni] != Star && (fp[fni] == bp[bni] || (bp[bni] == Plus && fp[fni] != Star)) {
        bout := bout + [fp[fni]];
      } else if fp[fni] == Plus && bp[bni] != Star {
        bout := bout + [bp[bni]];
      } else {
        break;
      }
      k := k + 1;
      fni, bni := fni - 1, bni - 1;
    }
  }

  /** Phase 3: cells facing a star are emitted at the front, up to the next star or the end. */
  method SwallowUp(p: seq<Cell>, from: nat, last: int, fout: seq<Cell>) returns (i: nat, out: seq<Cell>)
    requires from <= last + 1 <= |p|
    ensures i == RunUp(p, from, last) && out == fout + p[from..i]
  {
    i, out := from, fout;
    while i < |p| && p[i] != Star && i <= last
      invariant from <= i <= last + 1 && RunUp(p, i, last) == RunUp(p, from, last)
      invariant out == fout + p[from..i]
    {
      out := out + [p[i]];
      i := i + 1;
    }
  }

  /** Phase 4: cells facing a star are emitted at the back, down to the next star or the front. */
  method SwallowDown(p: seq<Cell>, from: int, first: nat, bout: seq<Cell>) returns (i: int, out: seq<Cell>)
    requires first - 1 <= from < |p|
    ensures i == RunDown(p, from, first) && out == bout + Reversed(p[i + 1..from + 1])
  {
    i, out := from, bout;
    while i >= 0 && p[i] != Star && i >= first
      invariant first - 1 <= i <= from && RunDown(p, i, first) == RunDown(p, from, first)
      invariant out == bout + Reversed(p[i + 1..from + 1])
    {
      out := out + [p[i]];
      i := i - 1;
    }
  }

  /** The collected front, followed by the back turned round. */
  method Emit(fout: seq<Cell>, bout: seq<Cell>) returns (r: seq<Cell>)
    ensures r == fout + Reversed(bout)
  {
    r := fout;
    for i := 0 to |bout|
      invariant r == fout + Reversed(bout)[..i]
    {
      r := r + [bout[|bout| - i - 1]];
    }
  }

  /** The last phase: done if nothing is left over but a star on either side. */
  method Settle(fp: seq<Cell>, bp: seq<Cell>, fi: nat, bi: nat, fni: int, bni: int, fout: seq<Cell>, bout: seq<Cell>)
    returns (r: Option<seq<Cell>>)
    requires fi <= fni + 1 <= |fp| && bi <= bni + 1 <= |bp|
    requires (StarAt(fp, fi) ==> fi <= fni) && (StarAt(bp, bi) ==> bi <= bni)
    ensures r == Verdict(fp, bp, fi, bi, fni, bni, fout, Reversed(bout))
  {
    if fi == fni && fp[fi] == Star && bi == bni && bp[bi] == Star {
      var out := Emit(fout + [Star], bout);
      return Some(out);
    }
    var fe, be := fi, bi;
    if fi < |fp| && fp[fi] == Star {
      fe := fi + 1;
    }
    if bi < |bp| && bp[bi] == Star {
      be := bi + 1;
    }
    if (fe == fni + 1 || fe == |fp|) && (be == bni + 1 || be == |bp|) {
      var out := Emit(fout, bout);
      return Some(out);
    }
    return None;
  }

  lemma NothingSwallowed(f: seq<Cell>, b: seq<Cell>, m: nat, i: nat)
    requires m <= i <= |f| && m <= |b|
    ensures MeetFront(f, b, m) + f[m..i] == Opening(f, b, m, i, m)
  {
  }

  lemma ClosedOnLeft(f: seq<Cell>, b: seq<Cell>, k: nat, fni: int, bni: int)
    requires -1 <= fni < |f| - k && bni == |b| - 1 - k >= -1
    ensures Reversed(MeetBack(f, b, k)) + Reversed(f[fni + 1..|f| - k]) == Reversed(Closing(f, b, k, fni, bni))
  {
    assert Closing(f, b, k, fni, bni) == f[fni + 1..|f| - k] + MeetBack(f, b, k);
  }

  lemma ClosedOnRight(f: seq<Cell>, b: seq<Cell>, k: nat, fni: int, bni: int)
    requires -1 <= bni < |b| - k && fni == |f| - 1 - k >= -1
    ensures Reversed(MeetBack(f, b, k)) + Reversed(b[bni + 1..|b| - k]) == Reversed(Closing(f, b, k, fni, bni))
  {
    assert Closing(f, b, k, fni, bni) == b[bni + 1..|b| - k] + MeetBack(f, b, k);
  }

  lemma ClosedAtOnce(f: seq<Cell>, b: seq<Cell>, k: nat, fni: int, bni: int)
    requires fni == |f| - 1 - k >= -1 && bni == |b| - 1 - k >= -1
    ensures Reversed(MeetBack(f, b, k)) == Reversed(Closing(f, b, k, fni, bni))
  {
    assert MeetBack(f, b, k) == Closing(f, b, k, fni, bni);
  }

  /** Where phase 4 stops: the star of f swallows cells of b, or the other way round, or neither. */
  predicate FacedAt(f: seq<Cell>, b: seq<Cell>, k: nat, fi: nat, bi: nat, fni: int, bni: int)
    requires fi + k <= |f| && bi + k <= |b|
  {
    if 0 <= |f| - 1 - k && f[|f| - 1 - k] == Star then fni == |f| - 1 - k && bni == RunDown(b, |b| - 1 - k, bi)
    else if 0 <= |b| - 1 - k && b[|b| - 1 - k] == Star then bni == |b| - 1 - k && fni == RunDown(f, |f| - 1 - k, fi)
    else fni == |f| - 1 - k && bni == |b| - 1 - k
  }

  // `Told` says nothing: it only lets a proof choose where the cells behind `FacedOut` come into sight.
  ghost predicate Told(bout: seq<Cell>, out: seq<Cell>, k: int) { true }

  /** What phase 4 emits, last cell first. */
  ghost predicate FacedOut(f: seq<Cell>, b: seq<Cell>, k: nat, fni: int, bni: int, bout: seq<Cell>, out: seq<Cell>) {
    && -1 <= fni < |f| - k && -1 <= bni < |b| - k
    && forall n: int {:trigger Told(bout, out, n)} :: Told(bout, out, n) ==>
      || (fni == |f| - 1 - k && out == bout + Reversed(b[bni + 1..|b| - k]))
      || (bni == |b| - 1 - k && out == bout + Reversed(f[fni + 1..|f| - k]))
      || (fni == |f| - 1 - k && bni == |b| - 1 - k && out == bout)
  }

  lemma OutRight(f: seq<Cell>, b: seq<Cell>, k: nat, fni: int, bni: int, bout: seq<Cell>, out: seq<Cell>)
    requires fni == |f| - 1 - k >= -1 && -1 <= bni < |b| - k && out == bout + Reversed(b[bni + 1..|b| - k])
    ensures FacedOut(f, b, k, fni, bni, bout, out)
  {
  }

  lemma OutLeft(f: seq<Cell>, b: seq<Cell>, k: nat, fni: int, bni: int, bout: seq<Cell>, out: seq<Cell>)
    requires bni == |b| - 1 - k >= -1 && -1 <= fni < |f| - k && out == bout + Reversed(f[fni + 1..|f| - k])
    ensures FacedOut(f, b, k, fni, bni, bout, out)
  {
  }

  lemma OutNone(f: seq<Cell>, b: seq<Cell>, k: nat, fni: int, bni: int, bout: seq<Cell>)
    requires fni == |f| - 1 - k >= -1 && bni == |b| - 1 - k >= -1
    ensures FacedOut(f, b, k, fni, bni, bout, bout)
  {
  }

  lemma FacedSwallows(f: seq<Cell>, b: seq<Cell>, k: nat, fi: nat, bi: nat, fni: int, bni: int)
    requires fi + k <= |f| && bi + k <= |b| && FacedAt(f, b, k, fi, bi, fni, bni)
    ensures fni == SwallowBack(f, b, k, fi, bi).0 && bni == SwallowBack(f, b, k, fi, bi).1
  {
  }

  lemma FacedCloses(f: seq<Cell>, b: seq<Cell>, k: nat, fni: int, bni: int, out: seq<Cell>)
    requires k <= |f| && k <= |b| && FacedOut(f, b, k, fni, bni, Reversed(MeetBack(f, b, k)), out)
    ensures out == Reversed(Closing(f, b, k, fni, bni))
  {
    assert Told(Reversed(MeetBack(f, b, k)), out, 0);
    if fni == |f| - 1 - k {
      ClosedOnRight(f, b, k, fni, bni);
    }
    if bni == |b| - 1 - k {
      ClosedOnLeft(f, b, k, fni, bni);
    }
    if fni == |f| - 1 - k && bni == |b| - 1 - k {
      ClosedAtOnce(f, b, k, fni, bni);
    }
  }

  lemma TurnedTwice(s: seq<Cell>)
    ensures Reversed(Reversed(s)) == s
  {
  }

  /** Phase 3 on whichever pattern faces a star at its front. */
  method EmitFacingFront(fp: seq<Cell>, bp: seq<Cell>, m: nat, k: nat, fout: seq<Cell>)
    returns (fi: nat, bi: nat, out: seq<Cell>)
    requires m + k <= |fp| && m + k <= |bp| && fout == MeetFront(fp, bp, m)
    ensures (fi, bi) == SwallowFront(fp, bp, m, k)
    ensures out == Opening(fp, bp, m, fi, bi)
  {
    fi, bi, out := m, m, fout;
    if fi < |fp| && fp[fi] == Star {
      bi, out := SwallowUp(bp, bi, |bp| - 1 - k, out);
    } else if bi < |bp| && bp[bi] == Star {
      fi, out := SwallowUp(fp, fi, |fp| - 1 - k, out);
      NothingSwallowed(fp, bp, m, fi);
    }
  }

  method EmitRight(fp: seq<Cell>, bp: seq<Cell>, k: nat, bi: nat, fni: int, bout: seq<Cell>) returns (bni: int, out: seq<Cell>)
    requires fni == |fp| - 1 - k >= -1 && bi + k <= |bp|
    ensures bni == RunDown(bp, |bp| - 1 - k, bi) && FacedOut(fp, bp, k, fni, bni, bout, out)
  {
    bni, out := SwallowDown(bp, |bp| - 1 - k, bi, bout);
    OutRight(fp, bp, k, fni, bni, bout, out);
  }

  method EmitLeft(fp: seq<Cell>, bp: seq<Cell>, k: nat, fi: nat, bni: int, bout: seq<Cell>) returns (fni: int, out: seq<Cell>)
    requires bni == |bp| - 1 - k >= -1 && fi + k <= |fp|
    ensures fni == RunDown(fp, |fp| - 1 - k, fi) && FacedOut(fp, bp, k, fni, bni, bout, out)
  {
    fni, out := SwallowDown(fp, |fp| - 1 - k, fi, bout);
    OutLeft(fp, bp, k, fni, bni, bout, out);
  }

  /** Phase 4 on whichever pattern faces a star at its back. */
  method EmitFacingBack(fp: seq<Cell>, bp: seq<Cell>, k: nat, fi: nat, bi: nat, bout: seq<Cell>)
    returns (fni: int, bni: int, out: seq<Cell>)
    requires fi + k <= |fp| && bi + k <= |bp|
    ensures FacedAt(fp, bp, k, fi, bi, fni, bni)
    ensures FacedOut(fp, bp, k, fni, bni, bout, out)
  {
    fni, bni, out := |fp| - 1 - k, |bp| - 1 - k, bout;
    if |fp| - 1 - k >= 0 && fp[|fp| - 1 - k] == Star {
      bni, out := EmitRight(fp, bp, k, bi, fni, bout);
    } else if |bp| - 1 - k >= 0 && bp[|bp| - 1 - k] == Star {
      fni, out := EmitLeft(fp, bp, k, fi, bni, bout);
    } else {
      OutNone(fp, bp, k, fni, bni, bout);
    }
  }

  /** Phase 4 and what it leaves, in reading order. */
  method CloseBack(fp: seq<Cell>, bp: seq<Cell>, k: nat, fi: nat, bi: nat, bout: seq<Cell>)
    returns (fni: int, bni: int, out: seq<Cell>)
    requires fi + k <= |fp| && bi + k <= |bp| && bout == Reversed(MeetBack(fp, bp, k))
    ensures fni == SwallowBack(fp, bp, k, fi, bi).0 && bni == SwallowBack(fp, bp, k, fi, bi).1
    ensures out == Reversed(Closing(fp, bp, k, fni, bni))
  {
    fni, bni, out := EmitFacingBack(fp, bp, k, fi, bi, bout);
    FacedSwallows(fp, bp, k, fi, bi, fni, bni);
    FacedCloses(fp, bp, k, fni, bni, out);
  }

  /** The phases after the two loops. */
  method EmitRest(fp: seq<Cell>, bp: seq<Cell>, m: nat, k: nat, fout: seq<Cell>, bout: seq<Cell>)
    returns (r: Option<seq<Cell>>)
    requires m + k <= |fp| && m + k <= |bp| && LeavesStars(fp, bp, m, k)
    requires fout == MeetFront(fp, bp, m) && bout == Reversed(MeetBack(fp, bp, k))
    ensures r == Finish(fp, bp, m, k)
  {
    var fi, bi, fout' := EmitFacingFront(fp, bp, m, k, fout);
    var fni, bni, bout' := CloseBack(fp, bp, k, fi, bi, bout);
    TurnedTwice(Closing(fp, bp, k, fni, bni));
    r := Settle(fp, bp, fi, bi, fni, bni, fout', bout');
  }

  /** The whole merge, for every pair of patterns. */
  method RestrictBy(fp: seq<Cell>, bp: seq<Cell>) returns (r: Option<seq<Cell>>)
    ensures r == Restrict(fp, bp)
  {
    var m, fout := EmitFront(fp, bp);
    var k, bout := EmitBack(fp, bp, m);
    SwallowLeaves(fp, bp, m, k);
    r := EmitRest(fp, bp, m, k, fout, bout);
    MergeIsRestrict(fp, bp, m, k);
  }
}
