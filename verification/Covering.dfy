/**
 * Patterns restricted in turn that each cover the same name. Stars before the first pattern without one pile up their
 * ends, and what they pile up to covers the name exactly when the name is long enough for it.
 */
module Covering {
  import opened Options
  import opened Patterns
  import opened Restriction
  import opened Intersection

  function FoldShapes(xs: seq<Shape>): (r: Option<Shape>)
    requires xs != []
  {
    if |xs| == 1 then Some(xs[0])
    else
      var before := FoldShapes(xs[..|xs| - 1]);
      if before.None? then None else Meet(before.value, xs[|xs| - 1])
  }

  /** How many patterns there are before the first one without a star. */
  function Leading(xs: seq<Shape>): (n: nat)
    ensures n <= |xs|
  {
    if xs == [] then 0
    else
      var n := Leading(xs[..|xs| - 1]);
      if n == |xs| - 1 && xs[|xs| - 1].Starred? then n + 1 else n
  }

  function LongestPre(xs: seq<Shape>): (n: nat) {
    if xs == [] then 0
    else Max(LongestPre(xs[..|xs| - 1]), if xs[|xs| - 1].Starred? then |xs[|xs| - 1].pre| else 0)
  }

  function LongestSuf(xs: seq<Shape>): (n: nat) {
    if xs == [] then 0
    else Max(LongestSuf(xs[..|xs| - 1]), if xs[|xs| - 1].Starred? then |xs[|xs| - 1].suf| else 0)
  }

  /** The longest ends of the patterns before the first one without a star, side by side. */
  function EndsBefore(xs: seq<Shape>): (n: nat) {
    LongestPre(xs[..Leading(xs)]) + LongestSuf(xs[..Leading(xs)])
  }

  predicate AllCover(u: seq<Cell>, xs: seq<Shape>) {
    forall i :: 0 <= i < |xs| ==> !xs[i].Wild? && Plain(xs[i]) && Denotes(xs[i], u)
  }

  /** Both ends match, though they may overlap in the name. */
  predicate EndsMatch(u: seq<Cell>, x: Shape) {
    x.Starred? && Plain(x) && StartsLike(x.pre, u) && EndsLike(x.suf, u)
  }

  lemma TwoStars(u: seq<Cell>, x: Shape, y: Shape)
    requires EndsMatch(u, x) && EndsMatch(u, y)
    ensures Meet(x, y).Some? && EndsMatch(u, Meet(x, y).value)
    ensures |Meet(x, y).value.pre| == Max(|x.pre|, |y.pre|) && |Meet(x, y).value.suf| == Max(|x.suf|, |y.suf|)
  {
    FrontsMatchSame(x.pre, y.pre, u);
    FrontMeans(x.pre, y.pre, u);
    BacksMatchSame(x.suf, y.suf, u);
    BackMeansBoth(x.suf, y.suf, u);
    MeetPlain(x, y);
  }

  lemma StarThenNone(u: seq<Cell>, x: Shape, y: Shape)
    requires EndsMatch(u, x) && y.Flat? && Plain(y) && Denotes(y, u)
    ensures Meet(x, y).Some? <==> |x.pre| + |x.suf| <= |u|
    ensures Meet(x, y).Some? ==> Meet(x, y).value.Flat? && Plain(Meet(x, y).value) && Denotes(Meet(x, y).value, u)
  {
    MeetPlain(x, y);
    if |x.pre| + |x.suf| <= |u| {
      MeetComplete(x, y, u);
    }
  }

  lemma NoneThenAny(u: seq<Cell>, x: Shape, y: Shape)
    requires x.Flat? && Plain(x) && Denotes(x, u) && !y.Wild? && Plain(y) && Denotes(y, u)
    ensures Meet(x, y).Some? && Meet(x, y).value.Flat? && Plain(Meet(x, y).value) && Denotes(Meet(x, y).value, u)
  {
    MeetPlain(x, y);
    MeetComplete(x, y, u);
  }

  /** What the patterns pile up to. */
  ghost predicate PiledUp(u: seq<Cell>, xs: seq<Shape>, f: Option<Shape>) {
    if Leading(xs) == |xs| then
      f.Some? && EndsMatch(u, f.value) && |f.value.pre| == LongestPre(xs) && |f.value.suf| == LongestSuf(xs)
    else if EndsBefore(xs) <= |u| then f.Some? && f.value.Flat? && Plain(f.value) && Denotes(f.value, u)
    else f.None?
  }

  lemma Piles(u: seq<Cell>, xs: seq<Shape>, f: Option<Shape>)
    requires |xs| > 1 && AllCover(u, xs) && PiledUp(u, xs[..|xs| - 1], f)
    ensures PiledUp(u, xs, if f.None? then None else Meet(f.value, xs[|xs| - 1]))
  {
    var init, y := xs[..|xs| - 1], xs[|xs| - 1];
    if Leading(init) == |init| {
      assert init[..|init|] == init;
      if y.Starred? {
        TwoStars(u, f.value, y);
      } else {
        assert xs[..|init|] == init;
        StarThenNone(u, f.value, y);
      }
    } else {
      assert xs[..Leading(xs)] == init[..Leading(init)];
      if f.Some? {
        NoneThenAny(u, f.value, y);
      }
    }
  }

  lemma {:induction false} FoldPilesUp(u: seq<Cell>, xs: seq<Shape>)
    requires xs != [] && AllCover(u, xs)
    ensures PiledUp(u, xs, FoldShapes(xs))
    decreases |xs|
  {
    if |xs| == 1 {
      assert xs[..0] == [] && xs[..1] == xs;
      assert Denotes(xs[0], u);
    } else {
      FoldPilesUp(u, xs[..|xs| - 1]);
      Piles(u, xs, FoldShapes(xs[..|xs| - 1]));
    }
  }

  /** The fold covers the name exactly when the name is long enough, and fails exactly when a starless pattern finds out. */
  lemma FoldCoversIff(u: seq<Cell>, xs: seq<Shape>)
    requires xs != [] && AllCover(u, xs)
    ensures FoldShapes(xs).None? <==> Leading(xs) < |xs| && |u| < EndsBefore(xs)
    ensures FoldShapes(xs).Some? ==> !FoldShapes(xs).value.Wild? && Plain(FoldShapes(xs).value)
    ensures FoldShapes(xs).Some? && Denotes(FoldShapes(xs).value, u) <==> EndsBefore(xs) <= |u|
  {
    FoldPilesUp(u, xs);
    if Leading(xs) == |xs| {
      assert xs[..|xs|] == xs;
    }
  }
}
