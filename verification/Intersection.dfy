/**
 * What restriction means: which topics the restricted pattern matches, compared with the topics both of its
 * inputs match.
 */
module Intersection {
  import opened Options
  import opened Patterns
  import opened Restriction

  lemma FrontMeans(x: seq<Cell>, y: seq<Cell>, t: seq<Cell>)
    requires FrontsAgree(x, y)
    ensures StartsLike(Front(x, y), t) <==> StartsLike(x, t) && StartsLike(y, t)
  {
    var r := Front(x, y);
    if StartsLike(r, t) {
      forall i | 0 <= i < |x| ensures CellMatches(x[i], t[i]) {
        assert CellMatches(r[i], t[i]);
      }
      forall i | 0 <= i < |y| ensures CellMatches(y[i], t[i]) {
        assert CellMatches(r[i], t[i]);
      }
    }
  }

  lemma FrontsMatchSame(x: seq<Cell>, y: seq<Cell>, t: seq<Cell>)
    requires Starless(x) && Starless(y) && StartsLike(x, t) && StartsLike(y, t)
    ensures FrontsAgree(x, y)
  {
  }

  /** Position i of the longer suffix, seen from the shorter. */
  lemma BackAt(x: seq<Cell>, y: seq<Cell>, i: nat)
    requires BacksAgree(x, y) && i < |x|
    ensures var j := i - |x| + Max(|x|, |y|);
      Back(x, y)[j] == if i - |x| + |y| < 0 then x[i] else MeetCell(x[i], y[i - |x| + |y|])
    ensures 0 <= i - |x| + |y| ==> Compatible(x[i], y[i - |x| + |y|])
  {
  }

  lemma BackMeansLeft(x: seq<Cell>, y: seq<Cell>, t: seq<Cell>)
    requires BacksAgree(x, y) && EndsLike(Back(x, y), t)
    ensures EndsLike(x, t)
  {
    var r := Back(x, y);
    forall i | 0 <= i < |x| ensures CellMatches(x[i], t[|t| - |x| + i]) {
      BackAt(x, y, i);
      assert CellMatches(r[i - |x| + |r|], t[|t| - |r| + (i - |x| + |r|)]);
    }
  }

  lemma BackMeansBoth(x: seq<Cell>, y: seq<Cell>, t: seq<Cell>)
    requires BacksAgree(x, y) && EndsLike(x, t) && EndsLike(y, t)
    ensures EndsLike(Back(x, y), t)
  {
    var r := Back(x, y);
    forall i | 0 <= i < |r| ensures CellMatches(r[i], t[|t| - |r| + i]) {
      var j, k := i - |r| + |x|, i - |r| + |y|;
      if j < 0 {
        assert r[i] == y[k] && CellMatches(y[k], t[|t| - |y| + k]);
      } else if k < 0 {
        assert r[i] == x[j] && CellMatches(x[j], t[|t| - |x| + j]);
      } else {
        assert CellMatches(x[j], t[|t| - |x| + j]) && CellMatches(y[k], t[|t| - |y| + k]);
        assert r[i] == MeetCell(x[j], y[k]);
      }
    }
  }

  lemma BacksMatchSame(x: seq<Cell>, y: seq<Cell>, t: seq<Cell>)
    requires Starless(x) && Starless(y) && EndsLike(x, t) && EndsLike(y, t)
    ensures BacksAgree(x, y)
  {
    forall i | 0 <= i < |x| && 0 <= i - |x| + |y| ensures Compatible(x[i], y[i - |x| + |y|]) {
      assert CellMatches(x[i], t[|t| - |x| + i]);
      assert CellMatches(y[i - |x| + |y|], t[|t| - |y| + (i - |x| + |y|)]);
    }
  }

  lemma InlayMeans(c: seq<Cell>, pre: seq<Cell>, suf: seq<Cell>, t: seq<Cell>)
    requires Fits(c, pre, suf) && |t| == |c|
    ensures StartsLike(Inlay(c, pre, suf), t) <==> StartsLike(c, t) && StartsLike(pre, t) && EndsLike(suf, t)
  {
    var r := Inlay(c, pre, suf);
    if StartsLike(r, t) {
      forall i | 0 <= i < |c| ensures CellMatches(c[i], t[i]) {
        InlayCell(c, pre, suf, i, t[i]);
        assert CellMatches(r[i], t[i]);
      }
      forall i | 0 <= i < |pre| ensures CellMatches(pre[i], t[i]) {
        InlayCell(c, pre, suf, i, t[i]);
        assert CellMatches(r[i], t[i]);
      }
      forall i | 0 <= i < |suf| ensures CellMatches(suf[i], t[|t| - |suf| + i]) {
        InlayCell(c, pre, suf, |t| - |suf| + i, t[|t| - |suf| + i]);
        assert CellMatches(r[|t| - |suf| + i], t[|t| - |suf| + i]);
      }
    }
    if StartsLike(c, t) && StartsLike(pre, t) && EndsLike(suf, t) {
      forall i | 0 <= i < |r| ensures CellMatches(r[i], t[i]) {
        InlayCell(c, pre, suf, i, t[i]);
        if |c| - |suf| <= i {
          assert CellMatches(suf[i - |c| + |suf|], t[|t| - |suf| + (i - |c| + |suf|)]);
        }
      }
    }
  }

  lemma InlayCell(c: seq<Cell>, pre: seq<Cell>, suf: seq<Cell>, i: nat, d: Cell)
    requires Fits(c, pre, suf) && i < |c|
    ensures CellMatches(Inlay(c, pre, suf)[i], d) <==>
      && CellMatches(c[i], d)
      && (i < |pre| ==> CellMatches(pre[i], d))
      && (|c| - |suf| <= i ==> CellMatches(suf[i - |c| + |suf|], d))
  {
    if |c| - |suf| <= i {
      BackCell(c, suf, i);
    }
  }

  lemma InlayFits(c: seq<Cell>, pre: seq<Cell>, suf: seq<Cell>, t: seq<Cell>)
    requires Starless(c) && Starless(pre) && Starless(suf)
    requires |t| == |c| && StartsLike(c, t) && Denotes(Starred(pre, suf), t)
    ensures Fits(c, pre, suf)
  {
    FrontsMatchSame(c, pre, t);
    assert EndsLike(c, t);
    BacksMatchSame(c, suf, t);
  }

  // ---- shapes ----

  lemma MeetSound(x: Shape, y: Shape, t: seq<Cell>)
    requires Plain(x) && Plain(y) && Meet(x, y).Some?
    ensures (MeetPlain(x, y); Denotes(Meet(x, y).value, t)) ==> Denotes(x, t) && Denotes(y, t)
  {
    MeetPlain(x, y);
    if Denotes(Meet(x, y).value, t) {
      match (x, y)
      case (Flat(c), Flat(d)) => FrontMeans(c, d, t);
      case (Flat(c), Starred(pre, suf)) => InlayMeans(c, pre, suf, t);
      case (Starred(pre, suf), Flat(c)) => InlayMeans(c, pre, suf, t);
      case (Starred(p, s), Starred(q, u)) =>
        FrontMeans(p, q, t);
        BackMeansLeft(s, u, t);
        BacksCommute(s, u);
        BackCommutes(s, u);
        BackMeansLeft(u, s, t);
    }
  }

  /** A common topic makes the merge succeed, and is kept unless it is too short for two starred patterns. */
  lemma MeetComplete(x: Shape, y: Shape, t: seq<Cell>)
    requires Plain(x) && Plain(y) && !x.Wild? && !y.Wild? && Denotes(x, t) && Denotes(y, t)
    ensures Meet(x, y).Some?
    ensures !(x.Starred? && y.Starred?) || Max(|x.pre|, |y.pre|) + Max(|x.suf|, |y.suf|) <= |t| ==>
      (MeetPlain(x, y); Denotes(Meet(x, y).value, t))
  {
    match (x, y)
    case (Flat(c), Flat(d)) =>
      FrontsMatchSame(c, d, t);
      FrontMeans(c, d, t);
    case (Flat(c), Starred(pre, suf)) =>
      InlayFits(c, pre, suf, t);
      InlayMeans(c, pre, suf, t);
    case (Starred(pre, suf), Flat(c)) =>
      InlayFits(c, pre, suf, t);
      InlayMeans(c, pre, suf, t);
    case (Starred(p, s), Starred(q, u)) =>
      FrontsMatchSame(p, q, t);
      FrontMeans(p, q, t);
      BacksMatchSame(s, u, t);
      BackMeansBoth(s, u, t);
  }

  // ---- patterns ----

  lemma RestrictShape(f: seq<Cell>, b: seq<Cell>)
    ensures Restrict(f, b).Some? <==> Meet(ShapeOf(f), ShapeOf(b)).Some?
    ensures Restrict(f, b).Some? ==> ShapeOf(Restrict(f, b).value) == Meet(ShapeOf(f), ShapeOf(b)).value
  {
    MeetPlain(ShapeOf(f), ShapeOf(b));
    if Restrict(f, b).Some? {
      ShapeOfRender(Meet(ShapeOf(f), ShapeOf(b)).value);
    }
  }

  /**
   * Restriction only ever narrows: a topic the result matches is matched by both inputs. This holds for all
   * patterns; those with two stars or more are refused, and a result has at most one.
   */
  lemma RestrictSound(f: seq<Cell>, b: seq<Cell>, t: seq<Cell>)
    requires Restrict(f, b).Some?
    ensures Simple(f) && Simple(b) && Simple(Restrict(f, b).value)
    ensures Matches(Restrict(f, b).value, t) ==> Matches(f, t) && Matches(b, t)
  {
    RestrictShape(f, b);
    MeetPlain(ShapeOf(f), ShapeOf(b));
    MeetSound(ShapeOf(f), ShapeOf(b), t);
    SimpleMeaning(f, t);
    SimpleMeaning(b, t);
    SimpleMeaning(Restrict(f, b).value, t);
  }

  /** Where the result of restricting can miss a topic: shorter than the longest ends of two starred patterns. */
  predicate TooShort(f: seq<Cell>, b: seq<Cell>, t: seq<Cell>) {
    var x, y := ShapeOf(f), ShapeOf(b);
    x.Starred? && y.Starred? && |t| < Max(|x.pre|, |y.pre|) + Max(|x.suf|, |y.suf|)
  }

  /** Exactly the topics that both patterns match, and that are long enough for the ends of two starred ones. */
  lemma RestrictMatchesIff(f: seq<Cell>, b: seq<Cell>, t: seq<Cell>)
    requires Simple(f) && Simple(b)
    ensures Restrict(f, b).Some? && Matches(Restrict(f, b).value, t) <==>
      Matches(f, t) && Matches(b, t) && !TooShort(f, b, t)
  {
    RestrictExact(f, b, t);
    if Restrict(f, b).Some? {
      RestrictSound(f, b, t);
      RestrictShape(f, b);
      SimpleMeaning(Restrict(f, b).value, t);
    }
  }

  /** Failure means no common topic, and otherwise the result is the intersection, short topics aside. */
  lemma RestrictExact(f: seq<Cell>, b: seq<Cell>, t: seq<Cell>)
    requires Simple(f) && Simple(b)
    ensures Restrict(f, b).None? ==> !(Matches(f, t) && Matches(b, t))
    ensures Restrict(f, b).Some? && !TooShort(f, b, t) ==>
      (Matches(Restrict(f, b).value, t) <==> Matches(f, t) && Matches(b, t))
  {
    var x, y := ShapeOf(f), ShapeOf(b);
    RestrictShape(f, b);
    SimpleMeaning(f, t);
    SimpleMeaning(b, t);
    if Restrict(f, b).Some? {
      RestrictSound(f, b, t);
      SimpleMeaning(Restrict(f, b).value, t);
    }
    if Denotes(x, t) && Denotes(y, t) {
      MeetComplete(x, y, t);
    }
  }

  // ---- the topics two starred patterns lose ----

  /** The last n cells of one prefix can be the first n of the other suffix. */
  predicate Overlap(pre: seq<Cell>, suf: seq<Cell>, n: int) {
    0 <= n <= |pre| && n <= |suf| && forall i :: 0 <= i < n ==> Compatible(pre[|pre| - n + i], suf[i])
  }

  /** x has the longer prefix and y the longer suffix, and the excess of both can overlap. */
  predicate Crosses(x: Shape, y: Shape)
    requires x.Starred? && y.Starred?
  {
    exists n :: 1 <= n <= |x.pre| - |y.pre| && n <= |y.suf| - |x.suf| && Overlap(x.pre, y.suf, n)
  }

  predicate Crossing(f: seq<Cell>, b: seq<Cell>) {
    var x, y := ShapeOf(f), ShapeOf(b);
    x.Starred? && y.Starred? && (Crosses(x, y) || Crosses(y, x))
  }

  function Ground(x: Cell): (c: Cell)
  {
    if x.Name? then x else Name("a")
  }

  function OverlaidCell(x: Shape, y: Shape, n: nat, i: nat): (c: Cell)
    requires x.Starred? && y.Starred? && n <= |x.pre| && n <= |y.suf| && i < |x.pre| - n + |y.suf|
  {
    var m := |x.pre| - n;
    if i < |y.pre| && i < m then MeetCell(x.pre[i], y.pre[i])
    else if i < m then x.pre[i]
    else if i < |x.pre| then MeetCell(x.pre[i], y.suf[i - m])
    else if m + |y.suf| - |x.suf| <= i then MeetCell(y.suf[i - m], x.suf[i - m - |y.suf| + |x.suf|])
    else y.suf[i - m]
  }

  /** A topic both patterns match, with the two excesses laid over one another. */
  function Overlaid(x: Shape, y: Shape, n: nat): (t: seq<Cell>)
    requires x.Starred? && y.Starred? && n <= |x.pre| && n <= |y.suf|
  {
    seq(|x.pre| - n + |y.suf|, i requires 0 <= i < |x.pre| - n + |y.suf| => Ground(OverlaidCell(x, y, n, i)))
  }

  lemma OverlaidLeft(x: Shape, y: Shape, n: nat)
    requires Plain(x) && Plain(y) && x.Starred? && y.Starred? && FrontsAgree(x.pre, y.pre) && BacksAgree(y.suf, x.suf)
    requires 1 <= n <= |x.pre| - |y.pre| && n <= |y.suf| - |x.suf| && Overlap(x.pre, y.suf, n)
    ensures Denotes(x, Overlaid(x, y, n))
  {
    var t, m := Overlaid(x, y, n), |x.pre| - n;
    forall i | 0 <= i < |x.pre| ensures CellMatches(x.pre[i], t[i]) {
      if m <= i {
        assert Compatible(x.pre[|x.pre| - n + (i - m)], y.suf[i - m]);
      }
    }
    forall i | 0 <= i < |x.suf| ensures CellMatches(x.suf[i], t[|t| - |x.suf| + i]) {
      var j := |y.suf| - |x.suf| + i;
      BackCell(y.suf, x.suf, j);
      assert t[m + j] == Ground(MeetCell(y.suf[j], x.suf[i]));
    }
  }

  lemma OverlaidRight(x: Shape, y: Shape, n: nat)
    requires Plain(x) && Plain(y) && x.Starred? && y.Starred? && FrontsAgree(x.pre, y.pre) && BacksAgree(y.suf, x.suf)
    requires 1 <= n <= |x.pre| - |y.pre| && n <= |y.suf| - |x.suf| && Overlap(x.pre, y.suf, n)
    ensures Denotes(y, Overlaid(x, y, n))
  {
    var t, m := Overlaid(x, y, n), |x.pre| - n;
    forall i | 0 <= i < |y.suf| ensures CellMatches(y.suf[i], t[|t| - |y.suf| + i]) {
      assert |t| - |y.suf| + i == m + i;
      if m + i < |x.pre| {
        assert Compatible(x.pre[|x.pre| - n + i], y.suf[i]);
      } else if |y.suf| - |x.suf| <= i {
        BackCell(y.suf, x.suf, i);
      }
    }
  }

  lemma CrossesLoses(x: Shape, y: Shape) returns (t: seq<Cell>)
    requires Plain(x) && Plain(y) && x.Starred? && y.Starred? && Meet(x, y).Some? && Crosses(x, y)
    ensures Concrete(t) && Denotes(x, t) && Denotes(y, t)
    ensures (MeetPlain(x, y); !Denotes(Meet(x, y).value, t))
  {
    var n: nat :| 1 <= n <= |x.pre| - |y.pre| && n <= |y.suf| - |x.suf| && Overlap(x.pre, y.suf, n);
    assert FrontsAgree(x.pre, y.pre);
    BacksCommute(x.suf, y.suf);
    t := Overlaid(x, y, n);
    OverlaidLeft(x, y, n);
    OverlaidRight(x, y, n);
    OverlaidIsShort(x, y, n);
  }

  lemma OverlaidIsShort(x: Shape, y: Shape, n: nat)
    requires x.Starred? && y.Starred? && 1 <= n <= |x.pre| && n <= |y.suf|
    ensures Concrete(Overlaid(x, y, n)) && |Overlaid(x, y, n)| < |x.pre| + |y.suf|
  {
    var t := Overlaid(x, y, n);
    forall i | 0 <= i < |t| ensures t[i].Name? {
      assert t[i] == Ground(OverlaidCell(x, y, n, i));
    }
  }

  /** Every topic lost comes from such an overlap. */
  lemma LossCrosses(x: Shape, y: Shape, t: seq<Cell>)
    requires Plain(x) && Plain(y) && x.Starred? && y.Starred? && Denotes(x, t) && Denotes(y, t)
    requires |t| < |x.pre| + |y.suf| && |y.pre| <= |x.pre| && |x.suf| <= |y.suf|
    ensures Crosses(x, y)
  {
    var n := |x.pre| + |y.suf| - |t|;
    forall i | 0 <= i < n ensures Compatible(x.pre[|x.pre| - n + i], y.suf[i]) {
      assert CellMatches(x.pre[|x.pre| - n + i], t[|x.pre| - n + i]);
      assert CellMatches(y.suf[i], t[|t| - |y.suf| + i]);
    }
    assert Overlap(x.pre, y.suf, n);
  }

  /** The result of a successful restriction matches every topic its inputs share. */
  ghost predicate Lossless(f: seq<Cell>, b: seq<Cell>)
    requires Restrict(f, b).Some?
  {
    forall t :: Matches(f, t) && Matches(b, t) ==> Matches(Restrict(f, b).value, t)
  }

  lemma CrossingLoses(f: seq<Cell>, b: seq<Cell>) returns (t: seq<Cell>)
    requires Restrict(f, b).Some? && Crossing(f, b)
    ensures Concrete(t) && Matches(f, t) && Matches(b, t) && !Matches(Restrict(f, b).value, t)
  {
    var x, y := ShapeOf(f), ShapeOf(b);
    RestrictShape(f, b);
    MeetPlain(x, y);
    if Crosses(x, y) {
      t := CrossesLoses(x, y);
    } else {
      MeetCommutes(x, y);
      t := CrossesLoses(y, x);
    }
    SimpleMeaning(f, t);
    SimpleMeaning(b, t);
    SimpleMeaning(Restrict(f, b).value, t);
  }

  /** Exactly the pairs of patterns whose restriction is their intersection. */
  lemma LosslessIff(f: seq<Cell>, b: seq<Cell>)
    requires Restrict(f, b).Some?
    ensures Lossless(f, b) <==> !Crossing(f, b)
  {
    if Crossing(f, b) {
      var t := CrossingLoses(f, b);
    } else {
      forall t | Matches(f, t) && Matches(b, t) ensures Matches(Restrict(f, b).value, t) {
        RestrictSound(f, b, t);
        RestrictExact(f, b, t);
        if TooShort(f, b, t) {
          SimpleMeaning(f, t);
          SimpleMeaning(b, t);
          TooShortCrosses(ShapeOf(f), ShapeOf(b), t);
        }
      }
    }
  }

  lemma TooShortCrosses(x: Shape, y: Shape, t: seq<Cell>)
    requires Plain(x) && Plain(y) && x.Starred? && y.Starred? && Denotes(x, t) && Denotes(y, t)
    requires |t| < Max(|x.pre|, |y.pre|) + Max(|x.suf|, |y.suf|)
    ensures Crosses(x, y) || Crosses(y, x)
  {
    if |y.pre| <= |x.pre| {
      LossCrosses(x, y, t);
    } else {
      LossCrosses(y, x, t);
    }
  }

  // For instance [a, b, *] with [*, b, c]: [a, b, c] is matched by both, and not by the result [a, b, *, b, c].
  lemma LostTopic()
    ensures var a, b, c := Name("a"), Name("b"), Name("c");
      && Restrict([a, b, Star], [Star, b, c]) == Some([a, b, Star, b, c])
      && Matches([a, b, Star], [a, b, c]) && Matches([Star, b, c], [a, b, c])
      && !Matches([a, b, Star, b, c], [a, b, c])
  {
    LostTopicOf(Name("a"), Name("b"), Name("c"));
  }

  lemma LostTopicOf(a: Cell, b: Cell, c: Cell)
    requires a.Name? && b.Name? && c.Name?
    ensures Restrict([a, b, Star], [Star, b, c]) == Some([a, b, Star, b, c])
    ensures Matches([a, b, Star], [a, b, c]) && Matches([Star, b, c], [a, b, c])
    ensures !Matches([a, b, Star, b, c], [a, b, c])
  {
    var x, y, m, t := Starred([a, b], []), Starred([], [b, c]), Starred([a, b], [b, c]), [a, b, c];
    ShapeOfRender(x);
    ShapeOfRender(y);
    ShapeOfRender(m);
    assert Render(x) == [a, b, Star] && Render(y) == [Star, b, c] && Render(m) == [a, b, Star, b, c];
    assert Meet(x, y) == Some(m) by {
      assert Front([a, b], []) == [a, b] && Back([], [b, c]) == [b, c];
    }
    SimpleMeaning(Render(x), t);
    SimpleMeaning(Render(y), t);
    SimpleMeaning(Render(m), t);
  }
}
