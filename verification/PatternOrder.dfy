/** The order "a restricted by b is a", and the plain matcher of topics against patterns. */
module PatternOrder {
  import opened Options
  import opened Patterns
  import opened Restriction
  import opened Intersection

  /** a adds nothing to b. */
  predicate Below(a: seq<Cell>, b: seq<Cell>) {
    Restrict(a, b) == Some(a)
  }

  /** The same order cell by cell: a wildcard cell is above every cell. */
  predicate Under(x: Shape, y: Shape) {
    match (x, y)
    case (Flat(c), Flat(_)) => Denotes(y, c)
    case (Flat(c), Starred(_, _)) => Denotes(y, c)
    case (Starred(p, s), Starred(q, u)) => StartsLike(q, p) && EndsLike(u, s)
    case (_, _) => false
  }

  lemma FrontUnder(x: seq<Cell>, y: seq<Cell>)
    requires Starless(x) && Starless(y)
    ensures StartsLike(y, x) <==> FrontsAgree(x, y) && Front(x, y) == x
  {
    if FrontsAgree(x, y) && Front(x, y) == x {
      forall i | 0 <= i < |y| ensures CellMatches(y[i], x[i]) {
        assert Front(x, y)[i] == x[i];
      }
    }
  }

  lemma BackUnder(x: seq<Cell>, y: seq<Cell>)
    requires Starless(x) && Starless(y)
    ensures EndsLike(y, x) <==> BacksAgree(x, y) && Back(x, y) == x
  {
    if EndsLike(y, x) {
      forall i | 0 <= i < |x| && 0 <= i - |x| + |y| ensures Compatible(x[i], y[i - |x| + |y|]) {
        assert CellMatches(y[i - |x| + |y|], x[|x| - |y| + (i - |x| + |y|)]);
      }
      forall i | 0 <= i < |x| ensures Back(x, y)[i] == x[i] {
        BackAt(x, y, i);
        if |x| - |y| <= i {
          assert CellMatches(y[i - |x| + |y|], x[|x| - |y| + (i - |x| + |y|)]);
        }
      }
    }
    if BacksAgree(x, y) && Back(x, y) == x {
      assert |y| <= |x|;
      forall i | 0 <= i < |y| ensures CellMatches(y[i], x[|x| - |y| + i]) {
        BackAt(x, y, |x| - |y| + i);
      }
    }
  }

  lemma InlayUnder(c: seq<Cell>, pre: seq<Cell>, suf: seq<Cell>)
    requires Starless(c) && Starless(pre) && Starless(suf)
    ensures Denotes(Starred(pre, suf), c) <==> Fits(c, pre, suf) && Inlay(c, pre, suf) == c
  {
    if Denotes(Starred(pre, suf), c) {
      FrontUnder(c, pre);
      BackUnder(c, suf);
      forall i | 0 <= i < |c| ensures Inlay(c, pre, suf)[i] == c[i] {
        if |c| - |suf| <= i {
          assert CellMatches(suf[i - |c| + |suf|], c[|c| - |suf| + (i - |c| + |suf|)]);
        }
      }
    }
    if Fits(c, pre, suf) && Inlay(c, pre, suf) == c {
      forall i | 0 <= i < |pre| ensures CellMatches(pre[i], c[i]) {
        assert Inlay(c, pre, suf)[i] == c[i];
      }
      forall i | 0 <= i < |suf| ensures CellMatches(suf[i], c[|c| - |suf| + i]) {
        assert Inlay(c, pre, suf)[|c| - |suf| + i] == c[|c| - |suf| + i];
        BackCell(c, suf, |c| - |suf| + i);
      }
    }
  }

  lemma UnderIff(x: Shape, y: Shape)
    requires Plain(x) && Plain(y)
    ensures Under(x, y) <==> !x.Wild? && Meet(x, y) == Some(x)
  {
    match (x, y)
    case (Flat(c), Flat(d)) => FrontUnder(c, d);
    case (Flat(c), Starred(pre, suf)) => InlayUnder(c, pre, suf);
    case (Starred(p, s), Starred(q, u)) =>
      FrontUnder(p, q);
      BackUnder(s, u);
    case (_, _) =>
  }

  lemma BelowIff(a: seq<Cell>, b: seq<Cell>)
    ensures Below(a, b) <==> Under(ShapeOf(a), ShapeOf(b))
  {
    UnderIff(ShapeOf(a), ShapeOf(b));
    RestrictShape(a, b);
  }

  // ---- a partial order ----

  lemma StartsLikeChain(x: seq<Cell>, y: seq<Cell>, z: seq<Cell>)
    requires StartsLike(x, y) && StartsLike(y, z) && Starless(y) && Starless(x)
    ensures StartsLike(x, z)
  {
    forall i | 0 <= i < |x| ensures CellMatches(x[i], z[i]) {
      assert CellMatches(x[i], y[i]) && CellMatches(y[i], z[i]);
    }
  }

  lemma EndsLikeChain(x: seq<Cell>, y: seq<Cell>, z: seq<Cell>)
    requires EndsLike(x, y) && EndsLike(y, z)
    ensures EndsLike(x, z)
  {
    forall i | 0 <= i < |x| ensures CellMatches(x[i], z[|z| - |x| + i]) {
      var j := |y| - |x| + i;
      assert CellMatches(x[i], y[j]) && CellMatches(y[j], z[|z| - |y| + j]);
    }
  }

  lemma Reflexive(a: seq<Cell>)
    ensures Below(a, a) <==> Simple(a)
  {
    BelowIff(a, a);
  }

  lemma Antisymmetric(a: seq<Cell>, b: seq<Cell>)
    requires Below(a, b) && Below(b, a)
    ensures a == b
  {
    RestrictCommutes(a, b);
  }

  lemma Transitive(a: seq<Cell>, b: seq<Cell>, c: seq<Cell>)
    requires Below(a, b) && Below(b, c)
    ensures Below(a, c)
  {
    BelowIff(a, b);
    BelowIff(b, c);
    BelowIff(a, c);
    var x, y, z := ShapeOf(a), ShapeOf(b), ShapeOf(c);
    match (x, y, z)
    case (Flat(f), Flat(g), Flat(h)) => StartsLikeChain(h, g, f);
    case (Flat(f), Flat(g), Starred(pre, suf)) =>
      StartsLikeChain(pre, g, f);
      assert EndsLike(g, f);
      EndsLikeChain(suf, g, f);
    case (Flat(f), Starred(p, s), Starred(q, u)) =>
      StartsLikeChain(q, p, f);
      EndsLikeChain(u, s, f);
    case (Starred(o, r), Starred(p, s), Starred(q, u)) =>
      StartsLikeChain(q, p, o);
      EndsLikeChain(u, s, r);
    case (_, _, _) =>
  }

  /** The order is sound: what is below matches fewer topics. */
  lemma BelowMatchesFewer(a: seq<Cell>, b: seq<Cell>, t: seq<Cell>)
    requires Below(a, b) && Matches(a, t)
    ensures Matches(b, t)
  {
    RestrictSound(a, b, t);
  }

  lemma UnderBoth(w: Shape, x: Shape, y: Shape)
    requires Plain(w) && Plain(x) && Plain(y) && Under(w, x) && Under(w, y)
    requires w.Flat? && x.Starred? && y.Starred? ==> Max(|x.pre|, |y.pre|) + Max(|x.suf|, |y.suf|) <= |w.cells|
    ensures Meet(x, y).Some? && Under(w, Meet(x, y).value)
  {
    if w.Flat? {
      MeetComplete(x, y, w.cells);
    } else {
      FrontsMatchSame(x.pre, y.pre, w.pre);
      FrontMeans(x.pre, y.pre, w.pre);
      BacksMatchSame(x.suf, y.suf, w.suf);
      BackMeansBoth(x.suf, y.suf, w.suf);
    }
  }

  /** Whatever is below both patterns is below their restriction, unless it is a starless name too short for them. */
  lemma BelowBoth(u: seq<Cell>, p: seq<Cell>, q: seq<Cell>)
    requires Below(u, p) && Below(u, q) && !(Starless(u) && TooShort(p, q, u))
    ensures Restrict(p, q).Some? && Below(u, Restrict(p, q).value)
  {
    BelowIff(u, p);
    BelowIff(u, q);
    UnderBoth(ShapeOf(u), ShapeOf(p), ShapeOf(q));
    RestrictShape(p, q);
    BelowIff(u, Restrict(p, q).value);
  }

  // ---- topics ----

  /** On a name without a star, restricting to the name itself is matching. */
  lemma BelowIsMatching(t: seq<Cell>, p: seq<Cell>)
    requires Starless(t) && Simple(p)
    ensures Below(t, p) <==> Matches(p, t)
  {
    FlatShape(t);
    BelowIff(t, p);
    SimpleMeaning(p, t);
  }

  /** The recursive matcher. */
  predicate TopicMatches(t: seq<Cell>, pattern: seq<Cell>)
    decreases |pattern|
  {
    if t == [] && pattern == [] then true
    else if t == [] || pattern == [] then false
    else if t[0] == pattern[0] || pattern[0] == Plus then TopicMatches(t[1..], pattern[1..])
    else pattern[0] == Star && exists i :: 0 <= i < |t| && TopicMatches(t[i..], pattern[1..])
  }

  predicate EndsInStar(p: seq<Cell>) {
    p != [] && p[|p| - 1] == Star
  }

  /** A pattern that does not end in a star needs a cell to match. */
  lemma {:induction false} NeedsCell(p: seq<Cell>)
    requires p != [] && !EndsInStar(p)
    ensures !Matches(p, [])
    decreases |p|
  {
    if p[0] == Star {
      NeedsCell(p[1..]);
      var t: seq<Cell> := [];
      forall k | 0 <= k <= |t| ensures !Matches(p[1..], t[k..]) {
        assert t[k..] == [];
      }
    }
  }

  /** The matcher finds what the pattern means, except that it never matches a pattern that ends in a star. */
  lemma {:induction false} TopicMatchesIff(t: seq<Cell>, p: seq<Cell>)
    requires Starless(t)
    ensures TopicMatches(t, p) <==> Matches(p, t) && !EndsInStar(p)
    decreases |p|
  {
    if p != [] {
      if t == [] {
        if !EndsInStar(p) {
          NeedsCell(p);
        }
      } else if p[0] != Star {
        TopicMatchesIff(t[1..], p[1..]);
        if p[1..] == [] {
          assert !EndsInStar(p);
        }
      } else {
        StarCase(t, p);
      }
    }
  }

  lemma {:induction false} StarCase(t: seq<Cell>, p: seq<Cell>)
    requires Starless(t) && t != [] && p != [] && p[0] == Star
    ensures TopicMatches(t, p) <==> Matches(p, t) && !EndsInStar(p)
    decreases |p|, 0
  {
    forall i | 0 <= i < |t| ensures TopicMatches(t[i..], p[1..]) <==> Matches(p[1..], t[i..]) && !EndsInStar(p[1..]) {
      TopicMatchesIff(t[i..], p[1..]);
    }
    assert t[0] != p[0];
    if p[1..] == [] {
      assert EndsInStar(p);
      forall i | 0 <= i < |t| ensures !TopicMatches(t[i..], p[1..]) {
        assert t[i..] != [];
      }
    } else {
      assert EndsInStar(p) == EndsInStar(p[1..]);
      if !EndsInStar(p) {
        NeedsCell(p[1..]);
        assert t[|t|..] == [];
      }
    }
  }

  /** Matching by restriction and matching by recursion agree, but for patterns that end in a star. */
  lemma MatchersAgree(t: seq<Cell>, p: seq<Cell>)
    requires Starless(t) && Simple(p) && !EndsInStar(p)
    ensures TopicMatches(t, p) <==> Restrict(t, p) == Some(t)
  {
    TopicMatchesIff(t, p);
    BelowIsMatching(t, p);
  }

  /** The matcher as a recursion with a loop over the cells a star may take. */
  method MatchTopic(t: seq<Cell>, pattern: seq<Cell>) returns (r: bool)
    ensures r == TopicMatches(t, pattern)
    ensures Starless(t) ==> (r <==> Matches(pattern, t) && !EndsInStar(pattern))
    decreases |pattern|
  {
    if Starless(t) {
      TopicMatchesIff(t, pattern);
    }
    if |t| == 0 && |pattern| == 0 {
      return true;
    }
    if |t| == 0 || |pattern| == 0 {
      return false;
    }
    if t[0] == pattern[0] || pattern[0] == Plus {
      r := MatchTopic(t[1..], pattern[1..]);
      return;
    }
    if pattern[0] == Star {
      for i := 0 to |t|
        invariant forall j :: 0 <= j < i ==> !TopicMatches(t[j..], pattern[1..])
      {
        var found := MatchTopic(t[i..], pattern[1..]);
        if found {
          return true;
        }
      }
    }
    return false;
  }
}
