/**
 * The pattern language of resource names. A name is a list of cells; in a pattern the cell "+" stands for
 * any one cell and the cell "*" for any run of cells, the empty run included.
 */
module Patterns {
  /** The cells "*" and "+", and every other. */
  datatype Cell = Star | Plus | Name(text: string)

  predicate Starless(p: seq<Cell>) {
    forall i :: 0 <= i < |p| ==> p[i] != Star
  }

  /** A topic as clients publish on it: no wildcards. */
  predicate Concrete(t: seq<Cell>) {
    forall i :: 0 <= i < |t| ==> t[i].Name?
  }

  predicate CellMatches(x: Cell, c: Cell) {
    x == Plus || x == c
  }

  /** What patterns mean: the topics they match, with any number of stars. */
  predicate Matches(p: seq<Cell>, t: seq<Cell>)
    decreases |p|
  {
    if p == [] then t == []
    else if p[0] == Star then exists k :: 0 <= k <= |t| && Matches(p[1..], t[k..])
    else t != [] && CellMatches(p[0], t[0]) && Matches(p[1..], t[1..])
  }

  /** A pattern with no star, one star between two starless ends, or more stars than that. */
  datatype Shape = Flat(cells: seq<Cell>) | Starred(pre: seq<Cell>, suf: seq<Cell>) | Wild

  /** No star among the cells from a up to b. */
  predicate Clear(p: seq<Cell>, a: int, b: int) {
    forall i :: 0 <= a <= i < b && i < |p| ==> p[i] != Star
  }

  function FirstStar(p: seq<Cell>, from: nat): (i: nat)
    requires from <= |p|
    ensures from <= i <= |p| && Clear(p, from, i) && (i < |p| ==> p[i] == Star)
    decreases |p| - from
  {
    if from == |p| || p[from] == Star then from else FirstStar(p, from + 1)
  }

  function ShapeOf(p: seq<Cell>): (s: Shape)
    ensures Plain(s) && (!s.Wild? ==> Render(s) == p)
  {
    var i := FirstStar(p, 0);
    if i == |p| then Flat(p)
    else if FirstStar(p, i + 1) == |p| then Starred(p[..i], p[i + 1..])
    else Wild
  }

  predicate Plain(s: Shape) {
    match s
    case Flat(c) => Starless(c)
    case Starred(pre, suf) => Starless(pre) && Starless(suf)
    case Wild => true
  }

  function Render(s: Shape): seq<Cell>
    requires !s.Wild?
  {
    if s.Flat? then s.cells else s.pre + [Star] + s.suf
  }

  /** At most one star, the condition resource names are held to. */
  predicate Simple(p: seq<Cell>) {
    !ShapeOf(p).Wild?
  }

  lemma FlatShape(p: seq<Cell>)
    requires Starless(p)
    ensures ShapeOf(p) == Flat(p)
  {
  }

  lemma StarredShape(p: seq<Cell>, i: nat)
    requires i < |p| && p[i] == Star && Clear(p, 0, i) && Clear(p, i + 1, |p|)
    ensures ShapeOf(p) == Starred(p[..i], p[i + 1..])
  {
  }

  lemma ShapeOfRender(s: Shape)
    requires Plain(s) && !s.Wild?
    ensures ShapeOf(Render(s)) == s
  {
    match s
    case Flat(c) => FlatShape(c);
    case Starred(pre, suf) =>
      var p := Render(s);
      assert p[..|pre|] == pre && p[|pre| + 1..] == suf;
      StarredShape(p, |pre|);
  }

  // ---- the meaning of a simple pattern, cell by cell ----

  predicate StartsLike(pre: seq<Cell>, t: seq<Cell>) {
    |pre| <= |t| && forall i :: 0 <= i < |pre| ==> CellMatches(pre[i], t[i])
  }

  /** The last cells of t, counted from the end. */
  predicate EndsLike(suf: seq<Cell>, t: seq<Cell>) {
    |suf| <= |t| && forall i :: 0 <= i < |suf| ==> CellMatches(suf[i], t[|t| - |suf| + i])
  }

  predicate Denotes(s: Shape, t: seq<Cell>)
    requires !s.Wild?
  {
    match s
    case Flat(c) => |c| == |t| && StartsLike(c, t)
    case Starred(pre, suf) => |pre| + |suf| <= |t| && StartsLike(pre, t) && EndsLike(suf, t)
  }

  lemma StartsLikeTail(p: seq<Cell>, t: seq<Cell>)
    requires p != []
    ensures StartsLike(p, t) <==> t != [] && CellMatches(p[0], t[0]) && StartsLike(p[1..], t[1..])
  {
    if t != [] && CellMatches(p[0], t[0]) && StartsLike(p[1..], t[1..]) {
      forall i | 0 <= i < |p| ensures CellMatches(p[i], t[i]) {
        if i > 0 {
          assert CellMatches(p[1..][i - 1], t[1..][i - 1]);
        }
      }
    }
  }

  lemma {:induction false} FlatMeaning(p: seq<Cell>, t: seq<Cell>)
    requires Starless(p)
    ensures Matches(p, t) <==> |p| == |t| && StartsLike(p, t)
    decreases |p|
  {
    if p != [] {
      StartsLikeTail(p, t);
      if t != [] {
        FlatMeaning(p[1..], t[1..]);
      }
    }
  }

  lemma EndsLikeSlice(suf: seq<Cell>, t: seq<Cell>, k: nat)
    requires k <= |t| && |suf| == |t| - k
    ensures StartsLike(suf, t[k..]) <==> EndsLike(suf, t)
  {
    if EndsLike(suf, t) {
      forall i | 0 <= i < |suf| ensures CellMatches(suf[i], t[k..][i]) {
        assert t[k..][i] == t[|t| - |suf| + i];
      }
    }
    if StartsLike(suf, t[k..]) {
      forall i | 0 <= i < |suf| ensures CellMatches(suf[i], t[|t| - |suf| + i]) {
        assert t[k..][i] == t[|t| - |suf| + i];
      }
    }
  }

  lemma StarMeaning(suf: seq<Cell>, t: seq<Cell>)
    requires Starless(suf)
    ensures Matches([Star] + suf, t) <==> EndsLike(suf, t)
  {
    var p := [Star] + suf;
    assert p[1..] == suf;
    forall k | 0 <= k <= |t|
      ensures Matches(suf, t[k..]) <==> |suf| == |t| - k && EndsLike(suf, t)
    {
      FlatMeaning(suf, t[k..]);
      if |suf| == |t| - k {
        EndsLikeSlice(suf, t, k);
      }
    }
    if EndsLike(suf, t) {
      assert Matches(p[1..], t[|t| - |suf|..]);
    }
  }

  lemma EndsLikeTail(suf: seq<Cell>, t: seq<Cell>)
    requires |suf| < |t|
    ensures EndsLike(suf, t) <==> EndsLike(suf, t[1..])
  {
    if EndsLike(suf, t[1..]) {
      forall i | 0 <= i < |suf| ensures CellMatches(suf[i], t[|t| - |suf| + i]) {
        assert t[|t| - |suf| + i] == t[1..][|t| - 1 - |suf| + i];
      }
    }
  }

  lemma {:induction false} StarredMeaning(pre: seq<Cell>, suf: seq<Cell>, t: seq<Cell>)
    requires Starless(pre) && Starless(suf)
    ensures Matches(pre + [Star] + suf, t) <==> Denotes(Starred(pre, suf), t)
    decreases |pre|
  {
    var p := pre + [Star] + suf;
    if pre == [] {
      assert p == [Star] + suf;
      StarMeaning(suf, t);
    } else {
      assert p[1..] == pre[1..] + [Star] + suf;
      StartsLikeTail(pre, t);
      if t != [] {
        StarredMeaning(pre[1..], suf, t[1..]);
        if |suf| < |t| {
          EndsLikeTail(suf, t);
        }
      }
    }
  }

  /** A simple pattern matches the topics that fit its cells. */
  lemma SimpleMeaning(p: seq<Cell>, t: seq<Cell>)
    requires Simple(p)
    ensures Matches(p, t) <==> Denotes(ShapeOf(p), t)
  {
    match ShapeOf(p)
    case Flat(c) => FlatMeaning(p, t);
    case Starred(pre, suf) => StarredMeaning(pre, suf, t);
  }
}
