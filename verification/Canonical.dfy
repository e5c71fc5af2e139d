/** Folding several lists of alternative patterns into one, keeping only the most general patterns. */
module Canonical {
  import opened Options
  import opened Patterns
  import opened Restriction
  import opened Intersection
  import opened PatternOrder
  import opened Maximals

  type Pattern = seq<Cell>

  predicate AllSimple(list: seq<Pattern>) {
    forall i :: 0 <= i < |list| ==> Simple(list[i])
  }

  /** The topics a list of alternatives matches. */
  predicate MatchesSome(list: seq<Pattern>, t: seq<Cell>) {
    exists i :: 0 <= i < |list| && Matches(list[i], t)
  }

  // ---- every pair restricted ----

  function ProductsOf(p: Pattern, rhs: seq<Pattern>): (r: seq<Pattern>)
    ensures AllSimple(r)
  {
    if rhs == [] then []
    else
      var rest := ProductsOf(p, rhs[..|rhs| - 1]);
      var res := Restrict(p, rhs[|rhs| - 1]);
      if res.Some? then
        RestrictSound(p, rhs[|rhs| - 1], []);
        rest + [res.value]
      else rest
  }

  function Products(lhs: seq<Pattern>, rhs: seq<Pattern>): (r: seq<Pattern>)
    ensures AllSimple(r)
  {
    if lhs == [] then [] else Products(lhs[..|lhs| - 1], rhs) + ProductsOf(lhs[|lhs| - 1], rhs)
  }

  method RestrictPairs(lhs: seq<Pattern>, rhs: seq<Pattern>) returns (retv: seq<Pattern>)
    ensures retv == Products(lhs, rhs)
  {
    retv := [];
    for i := 0 to |lhs|
      invariant retv == Products(lhs[..i], rhs)
    {
      ghost var before := retv;
      assert lhs[..i + 1][..i] == lhs[..i];
      for j := 0 to |rhs|
        invariant retv == before + ProductsOf(lhs[i], rhs[..j])
      {
        assert rhs[..j + 1][..j] == rhs[..j];
        var res := RestrictBy(lhs[i], rhs[j]);
        if res.Some? {
          retv := retv + [res.value];
        }
      }
      assert rhs[..|rhs|] == rhs;
    }
    assert lhs[..|lhs|] == lhs;
  }

  lemma {:induction false} ProductOfIn(p: Pattern, rhs: seq<Pattern>, j: nat)
    requires j < |rhs| && Restrict(p, rhs[j]).Some?
    ensures Restrict(p, rhs[j]).value in ProductsOf(p, rhs)
    decreases |rhs|
  {
    if j < |rhs| - 1 {
      ProductOfIn(p, rhs[..|rhs| - 1], j);
    }
  }

  lemma {:induction false} ProductIn(lhs: seq<Pattern>, rhs: seq<Pattern>, i: nat, j: nat)
    requires i < |lhs| && j < |rhs| && Restrict(lhs[i], rhs[j]).Some?
    ensures Restrict(lhs[i], rhs[j]).value in Products(lhs, rhs)
    decreases |lhs|
  {
    if i < |lhs| - 1 {
      ProductIn(lhs[..|lhs| - 1], rhs, i, j);
    } else {
      ProductOfIn(lhs[i], rhs, j);
    }
  }

  lemma {:induction false} ProductOfFrom(p: Pattern, rhs: seq<Pattern>, k: nat) returns (j: nat)
    requires k < |ProductsOf(p, rhs)|
    ensures j < |rhs| && Restrict(p, rhs[j]) == Some(ProductsOf(p, rhs)[k])
    decreases |rhs|
  {
    var init := rhs[..|rhs| - 1];
    if k < |ProductsOf(p, init)| {
      j := ProductOfFrom(p, init, k);
    } else {
      j := |rhs| - 1;
    }
  }

  lemma {:induction false} ProductFrom(lhs: seq<Pattern>, rhs: seq<Pattern>, k: nat) returns (i: nat, j: nat)
    requires k < |Products(lhs, rhs)|
    ensures i < |lhs| && j < |rhs| && Restrict(lhs[i], rhs[j]) == Some(Products(lhs, rhs)[k])
    decreases |lhs|
  {
    var init := lhs[..|lhs| - 1];
    var n := |Products(init, rhs)|;
    if k < n {
      i, j := ProductFrom(init, rhs, k);
    } else {
      i := |lhs| - 1;
      j := ProductOfFrom(lhs[i], rhs, k - n);
    }
  }

  // ---- the most general patterns ----

  /** The list without redundant patterns. */
  function Dedup(list: seq<Pattern>): (r: seq<Pattern>) {
    MaximalsUpTo(list, Below, |list|)
  }

  lemma RedundantIff(list: seq<Pattern>, o: nat, i: nat)
    requires AllSimple(list) && o < |list| && i < |list| && i != o
    ensures var res := Restrict(list[o], list[i]);
      Redundant(list, Below, o, i) <==>
        res.Some? && ((res.value == list[o] && list[o] != list[i]) || (list[o] == list[i] && o > i))
  {
    Reflexive(list[o]);
  }

  method Deduplicate(retv: seq<Pattern>) returns (dedup: seq<Pattern>)
    requires AllSimple(retv)
    ensures dedup == Dedup(retv)
  {
    dedup := [];
    for out := 0 to |retv|
      invariant dedup == MaximalsUpTo(retv, Below, out)
    {
      var redundant := IsRedundant(retv, out);
      if !redundant {
        dedup := dedup + [retv[out]];
      }
    }
  }

  /** The inner loop, which leaves for the next pattern as soon as this one proves redundant. */
  method IsRedundant(retv: seq<Pattern>, out: nat) returns (redundant: bool)
    requires AllSimple(retv) && out < |retv|
    ensures redundant <==> !Kept(retv, Below, out)
  {
    for i := 0 to |retv|
      invariant forall j :: 0 <= j < i ==> !Redundant(retv, Below, out, j)
    {
      if i != out {
        RedundantIff(retv, out, i);
        var res := RestrictBy(retv[out], retv[i]);
        if res.Some? {
          if res.value == retv[out] && retv[out] != retv[i] {
            return true;
          }
          if retv[out] == retv[i] {
            if out > i {
              return true;
            }
          }
        }
      }
    }
    return false;
  }

  lemma BelowIsOrder()
    ensures PartialOrder(Below)
  {
    forall a, b | Below(a, b) && Below(b, a) ensures a == b {
      Antisymmetric(a, b);
    }
    forall a, b, c | Below(a, b) && Below(b, c) ensures Below(a, c) {
      Transitive(a, b, c);
    }
  }

  /** The list without redundancy holds exactly one copy of each maximal pattern, and nothing else. */
  lemma DedupKeepsMaximal(list: seq<Pattern>, p: Pattern)
    ensures multiset(Dedup(list))[p] == if p in list && Maximal(list, Below, p) then 1 else 0
  {
    MaximalsCount(list, Below, |list|, p);
    assert list[..|list|] == list;
  }

  lemma DedupMember(list: seq<Pattern>, p: Pattern)
    ensures p in Dedup(list) <==> p in list && Maximal(list, Below, p)
  {
    DedupKeepsMaximal(list, p);
  }

  lemma MatchesIn(list: seq<Pattern>, p: Pattern, t: seq<Cell>)
    requires p in list && Matches(p, t)
    ensures MatchesSome(list, t)
  {
  }

  /** Dropping redundant patterns does not change what the list matches. */
  lemma DedupMatchesSame(list: seq<Pattern>, t: seq<Cell>)
    ensures MatchesSome(Dedup(list), t) <==> MatchesSome(list, t)
  {
    var r := Dedup(list);
    if MatchesSome(r, t) {
      var i :| 0 <= i < |r| && Matches(r[i], t);
      DedupMember(list, r[i]);
      MatchesIn(list, r[i], t);
    }
    if MatchesSome(list, t) {
      var i :| 0 <= i < |list| && Matches(list[i], t);
      BelowIsOrder();
      var q := CoveredByMaximal(list, Below, list[i]);
      if q != list[i] {
        BelowMatchesFewer(list[i], q, t);
      }
      DedupMember(list, q);
      MatchesIn(r, q, t);
    }
  }

  lemma OneCopy(r: seq<Pattern>, i: nat, j: nat)
    requires i < j < |r| && r[i] == r[j]
    ensures multiset(r)[r[i]] >= 2
  {
    assert r == r[..i] + [r[i]] + r[i + 1..j] + [r[j]] + r[j + 1..];
  }

  /** No pattern left makes another one redundant. */
  lemma DedupAntichain(list: seq<Pattern>, i: nat, j: nat)
    requires i < |Dedup(list)| && j < |Dedup(list)| && i != j
    ensures !Below(Dedup(list)[i], Dedup(list)[j])
  {
    var r := Dedup(list);
    DedupKeepsMaximal(list, r[i]);
    DedupMember(list, r[i]);
    DedupMember(list, r[j]);
    if r[i] == r[j] {
      OneCopy(r, if i < j then i else j, if i < j then j else i);
    } else {
      NotAbove(list, Below, r[i], r[j]);
    }
  }

  // ---- the fold ----

  function Fold(lhs: seq<Pattern>, rhsz: seq<seq<Pattern>>): (r: seq<Pattern>)
    decreases |rhsz|
  {
    if rhsz == [] then lhs else Fold(Dedup(Products(lhs, rhsz[0])), rhsz[1..])
  }

  method FoldAndCanonicalSuffixes(lhs: seq<Pattern>, rhsz: seq<seq<Pattern>>) returns (r: seq<Pattern>)
    ensures r == Fold(lhs, rhsz)
    decreases |rhsz|
  {
    if |rhsz| == 0 {
      return lhs;
    }
    var retv := RestrictPairs(lhs, rhsz[0]);
    var dedup := Deduplicate(retv);
    r := FoldAndCanonicalSuffixes(dedup, rhsz[1..]);
  }

  lemma ProductsSound(lhs: seq<Pattern>, rhs: seq<Pattern>, t: seq<Cell>)
    requires MatchesSome(Products(lhs, rhs), t)
    ensures MatchesSome(lhs, t) && MatchesSome(rhs, t)
  {
    var r := Products(lhs, rhs);
    var k: nat :| k < |r| && Matches(r[k], t);
    var i, j := ProductFrom(lhs, rhs, k);
    RestrictSound(lhs[i], rhs[j], t);
  }

  /** Two patterns, one of each list, match the topic, and it is long enough for them. */
  ghost predicate Paired(lhs: seq<Pattern>, rhs: seq<Pattern>, t: seq<Cell>) {
    exists i, j :: 0 <= i < |lhs| && 0 <= j < |rhs| && Simple(lhs[i]) && Simple(rhs[j])
      && Matches(lhs[i], t) && Matches(rhs[j], t) && !TooShort(lhs[i], rhs[j], t)
  }

  /** What one round of the fold matches, short topics included. */
  lemma RoundIff(lhs: seq<Pattern>, rhs: seq<Pattern>, t: seq<Cell>)
    ensures MatchesSome(Dedup(Products(lhs, rhs)), t) <==> Paired(lhs, rhs, t)
  {
    var r := Products(lhs, rhs);
    DedupMatchesSame(r, t);
    if MatchesSome(r, t) {
      var k: nat :| k < |r| && Matches(r[k], t);
      var i, j := ProductFrom(lhs, rhs, k);
      RestrictSound(lhs[i], rhs[j], t);
      RestrictMatchesIff(lhs[i], rhs[j], t);
    }
    if Paired(lhs, rhs, t) {
      var i: nat, j: nat :| i < |lhs| && j < |rhs| && Simple(lhs[i]) && Simple(rhs[j])
        && Matches(lhs[i], t) && Matches(rhs[j], t) && !TooShort(lhs[i], rhs[j], t);
      RestrictMatchesIff(lhs[i], rhs[j], t);
      ProductIn(lhs, rhs, i, j);
      MatchesIn(r, Restrict(lhs[i], rhs[j]).value, t);
    }
  }

  /** The fold matches only topics that every list matches. */
  lemma {:induction false} FoldSound(lhs: seq<Pattern>, rhsz: seq<seq<Pattern>>, t: seq<Cell>)
    requires MatchesSome(Fold(lhs, rhsz), t)
    ensures MatchesSome(lhs, t) && forall j :: 0 <= j < |rhsz| ==> MatchesSome(rhsz[j], t)
    decreases |rhsz|
  {
    if rhsz != [] {
      var retv := Products(lhs, rhsz[0]);
      FoldSound(Dedup(retv), rhsz[1..], t);
      DedupMatchesSame(retv, t);
      ProductsSound(lhs, rhsz[0], t);
      forall j | 0 <= j < |rhsz| ensures MatchesSome(rhsz[j], t) {
        assert j > 0 ==> rhsz[j] == rhsz[1..][j - 1];
      }
    }
  }

  /** Simple, with no more than a cells before a star and b after it. */
  predicate Within(p: Pattern, a: nat, b: nat) {
    var x := ShapeOf(p);
    !x.Wild? && (x.Starred? ==> |x.pre| <= a && |x.suf| <= b)
  }

  predicate AllWithin(list: seq<Pattern>, a: nat, b: nat) {
    forall i :: 0 <= i < |list| ==> Within(list[i], a, b)
  }

  lemma RestrictWithin(p: Pattern, q: Pattern, a: nat, b: nat)
    requires Within(p, a, b) && Within(q, a, b) && Restrict(p, q).Some?
    ensures Within(Restrict(p, q).value, a, b)
  {
    RestrictShape(p, q);
  }

  lemma ProductsWithin(lhs: seq<Pattern>, rhs: seq<Pattern>, a: nat, b: nat)
    requires AllWithin(lhs, a, b) && AllWithin(rhs, a, b)
    ensures AllWithin(Products(lhs, rhs), a, b) && AllWithin(Dedup(Products(lhs, rhs)), a, b)
  {
    var r := Products(lhs, rhs);
    forall k | 0 <= k < |r| ensures Within(r[k], a, b) {
      var i, j := ProductFrom(lhs, rhs, k);
      RestrictWithin(lhs[i], rhs[j], a, b);
    }
    forall k | 0 <= k < |Dedup(r)| ensures Within(Dedup(r)[k], a, b) {
      DedupMember(r, Dedup(r)[k]);
    }
  }

  lemma ProductsExact(lhs: seq<Pattern>, rhs: seq<Pattern>, t: seq<Cell>, a: nat, b: nat)
    requires AllWithin(lhs, a, b) && AllWithin(rhs, a, b) && a + b <= |t|
    requires MatchesSome(lhs, t) && MatchesSome(rhs, t)
    ensures MatchesSome(Products(lhs, rhs), t)
  {
    var i: nat :| i < |lhs| && Matches(lhs[i], t);
    var j: nat :| j < |rhs| && Matches(rhs[j], t);
    RestrictExact(lhs[i], rhs[j], t);
    ProductIn(lhs, rhs, i, j);
    MatchesIn(Products(lhs, rhs), Restrict(lhs[i], rhs[j]).value, t);
  }

  /** On topics long enough for all the starred patterns the fold is the conjunction of the lists. */
  lemma {:induction false} FoldExact(lhs: seq<Pattern>, rhsz: seq<seq<Pattern>>, t: seq<Cell>, a: nat, b: nat)
    requires AllWithin(lhs, a, b) && (forall j :: 0 <= j < |rhsz| ==> AllWithin(rhsz[j], a, b)) && a + b <= |t|
    ensures MatchesSome(Fold(lhs, rhsz), t) <==>
      MatchesSome(lhs, t) && forall j :: 0 <= j < |rhsz| ==> MatchesSome(rhsz[j], t)
    decreases |rhsz|
  {
    if rhsz != [] {
      if MatchesSome(Fold(lhs, rhsz), t) {
        FoldSound(lhs, rhsz, t);
      }
      var retv := Products(lhs, rhsz[0]);
      ProductsWithin(lhs, rhsz[0], a, b);
      DedupMatchesSame(retv, t);
      FoldExact(Dedup(retv), rhsz[1..], t, a, b);
      if MatchesSome(lhs, t) && forall j :: 0 <= j < |rhsz| ==> MatchesSome(rhsz[j], t) {
        ProductsExact(lhs, rhsz[0], t, a, b);
      }
    }
  }
}
