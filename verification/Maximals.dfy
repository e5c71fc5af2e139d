/** Keeping one copy of each maximal element of a list, for any partial order. */
module Maximals {
  ghost predicate PartialOrder<P(!new)>(below: (P, P) -> bool) {
    && (forall a, b :: below(a, b) && below(b, a) ==> a == b)
    && (forall a, b, c :: below(a, b) && below(b, c) ==> below(a, c))
  }

  predicate Strictly<P(==)>(below: (P, P) -> bool, a: P, b: P) {
    below(a, b) && a != b
  }

  /** Position o is not needed because of position i. */
  predicate Redundant<P(==)>(list: seq<P>, below: (P, P) -> bool, o: nat, i: nat)
    requires o < |list| && i < |list|
  {
    Strictly(below, list[o], list[i]) || (list[o] == list[i] && i < o)
  }

  predicate Kept<P(==)>(list: seq<P>, below: (P, P) -> bool, o: nat)
    requires o < |list|
  {
    forall i :: 0 <= i < |list| ==> !Redundant(list, below, o, i)
  }

  function MaximalsUpTo<P(==)>(list: seq<P>, below: (P, P) -> bool, n: nat): (r: seq<P>)
    requires n <= |list|
  {
    if n == 0 then []
    else if Kept(list, below, n - 1) then MaximalsUpTo(list, below, n - 1) + [list[n - 1]]
    else MaximalsUpTo(list, below, n - 1)
  }

  /** Nothing in the list is strictly above. */
  predicate Maximal<P(==)>(list: seq<P>, below: (P, P) -> bool, p: P) {
    forall i :: 0 <= i < |list| ==> !Strictly(below, p, list[i])
  }

  lemma NotAbove<P>(list: seq<P>, below: (P, P) -> bool, p: P, q: P)
    requires Maximal(list, below, p) && q in list
    ensures !Strictly(below, p, q)
  {
    var i :| 0 <= i < |list| && list[i] == q;
    assert !Strictly(below, p, list[i]);
  }

  /** What is kept: the first copy of a maximal element. */
  lemma KeptIff<P>(list: seq<P>, below: (P, P) -> bool, o: nat)
    requires o < |list|
    ensures Kept(list, below, o) <==> Maximal(list, below, list[o]) && list[o] !in list[..o]
  {
    if !Kept(list, below, o) {
      var i: nat :| i < |list| && Redundant(list, below, o, i);
      assert i < o ==> list[..o][i] == list[i];
    }
    if !Maximal(list, below, list[o]) {
      var i: nat :| i < |list| && Strictly(below, list[o], list[i]);
      assert Redundant(list, below, o, i);
    }
    if list[o] in list[..o] {
      var i: nat :| i < o && list[..o][i] == list[o];
      assert Redundant(list, below, o, i);
    }
  }

  lemma {:induction false} MaximalsCount<P>(list: seq<P>, below: (P, P) -> bool, n: nat, p: P)
    requires n <= |list|
    ensures multiset(MaximalsUpTo(list, below, n))[p] ==
            if p in list[..n] && Maximal(list, below, p) then 1 else 0
    decreases n
  {
    if n > 0 {
      MaximalsCount(list, below, n - 1, p);
      KeptIff(list, below, n - 1);
      assert list[..n] == list[..n - 1] + [list[n - 1]];
    }
  }

  function Above<P(==)>(list: seq<P>, below: (P, P) -> bool, p: P): (r: set<nat>) {
    set i: nat | i < |list| && Strictly(below, p, list[i])
  }

  /** Every element of the list is below a maximal one. */
  lemma CoveredByMaximal<P(!new)>(list: seq<P>, below: (P, P) -> bool, p: P) returns (q: P)
    requires PartialOrder(below) && p in list
    ensures q in list && Maximal(list, below, q) && (q == p || below(p, q))
    decreases Above(list, below, p)
  {
    if Maximal(list, below, p) {
      q := p;
    } else {
      var i: nat :| i < |list| && Strictly(below, p, list[i]);
      assert i in Above(list, below, p) && i !in Above(list, below, list[i]);
      forall j | j in Above(list, below, list[i]) ensures j in Above(list, below, p) {
        assert below(p, list[i]) && below(list[i], list[j]);
      }
      q := CoveredByMaximal(list, below, list[i]);
    }
  }
}
