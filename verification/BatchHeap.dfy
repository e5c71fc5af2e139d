/**
 The heap of scalars and the Bos-Coster loop of crypto/ed25519-donna-batchverify.h.
 Scalars are natural numbers here; points live in an abstract abelian group.
 */
module BatchHeap {
  import opened Options
  import opened Groups
  import opened Recoding
  import opened Words
  import opened Divisors

  // ----- the heap, as a sequence of indices into the scalars -----

  /** The first n entries are 0 .. n - 1 in some order. */
  ghost predicate Permuted(h: seq<nat>, n: nat) {
    && n <= |h|
    && (forall i :: 0 <= i < n ==> h[i] < n)
    && (forall i, j :: 0 <= i < j < n ==> h[i] != h[j])
    && (forall x :: 0 <= x < n ==> x in h[..n])
  }

  function Parent(i: nat): nat
    requires i > 0
  {
    (i - 1) / 2
  }

  function Key(h: seq<nat>, s: seq<nat>, i: nat): nat
    requires i < |h| && h[i] < |s|
  {
    s[h[i]]
  }

  /** Every node but `hole` is at most its parent. */
  ghost predicate OrderedBut(h: seq<nat>, s: seq<nat>, n: nat, hole: nat)
    requires n <= |h| && forall i :: 0 <= i < n ==> h[i] < |s|
  {
    forall i :: 0 < i < n && i != hole ==> Key(h, s, Parent(i)) >= Key(h, s, i)
  }

  /** The children of `hole` are at most its parent. */
  ghost predicate Bridged(h: seq<nat>, s: seq<nat>, n: nat, hole: nat)
    requires n <= |h| && forall i :: 0 <= i < n ==> h[i] < |s|
  {
    forall i :: 0 < i < n && Parent(i) == hole && 0 < hole ==> Key(h, s, Parent(hole)) >= Key(h, s, i)
  }

  ghost predicate Heap(h: seq<nat>, s: seq<nat>, n: nat) {
    Permuted(h, n) && n <= |s| && OrderedBut(h, s, n, 0)
  }

  function Swapped(h: seq<nat>, a: nat, b: nat): seq<nat>
    requires a < |h| && b < |h|
  {
    h[a := h[b]][b := h[a]]
  }

  lemma SwapPermuted(h: seq<nat>, n: nat, a: nat, b: nat)
    requires Permuted(h, n) && a < n && b < n
    ensures Permuted(Swapped(h, a, b), n)
  {
    var t := Swapped(h, a, b);
    forall x | 0 <= x < n
      ensures x in t[..n]
    {
      assert x in h[..n];
      var i :| 0 <= i < |h[..n]| && h[..n][i] == x;
      var j := if i == a then b else if i == b then a else i;
      assert t[..n][j] == x;
    }
  }

  /** Swapping a node with a parent that is no greater moves the hole up. */
  lemma SiftUpStep(h: seq<nat>, s: seq<nat>, n: nat, node: nat)
    requires Permuted(h, n) && n <= |s| && 0 < node < n
    requires OrderedBut(h, s, n, node) && Bridged(h, s, n, node)
    requires Key(h, s, Parent(node)) <= Key(h, s, node)
    ensures var t := Swapped(h, Parent(node), node);
            Permuted(t, n) && OrderedBut(t, s, n, Parent(node)) && Bridged(t, s, n, Parent(node))
  {
    SwapPermuted(h, n, Parent(node), node);
  }

  /** While a small value sinks from the root: order holds away from the hole and around it. */
  ghost predicate Sinking(h: seq<nat>, s: seq<nat>, n: nat, hole: nat) {
    && Permuted(h, n) && n <= |s| && hole < n
    && (forall i :: 0 < i < n && i != hole && Parent(i) != hole ==> Key(h, s, Parent(i)) >= Key(h, s, i))
    && Bridged(h, s, n, hole)
  }

  lemma SinkStep(h: seq<nat>, s: seq<nat>, n: nat, hole: nat, child: nat)
    requires Sinking(h, s, n, hole) && 2 * hole + 2 < n
    requires child == 2 * hole + 1 || child == 2 * hole + 2
    requires Key(h, s, child) >= Key(h, s, 2 * hole + 1) && Key(h, s, child) >= Key(h, s, 2 * hole + 2)
    ensures Sinking(Swapped(h, hole, child), s, n, child)
  {
    SwapPermuted(h, n, hole, child);
    var t := Swapped(h, hole, child);
    assert Parent(child) == hole;
  }

  lemma {:induction false} BelowTopTwo(h: seq<nat>, s: seq<nat>, n: nat, i: nat)
    requires Heap(h, s, n) && 0 < i < n && n >= 3
    ensures Key(h, s, i) <= Key(h, s, 1) || Key(h, s, i) <= Key(h, s, 2)
    ensures Key(h, s, i) <= Key(h, s, 0)
    decreases i
  {
    if i > 2 {
      BelowTopTwo(h, s, n, Parent(i));
    }
  }

  // ----- sums of multiples -----

  function Sum(s: seq<nat>): nat {
    if s == [] then 0 else s[0] + Sum(s[1..])
  }

  lemma {:induction false} SumUpdate(s: seq<nat>, i: nat, x: nat)
    requires i < |s|
    ensures Sum(s[i := x]) + s[i] == Sum(s) + x
  {
    if i == 0 {
      assert s[0 := x][1..] == s[1..];
    } else {
      assert s[i := x][1..] == s[1..][i - 1 := x];
      SumUpdate(s[1..], i - 1, x);
    }
  }

  /** The group sum of s[i] times p[i] over all i. */
  function Combination<G>(g: Group<G>, s: seq<nat>, p: seq<G>): G
    requires |s| == |p|
  {
    if s == [] then g.zero else g.add(Times(g, s[0], p[0]), Combination(g, s[1..], p[1..]))
  }

  lemma {:induction false} CombinationUpdate<G(!new)>(g: Group<G>, s: seq<nat>, p: seq<G>, i: nat, n: nat, q: G)
    requires Abelian(g) && |s| == |p| && i < |s|
    ensures g.add(Combination(g, s[i := n], p[i := q]), Times(g, s[i], p[i])) ==
            g.add(Combination(g, s, p), Times(g, n, q))
  {
    var s', p' := s[i := n], p[i := q];
    var old_term, new_term := Times(g, s[i], p[i]), Times(g, n, q);
    if i == 0 {
      assert s'[1..] == s[1..] && p'[1..] == p[1..];
      var rest := Combination(g, s[1..], p[1..]);
      Associate(g, new_term, rest, old_term);
      Commute(g, rest, old_term);
      Commute(g, new_term, g.add(old_term, rest));
    } else {
      assert s'[1..] == s[1..][i - 1 := n] && p'[1..] == p[1..][i - 1 := q];
      CombinationUpdate(g, s[1..], p[1..], i - 1, n, q);
      var head := Times(g, s[0], p[0]);
      Associate(g, head, Combination(g, s'[1..], p'[1..]), old_term);
      Associate(g, head, Combination(g, s[1..], p[1..]), new_term);
    }
  }

  lemma Cancel<G(!new)>(g: Group<G>, a: G, b: G, c: G)
    requires Abelian(g) && g.add(a, c) == g.add(b, c)
    ensures a == b
  {
    Associate(g, a, c, g.neg(c));
    Associate(g, b, c, g.neg(c));
  }

  /** s[a]P[a] + s[b]P[b] is unchanged when s[a] gives s[b] away and P[b] takes P[a] in. */
  lemma PairUnchanged<G(!new)>(g: Group<G>, m: nat, n: nat, p: G, q: G)
    requires Abelian(g) && n <= m
    ensures g.add(Times(g, m - n, p), Times(g, n, g.add(q, p))) == g.add(Times(g, m, p), Times(g, n, q))
  {
    var x, y, z := Times(g, m - n, p), Times(g, n, p), Times(g, n, q);
    TimesOfSum(g, n, q, p);
    Commute(g, z, y);
    Associate(g, x, y, z);
    TimesAdd(g, m - n, n, p);
  }

  /** One round of the loop keeps the sum and takes s[b] off the total. */
  lemma RoundKeepsSum<G(!new)>(g: Group<G>, s: seq<nat>, p: seq<G>, a: nat, b: nat)
    requires Abelian(g) && |s| == |p| && a < |s| && b < |s| && a != b && s[b] <= s[a]
    ensures var s', p' := s[a := s[a] - s[b]], p[b := g.add(p[b], p[a])];
            Combination(g, s', p') == Combination(g, s, p) && Sum(s') + s[b] == Sum(s)
  {
    var n, q := s[a] - s[b], g.add(p[b], p[a]);
    var s', p' := s[a := n], p[b := q];
    SumUpdate(s, a, n);
    var mid := Combination(g, s', p);
    CombinationUpdate(g, s, p, a, n, p[a]);
    assert p[a := p[a]] == p;
    CombinationUpdate(g, s', p, b, s[b], q);
    assert s'[b := s[b]] == s';
    var all, end := Combination(g, s, p), Combination(g, s', p');
    var ta, tb, na, nb := Times(g, s[a], p[a]), Times(g, s[b], p[b]), Times(g, n, p[a]), Times(g, s[b], q);
    assert g.add(mid, ta) == g.add(all, na) && g.add(end, tb) == g.add(mid, nb);
    PairUnchanged(g, s[a], s[b], p[a], p[b]);
    assert g.add(na, nb) == g.add(ta, tb);
    ChainEqual(g, all, mid, end, ta, tb, na, nb);
  }

  lemma ChainEqual<G(!new)>(g: Group<G>, all: G, mid: G, end: G, ta: G, tb: G, na: G, nb: G)
    requires Abelian(g)
    requires g.add(mid, ta) == g.add(all, na) && g.add(end, tb) == g.add(mid, nb) && g.add(na, nb) == g.add(ta, tb)
    ensures end == all
  {
    // end + tb + ta = mid + nb + ta = all + na + nb = all + ta + tb
    Associate(g, end, tb, ta);
    Associate(g, mid, nb, ta);
    Commute(g, nb, ta);
    Associate(g, mid, ta, nb);
    Associate(g, all, na, nb);
    Commute(g, tb, ta);
    Cancel(g, end, all, g.add(ta, tb));
  }

  // ----- the heap in place -----

  class Batch<G(!new)> {
    const g: Group<G>
    const points: array<G>
    const scalars: array<nat>
    const heap: array<nat>
    var size: nat

    constructor (g: Group<G>, points: array<G>, scalars: array<nat>)
      requires points.Length == scalars.Length && points as object != scalars as object
      ensures this.g == g && this.points == points && this.scalars == scalars
      ensures fresh(heap) && heap.Length == scalars.Length && size == 0 && Valid()
    {
      this.g, this.points, this.scalars := g, points, scalars;
      heap := new nat[scalars.Length](_ => 0);
      size := 0;
    }

    /** Storage: three arrays of the same length, no two of them the same array. */
    ghost predicate Shape()
      reads this
    {
      && points.Length == scalars.Length == heap.Length && size <= heap.Length
      && heap != scalars && points as object != scalars as object && points as object != heap as object
    }

    ghost predicate Valid()
      reads this, heap, scalars
    {
      Shape() && Heap(heap[..], scalars[..], size)
    }

    method Swap(a: nat, b: nat)
      requires a < heap.Length && b < heap.Length
      modifies heap
      ensures heap[..] == Swapped(old(heap[..]), a, b)
    {
      heap[a], heap[b] := heap[b], heap[a];
    }

    /** Moves the value at `start` up while its parent is smaller (or, if not `strict`, no greater). */
    method SiftUp(start: nat, n: nat, strict: bool)
      requires Shape() && start < n <= heap.Length
      requires Permuted(heap[..], n) && OrderedBut(heap[..], scalars[..], n, start)
      requires Bridged(heap[..], scalars[..], n, start)
      modifies heap
      ensures Heap(heap[..], scalars[..], n)
      ensures forall i :: n <= i < heap.Length ==> heap[i] == old(heap[i])
    {
      var node: nat := start;
      while node != 0 &&
            (if strict then scalars[heap[Parent(node)]] < scalars[heap[node]]
             else scalars[heap[Parent(node)]] <= scalars[heap[node]])
        invariant node < n
        invariant Permuted(heap[..], n) && OrderedBut(heap[..], scalars[..], n, node)
        invariant Bridged(heap[..], scalars[..], n, node)
        invariant forall i :: n <= i < heap.Length ==> heap[i] == old(heap[i])
      {
        node := SiftOnce(node, n);
      }
    }

    method SiftOnce(node: nat, n: nat) returns (up: nat)
      requires Shape() && 0 < node < n <= heap.Length
      requires Permuted(heap[..], n) && OrderedBut(heap[..], scalars[..], n, node)
      requires Bridged(heap[..], scalars[..], n, node) && scalars[heap[Parent(node)]] <= scalars[heap[node]]
      modifies heap
      ensures up == Parent(node) && Permuted(heap[..], n) && OrderedBut(heap[..], scalars[..], n, up)
      ensures Bridged(heap[..], scalars[..], n, up)
      ensures forall i :: n <= i < heap.Length ==> heap[i] == old(heap[i])
    {
      up := Parent(node);
      SiftUpStep(heap[..], scalars[..], n, node);
      Swap(up, node);
    }

    method Append()
      requires Valid() && size < heap.Length
      modifies heap
      ensures Permuted(heap[..], size + 1) && OrderedBut(heap[..], scalars[..], size + 1, size)
      ensures Bridged(heap[..], scalars[..], size + 1, size)
    {
      ghost var h := heap[..];
      heap[size] := size;
      Appended(h, scalars[..], size);
      assert heap[..] == h[size := size];
    }

    /** Adds the next scalar to the heap. */
    method InsertNext()
      requires Valid() && size < heap.Length
      modifies this, heap
      ensures Valid() && size == old(size) + 1
    {
      Append();
      SiftUp(size, size + 1, true);
      size := size + 1;
    }

    /** Extends (or builds) the heap to contain `count` scalars. */
    method Extend(count: nat)
      requires Valid() && size <= count <= heap.Length
      modifies this, heap
      ensures Valid() && size == count
    {
      while size < count
        invariant Valid() && size <= count
      {
        InsertNext();
      }
    }

    /** Restores the heap after the scalar at the root has become smaller. */
    method UpdatedRoot()
      requires Shape() && size % 2 == 1 && size >= 3
      requires Sinking(heap[..], scalars[..], size, 0)
      modifies heap
      ensures Valid()
    {
      var parent := 0;
      while 2 * parent + 2 < size
        invariant parent < size && Sinking(heap[..], scalars[..], size, parent)
        decreases size - parent
      {
        parent := SinkOnce(parent);
      }
      SiftUp(parent, size, false);
    }

    /** Puts the larger child above the sinking value. */
    method SinkOnce(parent: nat) returns (node: nat)
      requires Shape() && 2 * parent + 2 < size && Sinking(heap[..], scalars[..], size, parent)
      modifies heap
      ensures parent < node < size && Sinking(heap[..], scalars[..], size, node)
    {
      var childl, childr := 2 * parent + 1, 2 * parent + 2;
      node := if scalars[heap[childl]] < scalars[heap[childr]] then childr else childl;
      SinkStep(heap[..], scalars[..], size, parent, node);
      Swap(parent, node);
    }

    /** The indices of the two largest scalars in the heap. */
    method TopTwo() returns (max1: nat, max2: nat)
      requires Valid() && size >= 3
      ensures max1 < size && max2 < size && max1 != max2
      ensures max1 == heap[0] && scalars[max2] <= scalars[max1]
      ensures forall x :: 0 <= x < size && x != max1 ==> scalars[x] <= scalars[max2]
    {
      max1, max2 := heap[0], heap[1];
      if scalars[heap[1]] < scalars[heap[2]] {
        max2 := heap[2];
      }
      forall x | 0 <= x < size && x != max1
        ensures scalars[x] <= scalars[max2]
      {
        assert x in heap[..][..size];
        var i :| 0 <= i < |heap[..][..size]| && heap[..][..size][i] == x;
        BelowTopTwo(heap[..], scalars[..], size, i);
      }
      BelowTopTwo(heap[..], scalars[..], size, 1);
      BelowTopTwo(heap[..], scalars[..], size, 2);
    }

    ghost function Total(count: nat): G
      requires Shape() && count <= scalars.Length
      reads this, points, scalars
    {
      Combination(g, scalars[..count], points[..count])
    }

    /** The largest scalar gives the second largest away; the sum over all points stays. */
    method GiveAway(a: nat, b: nat, count: nat)
      requires Abelian(g) && Shape() && a != b && a < count && b < count <= scalars.Length
      requires scalars[b] <= scalars[a]
      modifies scalars, points
      ensures scalars[..] == old(scalars[..][a := scalars[a] - scalars[b]])
      ensures forall x :: 0 <= x < points.Length && x != b ==> points[x] == old(points[x])
      ensures Total(count) == old(Total(count))
      ensures Sum(scalars[..count]) + old(scalars[b]) == old(Sum(scalars[..count]))
    {
      ghost var s, p := scalars[..count], points[..count];
      RoundKeepsSum(g, s, p, a, b);
      scalars[a] := scalars[a] - scalars[b];
      points[b] := g.add(points[b], points[a]);
      assert scalars[..count] == s[a := s[a] - s[b]];
      assert points[..count] == p[b := g.add(p[b], p[a])];
    }

    /** One round of the loop. */
    method Round(a: nat, b: nat, count: nat)
      requires Abelian(g) && Valid() && size % 2 == 1 && 3 <= size <= count <= scalars.Length
      requires a == heap[0] && a != b && b < size && scalars[b] <= scalars[a]
      modifies heap, scalars, points
      ensures scalars[..] == old(scalars[..][a := scalars[a] - scalars[b]])
      ensures Valid() && Total(count) == old(Total(count))
      ensures Sum(scalars[..count]) + old(scalars[b]) == old(Sum(scalars[..count]))
      ensures forall x :: size <= x < scalars.Length ==> scalars[x] == old(scalars[x]) && points[x] == old(points[x])
    {
      RootLowered(heap[..], scalars[..], size, scalars[a] - scalars[b]);
      GiveAway(a, b, count);
      UpdatedRoot();
    }

    /** What holds at the head of the loop. */
    ghost predicate Ready(count: nat, max1: nat, max2: nat, extended: bool)
      reads this, heap, scalars
    {
      && Valid() && size % 2 == 1 && 3 <= size <= count <= scalars.Length && (extended ==> size == count)
      && max1 < size && max2 < size && max1 != max2 && max1 == heap[0] && scalars[max2] <= scalars[max1]
      && forall x :: 0 <= x < size && x != max1 ==> scalars[x] <= scalars[max2]
    }

    /** The body of the loop. */
    method Turn(count: nat, a: nat, b: nat, wasExtended: bool) returns (max1: nat, max2: nat, extended: bool)
      requires Abelian(g) && Ready(count, a, b, wasExtended) && count % 2 == 1 && scalars[b] != 0
      modifies this, heap, scalars, points
      ensures Ready(count, max1, max2, extended)
      ensures Total(count) == old(Total(count)) && Sum(scalars[..count]) < old(Sum(scalars[..count]))
      ensures size >= old(size) && (wasExtended ==> extended) && (!wasExtended && extended ==> old(scalars[a]) < B128)
      ensures !extended ==> size == old(size) && old(scalars[a]) >= B128
      ensures !extended ==> scalars[..] == old(scalars[..][a := scalars[a] - scalars[b]])
      ensures forall x :: size <= x < scalars.Length ==> scalars[x] == old(scalars[x]) && points[x] == old(points[x])
    {
      max1, max2, extended := JoinIfSmall(count, a, b, wasExtended);
      max1, max2 := RoundAndTop(count, max1, max2, extended);
    }

    /** Takes the second half in if the largest scalar has become small enough. */
    method JoinIfSmall(count: nat, a: nat, b: nat, wasExtended: bool) returns (max1: nat, max2: nat, extended: bool)
      requires Ready(count, a, b, wasExtended) && count % 2 == 1 && scalars[b] != 0
      modifies this, heap
      ensures Ready(count, max1, max2, extended) && scalars[max2] != 0 && size >= old(size)
      ensures extended <==> wasExtended || scalars[a] < B128
      ensures !extended || wasExtended ==> max1 == a && max2 == b && size == old(size)
    {
      max1, max2, extended := a, b, wasExtended;
      if !extended && scalars[max1] < B128 {
        Extend(count);
        max1, max2 := TopTwo();
        extended := true;
        assert scalars[max2] >= scalars[if max1 == a then b else a];
      }
    }

    method RoundAndTop(count: nat, a: nat, b: nat, ghost extended: bool) returns (max1: nat, max2: nat)
      requires Abelian(g) && Ready(count, a, b, extended) && scalars[b] != 0
      modifies heap, scalars, points
      ensures Ready(count, max1, max2, extended) && scalars[..] == old(scalars[..][a := scalars[a] - scalars[b]])
      ensures Total(count) == old(Total(count)) && Sum(scalars[..count]) < old(Sum(scalars[..count]))
      ensures forall x :: size <= x < scalars.Length ==> scalars[x] == old(scalars[x]) && points[x] == old(points[x])
    {
      Round(a, b, count);
      max1, max2 := TopTwo();
    }

    /** The scalars outside the heap at first, times their points. */
    ghost function Rest(count: nat): G
      requires Shape() && Half(count) <= count <= scalars.Length
      reads this, points, scalars
    {
      Combination(g, scalars[Half(count)..count], points[Half(count)..count])
    }

    /**
     Turns the sum over `count` points into a multiple of one point: repeatedly the largest
     scalar in the heap gives the second largest away, until only one is left. The second half
     of the scalars joins the heap once the largest fits in 128 bits, and the multiple left is
     the whole sum exactly if it does or adds up to zero.
     */
    method BosCoster(count: nat) returns (max1: nat, extended: bool)
      requires Abelian(g) && Shape() && count % 2 == 1 && 5 <= count <= scalars.Length
      modifies this, heap, scalars, points
      ensures Valid() && max1 < size && size == if extended then count else Half(count)
      ensures extended <==> Joins(old(scalars[..Half(count)]))
      ensures forall x :: 0 <= x < size && x != max1 ==> scalars[x] == 0
      ensures Total(count) == old(Total(count))
      ensures forall x :: size <= x < scalars.Length ==> scalars[x] == old(scalars[x]) && points[x] == old(points[x])
      ensures Times(g, scalars[max1], points[max1]) == old(Total(count)) <==>
              Joins(old(scalars[..Half(count)])) || old(Rest(count)) == g.zero
    {
      ghost var half, s, p := Half(count), scalars[..count], points[..count];
      max1, extended := Reduce(count);
      LoopAnswer(g, scalars[..count], points[..count], size, max1);
      assert scalars[..count][size..] == scalars[size..count] && points[..count][size..] == points[size..count];
      if extended {
        assert scalars[size..count] == [];
      } else {
        assert scalars[half..count] == s[half..] && points[half..count] == p[half..];
        assert s[half..] == old(scalars[half..count]) && p[half..] == old(points[half..count]);
      }
    }

    method Reduce(count: nat) returns (max1: nat, extended: bool)
      requires Abelian(g) && Shape() && count % 2 == 1 && 5 <= count <= scalars.Length
      modifies this, heap, scalars, points
      ensures Valid() && max1 < size && size == if extended then count else Half(count)
      ensures extended <==> Joins(old(scalars[..Half(count)]))
      ensures forall x :: 0 <= x < size && x != max1 ==> scalars[x] == 0
      ensures Total(count) == old(Total(count))
      ensures forall x :: size <= x < scalars.Length ==> scalars[x] == old(scalars[x]) && points[x] == old(points[x])
    {
      ghost var half := Half(count);
      ghost var orig := scalars[..half];
      var max2: nat;
      max1, max2 := Begin(count);
      extended := false;
      while scalars[max2] != 0
        invariant Ready(count, max1, max2, extended)
        invariant Total(count) == old(Total(count))
        invariant forall x :: size <= x < scalars.Length ==> scalars[x] == old(scalars[x]) && points[x] == old(points[x])
        invariant Joining(orig, extended)
        decreases Sum(scalars[..count])
      {
        max1, max2, extended := JoiningTurn(orig, count, max1, max2, extended);
      }
      if !extended {
        NeverJoins(orig, scalars[..half], max1);
      }
    }

    method Begin(count: nat) returns (max1: nat, max2: nat)
      requires Shape() && count % 2 == 1 && 5 <= count <= scalars.Length
      modifies this, heap
      ensures Ready(count, max1, max2, false) && size == Half(count) && Joining(scalars[..Half(count)], false)
    {
      size := 0;
      Extend(Half(count));
      max1, max2 := TopTwo();
    }

    /** Whether the second half has joined, and why. */
    ghost predicate Joining(orig: seq<nat>, extended: bool)
      requires Shape()
      reads this, scalars
    {
      if extended then Joins(orig) else size == |orig| && Reduced(orig, scalars[..size])
    }

    method JoiningTurn(ghost orig: seq<nat>, count: nat, a: nat, b: nat, wasExtended: bool)
      returns (max1: nat, max2: nat, extended: bool)
      requires Abelian(g) && Ready(count, a, b, wasExtended) && count % 2 == 1 && scalars[b] != 0
      requires Joining(orig, wasExtended)
      modifies this, heap, scalars, points
      ensures Ready(count, max1, max2, extended) && Joining(orig, extended)
      ensures Total(count) == old(Total(count)) && Sum(scalars[..count]) < old(Sum(scalars[..count]))
      ensures size >= old(size)
      ensures forall x :: size <= x < scalars.Length ==> scalars[x] == old(scalars[x]) && points[x] == old(points[x])
    {
      ghost var n, s := size, scalars[..size];
      max1, max2, extended := Turn(count, a, b, wasExtended);
      if !extended {
        TurnReduces(orig, s, a, b);
        assert scalars[..n] == s[a := s[a] - s[b]];
      } else if !wasExtended {
        JoinsNow(orig, s, a, b);
      }
    }
  }

  /** The number of scalars the heap is built from: half of them, made odd. */
  function Half(count: nat): nat {
    var half := (count + 1) / 2;
    if half % 2 == 0 then half + 1 else half
  }

  lemma RootLowered(h: seq<nat>, s: seq<nat>, n: nat, x: nat)
    requires Heap(h, s, n) && 0 < n
    ensures Sinking(h, s[h[0] := x], n, 0)
  {
  }

  lemma Appended(h: seq<nat>, s: seq<nat>, n: nat)
    requires Heap(h, s, n) && n < |h| && n < |s|
    ensures var t := h[n := n];
            Permuted(t, n + 1) && OrderedBut(t, s, n + 1, n) && Bridged(t, s, n + 1, n)
  {
    assert h[n := n][..n + 1] == h[..n] + [n];
  }

  // ----- what is left when the loop ends -----

  lemma {:induction false} OneLeft<G(!new)>(g: Group<G>, s: seq<nat>, p: seq<G>, m: nat)
    requires Abelian(g) && |s| == |p| && m < |s|
    requires forall x :: 0 <= x < |s| && x != m ==> s[x] == 0
    ensures Combination(g, s, p) == Times(g, s[m], p[m])
  {
    if m == 0 {
      NoneLeft(g, s[1..], p[1..]);
    } else {
      OneLeft(g, s[1..], p[1..], m - 1);
      Commute(g, g.zero, Times(g, s[m], p[m]));
    }
  }

  lemma {:induction false} NoneLeft<G(!new)>(g: Group<G>, s: seq<nat>, p: seq<G>)
    requires Abelian(g) && |s| == |p|
    requires forall x :: 0 <= x < |s| ==> s[x] == 0
    ensures Combination(g, s, p) == g.zero
  {
    if s != [] {
      NoneLeft(g, s[1..], p[1..]);
    }
  }

  lemma {:induction false} CombinationSplit<G(!new)>(g: Group<G>, s: seq<nat>, p: seq<G>, n: nat)
    requires Abelian(g) && |s| == |p| && n <= |s|
    ensures Combination(g, s, p) == g.add(Combination(g, s[..n], p[..n]), Combination(g, s[n..], p[n..]))
  {
    if n == 0 {
      assert s[0..] == s && p[0..] == p;
      Commute(g, g.zero, Combination(g, s, p));
    } else {
      CombinationSplit(g, s[1..], p[1..], n - 1);
      assert s[1..][..n - 1] == s[..n][1..] && p[1..][..n - 1] == p[..n][1..];
      assert s[1..][n - 1..] == s[n..] && p[1..][n - 1..] == p[n..];
      Associate(g, Times(g, s[0], p[0]), Combination(g, s[..n][1..], p[..n][1..]), Combination(g, s[n..], p[n..]));
    }
  }

  /**
   The sum is the one remaining multiple plus whatever never entered the heap: the loop's answer
   is the whole sum exactly when the scalars left outside add up to the zero of the group.
   */
  lemma LoopAnswer<G(!new)>(g: Group<G>, s: seq<nat>, p: seq<G>, n: nat, m: nat)
    requires Abelian(g) && |s| == |p| && m < n <= |s|
    requires forall x :: 0 <= x < n && x != m ==> s[x] == 0
    ensures Combination(g, s, p) == g.add(Times(g, s[m], p[m]), Combination(g, s[n..], p[n..]))
    ensures Combination(g, s, p) == Times(g, s[m], p[m]) <==> Combination(g, s[n..], p[n..]) == g.zero
  {
    CombinationSplit(g, s, p, n);
    OneLeft(g, s[..n], p[..n], m);
    var a, c := Times(g, s[m], p[m]), Combination(g, s[n..], p[n..]);
    if g.add(a, c) == a {
      Commute(g, a, c);
      Commute(g, a, g.zero);
      Cancel(g, c, g.zero, a);
    }
  }

  // ----- the last scalar -----

  /** The bits of the four limbs the last step looks at. */
  const LOOKED: nat := 224

  function Low(scalar: nat): (r: nat)
    ensures r < P2(LOOKED) && r <= scalar
  {
    LowPart(scalar, P2(LOOKED));
    scalar % P2(LOOKED)
  }

  lemma LowPart(n: nat, p: nat)
    requires p > 0
    ensures 0 <= n % p < p && n % p <= n
  {
    DivNonNegative(n, p);
    assert n == p * (n / p) + n % p;
    MulBelow(p, 0, p, n / p);
  }

  function Bit(n: nat, k: nat): nat {
    (n / P2(k)) % 2
  }

  lemma BitOfLow(n: nat, m: nat, k: nat)
    requires k < m
    ensures Bit(n, k) == Bit(n % P2(m), k)
  {
    P2Add(k, m - k);
    LowBit(n, P2(m), P2(k), P2(m - k - 1));
  }

  lemma LowBit(n: nat, w: nat, p: nat, t: nat)
    requires 0 < p && w == p * (2 * t) && 0 < w
    ensures (n / p) % 2 == ((n % w) / p) % 2
  {
    var low, h := n % w, n / w;
    var q, r := low / p, low % p;
    HighPart(p, t, h, q, r, n, low);
    QuotRem(n, p, q + 2 * (t * h), r);
    QuotRem(q + 2 * (t * h), 2, q / 2 + t * h, q % 2);
  }

  lemma HighPart(p: int, t: int, h: int, q: int, r: int, n: int, low: int)
    requires n == (p * (2 * t)) * h + low && low == p * q + r
    ensures n == p * (q + 2 * (t * h)) + r
  {
    assert (p * (2 * t)) * h == p * (2 * (t * h));
    assert p * (q + 2 * (t * h)) == p * q + p * (2 * (t * h));
  }

  lemma NextQuotient(n: nat, k: nat)
    ensures n / P2(k) == 2 * (n / P2(k + 1)) + Bit(n, k)
  {
    var p, q, r := P2(k), n / P2(k + 1), n % P2(k + 1);
    var b, c := r / p, r % p;
    assert n == (2 * p) * q + r;
    assert (2 * p) * q == p * (2 * q) by { Double(p, q); MoveTwo(p, q); }
    assert r == p * b + c;
    assert p * (2 * q + b) == p * (2 * q) + p * b by { Distribute2(p, 2 * q, b); }
    QuotRem(n, p, 2 * q + b, c);
    assert 0 <= b < 2 by {
      if b >= 2 {
        MulBelow(p, 2, p, b);
      }
    }
    QuotRem(2 * q + b, 2, q, b);
  }

  lemma Distribute2(p: int, x: int, y: int)
    ensures p * (x + y) == p * x + p * y
  {
  }

  function BitLength(n: nat): nat {
    if n == 0 then 0 else 1 + BitLength(n / 2)
  }

  lemma {:induction false} BitLengthBounds(n: nat)
    requires n > 0
    ensures BitLength(n) > 0 && P2(BitLength(n) - 1) <= n < P2(BitLength(n))
  {
    if n > 1 {
      BitLengthBounds(n / 2);
    }
  }

  /**
   What the last step computes from the one scalar left: right for 0 and 1. For larger scalars
   it starts from the point itself and then processes the top bit again, so that 2^n copies of
   the point too many come out, n being the number of bits; and it looks at the low 224 bits
   alone. If those are all zero it looks for a bit below the first, and has no result.
   */
  method LastScalar<G(!new)>(g: Group<G>, point: G, scalar: nat) returns (r: Option<G>)
    requires Abelian(g)
    ensures r.None? <==> scalar > 1 && Low(scalar) == 0
    ensures scalar <= 1 ==> r == Some(Times(g, scalar, point))
    ensures r.Some? && scalar > 1 ==> r.value == Times(g, P2(BitLength(Low(scalar))) + Low(scalar), point)
    ensures r.Some? && scalar > 1 ==>
      (r.value == Times(g, scalar, point) <==>
       Times(g, P2(BitLength(Low(scalar))), point) == Times(g, scalar - Low(scalar), point))
  {
    assert Times(g, 1, point) == g.add(point, Times(g, 0, point)) == point;
    if scalar == 1 {
      return Some(point);
    } else if scalar == 0 {
      return Some(g.zero);
    }
    r := LastBits(g, point, scalar, Low(scalar), P2(BitLength(Low(scalar))));
  }

  method LastBits<G(!new)>(g: Group<G>, point: G, scalar: nat, ghost low: nat, ghost extra: nat) returns (r: Option<G>)
    requires Abelian(g) && low == Low(scalar) && extra == P2(BitLength(low))
    ensures r.None? <==> low == 0
    ensures r.Some? ==> r.value == Times(g, extra + low, point)
    ensures r.Some? ==> (r.value == Times(g, scalar, point) <==> Times(g, extra, point) == Times(g, scalar - low, point))
  {
    var k := TopSetBit(scalar);
    if k < 0 {
      return None;
    }
    var q, m := DoubleAndAdd(g, point, scalar, k);
    LastScalarExact(g, point, scalar, low, extra, q);
    r := Some(q);
  }

  /** With `extra` copies too many and what is above `low` left out, the result is right when those are the same. */
  lemma LastScalarExact<G(!new)>(g: Group<G>, point: G, scalar: nat, low: nat, extra: nat, r: G)
    requires Abelian(g) && low <= scalar && r == Times(g, extra + low, point)
    ensures r == Times(g, scalar, point) <==> Times(g, extra, point) == Times(g, scalar - low, point)
  {
    TimesAdd(g, extra, low, point);
    TimesAdd(g, scalar - low, low, point);
    if r == Times(g, scalar, point) {
      Cancel(g, Times(g, extra, point), Times(g, scalar - low, point), Times(g, low, point));
    }
  }

  /** The limb and flag searches: down from bit 223 to the first bit that is set, or past the lowest one. */
  method TopSetBit(scalar: nat) returns (k: int)
    ensures -1 <= k < LOOKED && BitLength(Low(scalar)) == k + 1
  {
    ghost var low := Low(scalar);
    k := LOOKED - 1;
    while k >= 0 && Bit(scalar, k) == 0
      invariant -1 <= k < LOOKED && low < P2(k + 1)
      decreases k
    {
      BitOfLow(scalar, LOOKED, k);
      ClearBit(low, k);
      k := k - 1;
    }
    if k >= 0 {
      BitOfLow(scalar, LOOKED, k);
      TopBit(low, k);
    }
  }

  lemma ClearBit(low: nat, k: nat)
    requires low < P2(k + 1) && Bit(low, k) == 0
    ensures low < P2(k)
  {
    NextQuotient(low, k);
    QuotRem(low, P2(k + 1), 0, low);
    BelowHalf(low, P2(k));
  }

  /** How many copies of the point there are when bits top .. k + 1 have been processed. */
  function Copies(low: nat, top: nat, k: int): (m: nat)
    requires -1 <= k <= top
    ensures m > 0
  {
    DivNonNegative(low, P2(k + 1));
    P2(top - k) + low / P2(k + 1)
  }

  lemma DivNonNegative(n: int, d: int)
    requires 0 <= n && 0 < d
    ensures n / d >= 0
  {
  }

  lemma LastCopies(low: nat, top: nat)
    ensures Copies(low, top, -1) == P2(top + 1) + low
  {
  }

  lemma FirstCopy(low: nat, top: nat)
    requires low < P2(top + 1)
    ensures Copies(low, top, top) == 1
  {
    QuotRem(low, P2(top + 1), 0, low);
  }

  lemma NextCopies(scalar: nat, top: nat, k: nat)
    requires k <= top < LOOKED
    ensures var low := Low(scalar); Copies(low, top, k - 1) == 2 * Copies(low, top, k) + Bit(scalar, k)
  {
    BitOfLow(scalar, LOOKED, k);
    NextQuotient(Low(scalar), k);
  }

  /** The exponentiation loop, started from the point itself at its own top bit. */
  method DoubleAndAdd<G(!new)>(g: Group<G>, point: G, scalar: nat, top: nat) returns (r: G, ghost m: int)
    requires Abelian(g) && top < LOOKED && BitLength(Low(scalar)) == top + 1
    ensures r == Times(g, m, point) && m == P2(top + 1) + Low(scalar)
  {
    assert Times(g, 1, point) == g.add(point, Times(g, 0, point)) == point;
    ghost var low := Low(scalar);
    BitLengthBounds(low);
    FirstCopy(low, top);
    r, m := point, 1;
    var k: int := top;
    while k >= 0
      invariant -1 <= k <= top
      invariant m == Copies(low, top, k) && r == Times(g, m, point)
    {
      NextCopies(scalar, top, k);
      r, m := DoubleMaybeAdd(g, point, r, Bit(scalar, k), m);
      k := k - 1;
    }
    LastCopies(low, top);
  }

  method DoubleMaybeAdd<G(!new)>(g: Group<G>, point: G, r: G, bit: nat, ghost m: int) returns (t: G, ghost n: int)
    requires Abelian(g) && r == Times(g, m, point) && 0 <= bit <= 1 && 0 < m
    ensures t == Times(g, n, point) && n == 2 * m + bit
  {
    TimesTwo(g, m, point);
    t, n := g.add(r, r), 2 * m;
    if bit == 1 {
      Commute(g, t, point);
      t, n := g.add(t, point), 2 * m + 1;
    }
  }

  lemma BelowHalf(n: nat, p: nat)
    requires p > 0 && n / p == 0
    ensures n < p
  {
    if p <= n {
      DivAtLeast(n, p);
    }
  }

  lemma DivAtLeast(n: nat, p: nat)
    requires 0 < p <= n
    ensures n / p >= 1
  {
  }

  lemma TopBit(low: nat, k: nat)
    requires low < P2(k + 1) && Bit(low, k) != 0
    ensures BitLength(low) == k + 1
  {
    if low < P2(k) {
      QuotRem(low, P2(k), 0, low);
    }
    BitLengthBounds(low);
    var n := BitLength(low);
    if n < k + 1 {
      P2Monotone(n, k);
    } else if n > k + 1 {
      P2Monotone(k + 1, n - 1);
    }
  }

  // ----- inputs that go wrong, in the integers -----

  const INTEGERS: Group<int> := Group(0, (a, b) => a + b, a => -a)

  lemma {:induction false} TimesOne(n: nat)
    ensures Times(INTEGERS, n, 1) == n
  {
    if n > 0 {
      TimesOne(n - 1);
    }
  }

  // Five scalars, of which the fourth alone is not zero: it never joins, and the answer is 0 instead of 1.
  lemma LoopMisses()
    ensures Abelian(INTEGERS)
    ensures var s := [0, 0, 0, 1, 0]; !Joins(s[..Half(5)]) && Combination(INTEGERS, s[Half(5)..], [1, 1]) == 1
  {
    var s: seq<nat> := [0, 0, 0, 1, 0];
    assert s[3..] == [1, 0] && [1, 0][1..] == [0] && [1, 1][1..] == [1] && [0][1..] == [];
    TimesOne(1);
    TimesOne(0);
    assert Combination(INTEGERS, [0], [1]) == Times(INTEGERS, 0, 1) + Combination(INTEGERS, [], []);
  }

  // The scalar 2: 4 copies too many.
  lemma LastScalarMisses()
    ensures Abelian(INTEGERS) && Low(2) == 2 && Times(INTEGERS, P2(BitLength(2)), 1) != Times(INTEGERS, 2 - Low(2), 1)
  {
    P2Monotone(2, LOOKED);
    assert P2(2) == 4 && BitLength(2) == 2;
    QuotRem(2, P2(LOOKED), 0, 2);
    TimesOne(4);
  }
}
