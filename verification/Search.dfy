/**
 * Breadth-first search over paths. The states waiting are kept in a queue; taking one off tries every option
 * from its end, reports the extensions that arrive and queues the others. Nothing is remembered about states
 * already seen, so the search ends only because every extension lowers a rank.
 */
module Search {
  import opened Options

  datatype Space<!S, !E> = Space(options: S -> seq<E>, extend: (S, E) -> Option<S>, arrives: S -> bool, rank: S -> nat)

  /** Fewer than d options everywhere, and a rank that falls along every extension. */
  ghost predicate Falls<S(!new), E(!new)>(sp: Space<S, E>, d: nat) {
    && (forall s :: |sp.options(s)| < d)
    && (forall s, e :: sp.extend(s, e).Some? ==> sp.rank(sp.extend(s, e).value) < sp.rank(s))
  }

  // ---- the measure ----

  function Pow(d: nat, n: nat): (r: nat)
    requires d >= 1
    ensures r >= 1
  {
    if n == 0 then 1 else d * Pow(d, n - 1)
  }

  lemma Times(d: nat, x: nat)
    requires d >= 1
    ensures x <= d * x
  {
  }

  lemma {:induction false} PowMonotone(d: nat, m: nat, n: nat)
    requires d >= 1 && m <= n
    ensures Pow(d, m) <= Pow(d, n)
    decreases n
  {
    if m < n {
      PowMonotone(d, m, n - 1);
      Times(d, Pow(d, n - 1));
    }
  }

  ghost function Measure<S, E>(sp: Space<S, E>, d: nat, queue: seq<S>): (r: nat)
    requires d >= 1
  {
    if queue == [] then 0 else Measure(sp, d, queue[..|queue| - 1]) + Pow(d, sp.rank(queue[|queue| - 1]))
  }

  lemma {:induction false} MeasureConcat<S, E>(sp: Space<S, E>, d: nat, a: seq<S>, b: seq<S>)
    requires d >= 1
    ensures Measure(sp, d, a + b) == Measure(sp, d, a) + Measure(sp, d, b)
    decreases |b|
  {
    if b == [] {
      assert a + b == a;
    } else {
      MeasureConcat(sp, d, a, b[..|b| - 1]);
      assert (a + b)[..|a + b| - 1] == a + b[..|b| - 1];
    }
  }

  lemma MeasureOne<S, E>(sp: Space<S, E>, d: nat, s: S)
    requires d >= 1
    ensures Measure(sp, d, [s]) == Pow(d, sp.rank(s))
  {
    assert [s][..0] == [];
    assert Measure(sp, d, [s][..0]) == 0;
  }

  // ---- one step ----

  /** The extensions of s along the given options that arrive, or those that do not. */
  function Extensions<S, E>(sp: Space<S, E>, s: S, es: seq<E>, arriving: bool): (r: seq<S>) {
    if es == [] then []
    else
      var rest := Extensions(sp, s, es[..|es| - 1], arriving);
      var next := sp.extend(s, es[|es| - 1]);
      if next.Some? && sp.arrives(next.value) == arriving then rest + [next.value] else rest
  }

  function Hits<S, E>(sp: Space<S, E>, s: S): (r: seq<S>) {
    Extensions(sp, s, sp.options(s), true)
  }

  function Pending<S, E>(sp: Space<S, E>, s: S): (r: seq<S>) {
    Extensions(sp, s, sp.options(s), false)
  }

  lemma {:induction false} ExtensionFrom<S, E>(sp: Space<S, E>, s: S, es: seq<E>, arriving: bool, k: nat) returns (e: E)
    requires k < |Extensions(sp, s, es, arriving)|
    ensures e in es && sp.extend(s, e) == Some(Extensions(sp, s, es, arriving)[k])
    ensures sp.arrives(Extensions(sp, s, es, arriving)[k]) == arriving
    decreases |es|
  {
    var init := es[..|es| - 1];
    if k < |Extensions(sp, s, init, arriving)| {
      e := ExtensionFrom(sp, s, init, arriving, k);
    } else {
      e := es[|es| - 1];
    }
  }

  lemma {:induction false} ExtensionIn<S, E>(sp: Space<S, E>, s: S, es: seq<E>, arriving: bool, e: E)
    requires e in es && sp.extend(s, e).Some? && sp.arrives(sp.extend(s, e).value) == arriving
    ensures sp.extend(s, e).value in Extensions(sp, s, es, arriving)
    decreases |es|
  {
    if e != es[|es| - 1] {
      ExtensionIn(sp, s, es[..|es| - 1], arriving, e);
    }
  }

  lemma PowStep(d: nat, n: nat, a: nat, b: nat, x: nat)
    requires d >= 1 && a <= n * x && x >= 1 && b <= x
    ensures a + b <= (n + 1) * x
  {
  }

  lemma {:induction false} ExtensionsWeight<S(!new), E(!new)>(sp: Space<S, E>, d: nat, s: S, es: seq<E>)
    requires Falls(sp, d) && d >= 1 && sp.rank(s) > 0
    ensures Measure(sp, d, Extensions(sp, s, es, false)) <= |es| * Pow(d, sp.rank(s) - 1)
    decreases |es|
  {
    if es != [] {
      var init, last := es[..|es| - 1], es[|es| - 1];
      ExtensionsWeight(sp, d, s, init);
      var x, rest := Pow(d, sp.rank(s) - 1), Extensions(sp, s, init, false);
      var next := sp.extend(s, last);
      var w := if next.Some? && !sp.arrives(next.value) then Pow(d, sp.rank(next.value)) else 0;
      if next.Some? && !sp.arrives(next.value) {
        PowMonotone(d, sp.rank(next.value), sp.rank(s) - 1);
        assert (rest + [next.value])[..|rest|] == rest;
      }
      PowStep(d, |init|, Measure(sp, d, rest), w, x);
    }
  }

  lemma ProductBelow(n: nat, d: nat, x: nat)
    requires n < d && x >= 1
    ensures n * x < d * x
  {
  }

  lemma PendingWeighsLess<S(!new), E(!new)>(sp: Space<S, E>, d: nat, s: S)
    requires Falls(sp, d) && d >= 1
    ensures Measure(sp, d, Pending(sp, s)) < Pow(d, sp.rank(s))
  {
    if sp.rank(s) > 0 {
      ExtensionsWeight(sp, d, s, sp.options(s));
      ProductBelow(|sp.options(s)|, d, Pow(d, sp.rank(s) - 1));
    } else if Pending(sp, s) != [] {
      var e := ExtensionFrom(sp, s, sp.options(s), false, 0);
      assert false;
    }
  }

  /** Taking a state off the queue and adding its extensions lowers the measure. */
  lemma StepFalls<S(!new), E(!new)>(sp: Space<S, E>, d: nat, queue: seq<S>)
    requires Falls(sp, d) && d >= 1 && queue != []
    ensures Measure(sp, d, queue[1..] + Pending(sp, queue[0])) < Measure(sp, d, queue)
  {
    MeasureConcat(sp, d, queue[1..], Pending(sp, queue[0]));
    MeasureConcat(sp, d, [queue[0]], queue[1..]);
    MeasureOne(sp, d, queue[0]);
    assert [queue[0]] + queue[1..] == queue;
    PendingWeighsLess(sp, d, queue[0]);
  }

  // ---- the search ----

  ghost function Walk<S(!new), E(!new)>(sp: Space<S, E>, d: nat, queue: seq<S>): (r: seq<S>)
    requires Falls(sp, d) && d >= 1
    decreases Measure(sp, d, queue)
  {
    if queue == [] then []
    else
      StepFalls(sp, d, queue);
      Hits(sp, queue[0]) + Walk(sp, d, queue[1..] + Pending(sp, queue[0]))
  }

  /** Extends s along es one option at a time, arriving at the last and not before. */
  ghost predicate Leads<S, E>(sp: Space<S, E>, s: S, es: seq<E>)
    decreases |es|
  {
    es != [] && es[0] in sp.options(s) && sp.extend(s, es[0]).Some? &&
    var next := sp.extend(s, es[0]).value;
    if |es| == 1 then sp.arrives(next) else !sp.arrives(next) && Leads(sp, next, es[1..])
  }

  ghost function End<S, E>(sp: Space<S, E>, s: S, es: seq<E>): (r: S)
    requires Leads(sp, s, es)
    decreases |es|
  {
    var next := sp.extend(s, es[0]).value;
    if |es| == 1 then next else End(sp, next, es[1..])
  }

  /** Everything the search reports is the end of a path from the queue. */
  lemma {:induction false} WalkSound<S(!new), E(!new)>(sp: Space<S, E>, d: nat, queue: seq<S>, k: nat)
    returns (i: nat, es: seq<E>)
    requires Falls(sp, d) && d >= 1 && k < |Walk(sp, d, queue)|
    ensures i < |queue| && Leads(sp, queue[i], es) && End(sp, queue[i], es) == Walk(sp, d, queue)[k]
    decreases Measure(sp, d, queue)
  {
    var s, hits, pending := queue[0], Hits(sp, queue[0]), Pending(sp, queue[0]);
    if k < |hits| {
      var e := ExtensionFrom(sp, s, sp.options(s), true, k);
      i, es := 0, [e];
    } else {
      StepFalls(sp, d, queue);
      var j, rest := WalkSound(sp, d, queue[1..] + pending, k - |hits|);
      if j < |queue| - 1 {
        i, es := j + 1, rest;
      } else {
        var e := ExtensionFrom(sp, s, sp.options(s), false, j - (|queue| - 1));
        i, es := 0, [e] + rest;
        assert es[1..] == rest;
      }
    }
  }

  /** Every end of a path from the queue is reported. */
  lemma {:induction false} WalkComplete<S(!new), E(!new)>(sp: Space<S, E>, d: nat, queue: seq<S>, i: nat, es: seq<E>)
    requires Falls(sp, d) && d >= 1 && i < |queue| && Leads(sp, queue[i], es)
    ensures End(sp, queue[i], es) in Walk(sp, d, queue)
    decreases Measure(sp, d, queue)
  {
    var s, pending := queue[0], Pending(sp, queue[0]);
    StepFalls(sp, d, queue);
    var rest := queue[1..] + pending;
    if i > 0 {
      assert rest[i - 1] == queue[i];
      WalkComplete(sp, d, rest, i - 1, es);
    } else if |es| == 1 {
      ExtensionIn(sp, s, sp.options(s), true, es[0]);
    } else {
      ExtensionIn(sp, s, sp.options(s), false, es[0]);
      var j :| 0 <= j < |pending| && pending[j] == sp.extend(s, es[0]).value;
      assert rest[|queue| - 1 + j] == pending[j];
      WalkComplete(sp, d, rest, |queue| - 1 + j, es[1..]);
    }
  }

  /** Every option from the end of one state: what arrives is reported, the rest waits. */
  method TryOptions<S, E>(sp: Space<S, E>, s: S, found: seq<S>, waiting: seq<S>) returns (valid: seq<S>, evals: seq<S>)
    ensures valid == found + Hits(sp, s) && evals == waiting + Pending(sp, s)
  {
    valid, evals := found, waiting;
    var opts := sp.options(s);
    for i := 0 to |opts|
      invariant valid == found + Extensions(sp, s, opts[..i], true)
      invariant evals == waiting + Extensions(sp, s, opts[..i], false)
    {
      assert opts[..i + 1][..i] == opts[..i];
      var next := sp.extend(s, opts[i]);
      if next.Some? {
        if sp.arrives(next.value) {
          valid := valid + [next.value];
        } else {
          evals := evals + [next.value];
        }
      }
    }
    assert opts[..|opts|] == opts;
  }

  /** The search as it is carried out. */
  method Explore<S(!new), E(!new)>(sp: Space<S, E>, ghost d: nat, queue: seq<S>, found: seq<S>) returns (valid: seq<S>)
    requires Falls(sp, d) && d >= 1
    ensures valid == found + Walk(sp, d, queue)
  {
    valid := found;
    var evals := queue;
    while evals != []
      invariant valid + Walk(sp, d, evals) == found + Walk(sp, d, queue)
      decreases Measure(sp, d, evals)
    {
      StepFalls(sp, d, evals);
      ghost var before, waiting := valid, evals;
      var s := evals[0];
      valid, evals := TryOptions(sp, s, valid, evals);
      evals := evals[1..];
      assert evals == waiting[1..] + Pending(sp, s);
      assert valid + Walk(sp, d, evals) == before + (Hits(sp, s) + Walk(sp, d, evals));
    }
    assert Walk(sp, d, evals) == [];
  }

  // ---- paths instead of states ----

  /** States read as the paths they stand for: the options from a path, whether it arrives, whether it is allowed. */
  datatype Reading<!S, !E> = Reading(
    trail: S -> seq<E>, proper: S -> bool, opts: seq<E> -> seq<E>, there: seq<E> -> bool, allowed: seq<E> -> bool)

  ghost predicate Reads<S(!new), E(!new)>(sp: Space<S, E>, r: Reading<S, E>) {
    && (forall s :: r.proper(s) ==> sp.options(s) == r.opts(r.trail(s)) && sp.arrives(s) == r.there(r.trail(s)))
    && (forall s, e :: r.proper(s) ==> (sp.extend(s, e).Some? <==> r.allowed(r.trail(s) + [e])))
    && (forall s, e :: r.proper(s) && sp.extend(s, e).Some? ==>
          r.proper(sp.extend(s, e).value) && r.trail(sp.extend(s, e).value) == r.trail(s) + [e])
    && (forall c, e :: r.allowed(c + [e]) ==> c == [] || r.allowed(c))
  }

  /** From position n on, the path takes options and arrives with its last one. */
  ghost predicate Onward<S(!new), E(!new)>(r: Reading<S, E>, c: seq<E>, n: nat) {
    && n < |c|
    && (forall i :: n <= i < |c| ==> c[i] in r.opts(c[..i]))
    && (forall i :: n < i < |c| ==> !r.there(c[..i]))
    && r.there(c) && r.allowed(c)
  }

  lemma {:induction false} AllowedPrefix<S(!new), E(!new)>(sp: Space<S, E>, r: Reading<S, E>, c: seq<E>, n: nat)
    requires Reads(sp, r) && 0 < n <= |c| && r.allowed(c)
    ensures r.allowed(c[..n])
    decreases |c|
  {
    if n < |c| {
      assert c == c[..|c| - 1] + [c[|c| - 1]];
      AllowedPrefix(sp, r, c[..|c| - 1], n);
      assert c[..|c| - 1][..n] == c[..n];
    } else {
      assert c[..n] == c;
    }
  }

  lemma OnwardStep<S(!new), E(!new)>(r: Reading<S, E>, c: seq<E>, n: nat)
    requires n < |c| - 1
    ensures Onward(r, c, n) <==> c[n] in r.opts(c[..n]) && !r.there(c[..n + 1]) && Onward(r, c, n + 1)
  {
  }

  lemma {:induction false} LeadsIff<S(!new), E(!new)>(sp: Space<S, E>, r: Reading<S, E>, s: S, c: seq<E>, n: nat)
    requires Reads(sp, r) && r.proper(s) && n < |c| && r.trail(s) == c[..n]
    ensures Leads(sp, s, c[n..]) <==> Onward(r, c, n)
    ensures Leads(sp, s, c[n..]) ==> r.trail(End(sp, s, c[n..])) == c
    decreases |c| - n
  {
    var e, next := c[n], sp.extend(s, c[n]);
    assert c[n..][0] == e && c[..n + 1] == r.trail(s) + [e];
    if n == |c| - 1 {
      assert c[..n + 1] == c;
    } else {
      OnwardStep(r, c, n);
      assert c[n..][1..] == c[n + 1..];
      if next.Some? {
        LeadsIff(sp, r, next.value, c, n + 1);
      } else if Onward(r, c, n) {
        AllowedPrefix(sp, r, c, n + 1);
      }
    }
  }

  function Filter<T>(keep: T -> bool, list: seq<T>): (r: seq<T>) {
    if list == [] then []
    else
      var rest := Filter(keep, list[..|list| - 1]);
      if keep(list[|list| - 1]) then rest + [list[|list| - 1]] else rest
  }

  lemma {:induction false} FilterMember<T>(keep: T -> bool, list: seq<T>, x: T)
    ensures x in Filter(keep, list) <==> x in list && keep(x)
    decreases |list|
  {
    if list != [] {
      FilterMember(keep, list[..|list| - 1], x);
      assert list == list[..|list| - 1] + [list[|list| - 1]];
    }
  }

  function Arrived<S, E>(sp: Space<S, E>, first: seq<S>): (r: seq<S>) {
    Filter(sp.arrives, first)
  }

  function Waiting<S, E>(sp: Space<S, E>, first: seq<S>): (r: seq<S>) {
    Filter(s => !sp.arrives(s), first)
  }

  /** All that is reported: the first states that arrive at once, then what the search finds from the others. */
  ghost function Reported<S(!new), E(!new)>(sp: Space<S, E>, d: nat, first: seq<S>): (r: seq<S>)
    requires Falls(sp, d) && d >= 1
  {
    Arrived(sp, first) + Walk(sp, d, Waiting(sp, first))
  }

  /** The states of paths of one step. */
  ghost predicate Firsts<S(!new), E(!new)>(r: Reading<S, E>, first: seq<S>, es: seq<E>) {
    |first| == |es| && forall i :: 0 <= i < |es| ==> r.proper(first[i]) && r.trail(first[i]) == [es[i]]
  }

  /** A path that starts with one of the given steps and then takes options until it arrives. */
  ghost predicate Route<S(!new), E(!new)>(r: Reading<S, E>, es: seq<E>, c: seq<E>) {
    c != [] && c[0] in es && if |c| == 1 then r.there(c) else !r.there(c[..1]) && Onward(r, c, 1)
  }

  lemma ReportedSound<S(!new), E(!new)>(
    sp: Space<S, E>, d: nat, r: Reading<S, E>, first: seq<S>, es: seq<E>, k: nat)
    requires Falls(sp, d) && d >= 1 && Reads(sp, r) && Firsts(r, first, es) && k < |Reported(sp, d, first)|
    ensures Route(r, es, r.trail(Reported(sp, d, first)[k]))
  {
    var arrived := Arrived(sp, first);
    if k < |arrived| {
      ArrivedSound(sp, r, first, es, k);
    } else {
      WaitingSound(sp, d, r, first, es, k - |arrived|);
    }
  }

  lemma ArrivedSound<S(!new), E(!new)>(sp: Space<S, E>, r: Reading<S, E>, first: seq<S>, es: seq<E>, k: nat)
    requires Reads(sp, r) && Firsts(r, first, es) && k < |Arrived(sp, first)|
    ensures Route(r, es, r.trail(Arrived(sp, first)[k]))
  {
    var s := Arrived(sp, first)[k];
    FilterMember(sp.arrives, first, s);
    var j :| 0 <= j < |first| && first[j] == s;
  }

  lemma WaitingSound<S(!new), E(!new)>(
    sp: Space<S, E>, d: nat, r: Reading<S, E>, first: seq<S>, es: seq<E>, k: nat)
    requires Falls(sp, d) && d >= 1 && Reads(sp, r) && Firsts(r, first, es) && k < |Walk(sp, d, Waiting(sp, first))|
    ensures Route(r, es, r.trail(Walk(sp, d, Waiting(sp, first))[k]))
  {
    var waiting := Waiting(sp, first);
    var i, rest := WalkSound(sp, d, waiting, k);
    FilterMember(s => !sp.arrives(s), first, waiting[i]);
    var j :| 0 <= j < |first| && first[j] == waiting[i];
    var c := [es[j]] + rest;
    assert c[1..] == rest && c[..1] == [es[j]];
    LeadsIff(sp, r, waiting[i], c, 1);
  }

  lemma ArrivedIndex<S, E>(sp: Space<S, E>, first: seq<S>, j: nat) returns (i: nat)
    requires j < |first| && sp.arrives(first[j])
    ensures i < |Arrived(sp, first)| && Arrived(sp, first)[i] == first[j]
  {
    FilterMember(sp.arrives, first, first[j]);
    i :| i < |Arrived(sp, first)| && Arrived(sp, first)[i] == first[j];
  }

  lemma WaitingIndex<S, E>(sp: Space<S, E>, first: seq<S>, j: nat) returns (i: nat)
    requires j < |first| && !sp.arrives(first[j])
    ensures i < |Waiting(sp, first)| && Waiting(sp, first)[i] == first[j]
  {
    FilterMember(s => !sp.arrives(s), first, first[j]);
    i :| i < |Waiting(sp, first)| && Waiting(sp, first)[i] == first[j];
  }

  lemma WalkIndex<S(!new), E(!new)>(sp: Space<S, E>, d: nat, queue: seq<S>, i: nat, es: seq<E>) returns (m: nat)
    requires Falls(sp, d) && d >= 1 && i < |queue| && Leads(sp, queue[i], es)
    ensures m < |Walk(sp, d, queue)| && Walk(sp, d, queue)[m] == End(sp, queue[i], es)
  {
    WalkComplete(sp, d, queue, i, es);
    m :| m < |Walk(sp, d, queue)| && Walk(sp, d, queue)[m] == End(sp, queue[i], es);
  }

  lemma ReportedComplete<S(!new), E(!new)>(
    sp: Space<S, E>, d: nat, r: Reading<S, E>, first: seq<S>, es: seq<E>, c: seq<E>) returns (k: nat)
    requires Falls(sp, d) && d >= 1 && Reads(sp, r) && Firsts(r, first, es) && Route(r, es, c)
    ensures k < |Reported(sp, d, first)| && r.trail(Reported(sp, d, first)[k]) == c
  {
    var j :| 0 <= j < |es| && es[j] == c[0];
    assert c[..1] == [c[0]];
    if |c| == 1 {
      assert c == [c[0]];
      k := ArrivedIndex(sp, first, j);
    } else {
      var i := WaitingIndex(sp, first, j);
      LeadsIff(sp, r, first[j], c, 1);
      var m := WalkIndex(sp, d, Waiting(sp, first), i, c[1..]);
      k := |Arrived(sp, first)| + m;
    }
  }

  // ---- no path twice ----

  ghost predicate Trails<S(!new), E(!new)>(sp: Space<S, E>, trail: S -> seq<E>) {
    forall s, e :: sp.extend(s, e).Some? ==> trail(sp.extend(s, e).value) == trail(s) + [e]
  }

  predicate NoRepeats<E(==)>(es: seq<E>) {
    forall i, j :: 0 <= i < j < |es| ==> es[i] != es[j]
  }

  /** Neither path continues the other. */
  predicate Apart<E(==)>(a: seq<E>, b: seq<E>) {
    !(a <= b) && !(b <= a)
  }

  predicate AllApart<S, E(==)>(trail: S -> seq<E>, queue: seq<S>) {
    forall i, j :: 0 <= i < j < |queue| ==> Apart(trail(queue[i]), trail(queue[j]))
  }

  predicate DistinctTrails<S, E(==)>(trail: S -> seq<E>, list: seq<S>) {
    forall i, j :: 0 <= i < j < |list| ==> trail(list[i]) != trail(list[j])
  }

  lemma {:induction false} EndExtends<S(!new), E(!new)>(sp: Space<S, E>, trail: S -> seq<E>, s: S, es: seq<E>)
    requires Trails(sp, trail) && Leads(sp, s, es)
    ensures trail(End(sp, s, es)) == trail(s) + es
    decreases |es|
  {
    var next := sp.extend(s, es[0]).value;
    assert es == [es[0]] + es[1..];
    if |es| > 1 {
      EndExtends(sp, trail, next, es[1..]);
      assert trail(s) + [es[0]] + es[1..] == trail(s) + es;
    }
  }

  lemma {:induction false} ExtensionsDistinct<S(!new), E(!new)>(
    sp: Space<S, E>, trail: S -> seq<E>, s: S, es: seq<E>, arriving: bool)
    requires Trails(sp, trail) && NoRepeats(es)
    ensures DistinctTrails(trail, Extensions(sp, s, es, arriving))
    decreases |es|
  {
    if es != [] {
      var init, last := es[..|es| - 1], es[|es| - 1];
      ExtensionsDistinct(sp, trail, s, init, arriving);
      var rest := Extensions(sp, s, init, arriving);
      forall k | 0 <= k < |rest| ensures trail(rest[k]) != trail(s) + [last] {
        var e := ExtensionFrom(sp, s, init, arriving, k);
        assert (trail(s) + [e])[|trail(s)|] != (trail(s) + [last])[|trail(s)|];
      }
    }
  }

  lemma ExtensionTrail<S(!new), E(!new)>(sp: Space<S, E>, trail: S -> seq<E>, s: S, es: seq<E>, arriving: bool, k: nat)
    requires Trails(sp, trail) && k < |Extensions(sp, s, es, arriving)|
    ensures |trail(Extensions(sp, s, es, arriving)[k])| == |trail(s)| + 1
    ensures trail(s) <= trail(Extensions(sp, s, es, arriving)[k])
  {
    var e := ExtensionFrom(sp, s, es, arriving, k);
  }

  lemma ApartFromLonger<E>(a: seq<E>, b: seq<E>, c: seq<E>)
    requires Apart(a, b) && b <= c && |c| == |b| + 1
    ensures Apart(a, c)
  {
  }

  lemma StepKeepsApart<S(!new), E(!new)>(sp: Space<S, E>, trail: S -> seq<E>, queue: seq<S>)
    requires Trails(sp, trail) && queue != [] && AllApart(trail, queue) && NoRepeats(sp.options(queue[0]))
    ensures AllApart(trail, queue[1..] + Pending(sp, queue[0]))
  {
    var s, pending := queue[0], Pending(sp, queue[0]);
    var next := queue[1..] + pending;
    ExtensionsDistinct(sp, trail, s, sp.options(s), false);
    forall i, j | 0 <= i < j < |next| ensures Apart(trail(next[i]), trail(next[j])) {
      var n := |queue| - 1;
      if n <= j {
        ExtensionTrail(sp, trail, s, sp.options(s), false, j - n);
        if n <= i {
          ExtensionTrail(sp, trail, s, sp.options(s), false, i - n);
          assert trail(pending[i - n]) != trail(pending[j - n]);
        } else {
          assert Apart(trail(queue[0]), trail(queue[i + 1]));
          ApartFromLonger(trail(next[i]), trail(s), trail(next[j]));
        }
      } else {
        assert next[i] == queue[i + 1] && next[j] == queue[j + 1];
      }
    }
  }

  /** A hit of the state in front is not reported again later. */
  lemma HitReportedOnce<S(!new), E(!new)>(sp: Space<S, E>, d: nat, trail: S -> seq<E>, queue: seq<S>, h: nat, k: nat)
    requires Falls(sp, d) && d >= 1 && Trails(sp, trail) && queue != [] && AllApart(trail, queue)
    requires h < |Hits(sp, queue[0])| && k < |Walk(sp, d, queue[1..] + Pending(sp, queue[0]))|
    ensures trail(Hits(sp, queue[0])[h]) != trail(Walk(sp, d, queue[1..] + Pending(sp, queue[0]))[k])
  {
    var s := queue[0];
    var rest := queue[1..] + Pending(sp, s);
    ExtensionTrail(sp, trail, s, sp.options(s), true, h);
    var i, es := WalkSound(sp, d, rest, k);
    EndExtends(sp, trail, rest[i], es);
    var n := |queue| - 1;
    if i < n {
      assert Apart(trail(queue[0]), trail(queue[i + 1]));
      ApartFromLonger(trail(rest[i]), trail(s), trail(Hits(sp, s)[h]));
    } else {
      ExtensionTrail(sp, trail, s, sp.options(s), false, i - n);
    }
  }

  /** If no options repeat and no queued path continues another, no path is reported twice. */
  lemma {:induction false} WalkDistinct<S(!new), E(!new)>(sp: Space<S, E>, d: nat, trail: S -> seq<E>, queue: seq<S>)
    requires Falls(sp, d) && d >= 1 && Trails(sp, trail) && AllApart(trail, queue)
    requires forall s :: NoRepeats(sp.options(s))
    ensures DistinctTrails(trail, Walk(sp, d, queue))
    decreases Measure(sp, d, queue)
  {
    if queue != [] {
      var s := queue[0];
      StepFalls(sp, d, queue);
      StepKeepsApart(sp, trail, queue);
      WalkDistinct(sp, d, trail, queue[1..] + Pending(sp, s));
      ExtensionsDistinct(sp, trail, s, sp.options(s), true);
      var hits, later := Hits(sp, s), Walk(sp, d, queue[1..] + Pending(sp, s));
      forall i, j | 0 <= i < j < |hits + later| ensures trail((hits + later)[i]) != trail((hits + later)[j]) {
        if i < |hits| <= j {
          HitReportedOnce(sp, d, trail, queue, i, j - |hits|);
        }
      }
    }
  }

  lemma {:induction false} FilterFrom<T>(keep: T -> bool, list: seq<T>, i: nat, j: nat) returns (p: nat, q: nat)
    requires i < j < |Filter(keep, list)|
    ensures p < q < |list| && list[p] == Filter(keep, list)[i] && list[q] == Filter(keep, list)[j]
    ensures keep(list[p]) && keep(list[q])
    decreases |list|
  {
    var init := list[..|list| - 1];
    if j < |Filter(keep, init)| {
      p, q := FilterFrom(keep, init, i, j);
    } else {
      FilterMember(keep, init, Filter(keep, list)[i]);
      assert Filter(keep, init)[i] in Filter(keep, init);
      p :| p < |init| && init[p] == Filter(keep, init)[i];
      q := |list| - 1;
    }
  }

  /** If the first states stand for different steps, all that is reported stands for different paths. */
  lemma ReportedDistinct<S(!new), E(!new)>(
    sp: Space<S, E>, d: nat, trail: S -> seq<E>, first: seq<S>, es: seq<E>)
    requires Falls(sp, d) && d >= 1 && Trails(sp, trail) && NoRepeats(es) && |first| == |es|
    requires forall i :: 0 <= i < |es| ==> trail(first[i]) == [es[i]]
    requires forall s :: NoRepeats(sp.options(s))
    ensures DistinctTrails(trail, Reported(sp, d, first))
  {
    var arrived, waiting, list := Arrived(sp, first), Waiting(sp, first), Reported(sp, d, first);
    forall i, j | 0 <= i < j < |waiting| ensures Apart(trail(waiting[i]), trail(waiting[j])) {
      var p, q := FilterFrom(s => !sp.arrives(s), first, i, j);
      OneStepApart(es[p], es[q]);
    }
    WalkDistinct(sp, d, trail, waiting);
    forall i, j | 0 <= i < j < |list| ensures trail(list[i]) != trail(list[j]) {
      if j < |arrived| {
        var p, q := FilterFrom(sp.arrives, first, i, j);
        OneStepApart(es[p], es[q]);
      } else if i < |arrived| {
        ArrivedThenWaited(sp, d, trail, first, es, i, j - |arrived|);
      }
    }
  }

  lemma OneStepApart<E>(a: E, b: E)
    requires a != b
    ensures Apart([a], [b])
  {
    assert [a][0] != [b][0];
  }

  lemma ArrivedThenWaited<S(!new), E(!new)>(
    sp: Space<S, E>, d: nat, trail: S -> seq<E>, first: seq<S>, es: seq<E>, i: nat, k: nat)
    requires Falls(sp, d) && d >= 1 && Trails(sp, trail) && |first| == |es|
    requires forall i :: 0 <= i < |es| ==> trail(first[i]) == [es[i]]
    requires i < |Arrived(sp, first)| && k < |Walk(sp, d, Waiting(sp, first))|
    ensures trail(Arrived(sp, first)[i]) != trail(Walk(sp, d, Waiting(sp, first))[k])
  {
    var waiting := Waiting(sp, first);
    FilterMember(sp.arrives, first, Arrived(sp, first)[i]);
    var p :| 0 <= p < |first| && first[p] == Arrived(sp, first)[i];
    var j, rest := WalkSound(sp, d, waiting, k);
    EndExtends(sp, trail, waiting[j], rest);
    FilterMember(s => !sp.arrives(s), first, waiting[j]);
    var q :| 0 <= q < |first| && first[q] == waiting[j];
    assert |trail(first[p])| == 1 && |trail(first[q]) + rest| >= 2;
  }

  // ---- searching a part ----

  lemma {:induction false} FilterConcat<T>(keep: T -> bool, a: seq<T>, b: seq<T>)
    ensures Filter(keep, a + b) == Filter(keep, a) + Filter(keep, b)
    decreases |b|
  {
    if b == [] {
      assert a + b == a;
    } else {
      FilterConcat(keep, a, b[..|b| - 1]);
      assert (a + b)[..|a + b| - 1] == a + b[..|b| - 1];
    }
  }

  /** The second space offers the options of the first that pass, and states are kept while all theirs pass. */
  ghost predicate Part<S(!new), E(!new)>(sp: Space<S, E>, part: Space<S, E>, keep: S -> bool, pass: E -> bool) {
    && (forall s, e :: part.extend(s, e) == sp.extend(s, e)) && (forall s :: part.arrives(s) == sp.arrives(s))
    && (forall s :: part.options(s) == Filter(pass, sp.options(s)))
    && (forall s, e :: sp.extend(s, e).Some? ==> keep(sp.extend(s, e).value) == (keep(s) && pass(e)))
  }

  lemma {:induction false} PartExtensions<S(!new), E(!new)>(
    sp: Space<S, E>, part: Space<S, E>, keep: S -> bool, pass: E -> bool, s: S, es: seq<E>, arriving: bool)
    requires Part(sp, part, keep, pass)
    ensures Filter(keep, Extensions(sp, s, es, arriving)) ==
            if keep(s) then Extensions(part, s, Filter(pass, es), arriving) else []
    decreases |es|
  {
    if es != [] {
      var init, last := es[..|es| - 1], es[|es| - 1];
      PartExtensions(sp, part, keep, pass, s, init, arriving);
      var rest, some := Extensions(sp, s, init, arriving), Filter(pass, init);
      assert (some + [last])[..|some|] == some;
      var next := sp.extend(s, last);
      if next.Some? {
        assert (rest + [next.value])[..|rest|] == rest;
      }
    }
  }

  /** Searching the part reports, in the same order, what searching the whole reports and is kept. */
  lemma {:induction false} WalkPart<S(!new), E(!new)>(
    sp: Space<S, E>, part: Space<S, E>, d: nat, keep: S -> bool, pass: E -> bool, queue: seq<S>)
    requires Falls(sp, d) && Falls(part, d) && d >= 1 && Part(sp, part, keep, pass)
    ensures Walk(part, d, Filter(keep, queue)) == Filter(keep, Walk(sp, d, queue))
    decreases Measure(sp, d, queue)
  {
    if queue != [] {
      var s := queue[0];
      StepFalls(sp, d, queue);
      WalkPart(sp, part, d, keep, pass, queue[1..] + Pending(sp, s));
      PartExtensions(sp, part, keep, pass, s, sp.options(s), true);
      PartExtensions(sp, part, keep, pass, s, sp.options(s), false);
      FilterConcat(keep, queue[1..], Pending(sp, s));
      FilterConcat(keep, Hits(sp, s), Walk(sp, d, queue[1..] + Pending(sp, s)));
      FilterFront(keep, queue);
      if !keep(s) {
        assert Filter(keep, queue[1..]) + [] == Filter(keep, queue[1..]);
      }
    }
  }

  lemma FilterFront<T>(keep: T -> bool, list: seq<T>)
    requires list != []
    ensures keep(list[0]) ==>
      var r := Filter(keep, list); r != [] && r[0] == list[0] && r[1..] == Filter(keep, list[1..])
    ensures !keep(list[0]) ==> Filter(keep, list) == Filter(keep, list[1..])
  {
    assert [list[0]] + list[1..] == list;
    FilterConcat(keep, [list[0]], list[1..]);
    FilterOne(keep, list[0]);
  }

  lemma FilterOne<T>(keep: T -> bool, x: T)
    ensures Filter(keep, [x]) == if keep(x) then [x] else []
  {
    assert [x][..0] == [];
    assert Filter(keep, [x][..0]) == [];
  }

  /** The bound on the number of options plays no part in what is found. */
  lemma {:induction false} WalkAnyBound<S(!new), E(!new)>(sp: Space<S, E>, d: nat, b: nat, queue: seq<S>)
    requires Falls(sp, d) && Falls(sp, b) && d >= 1 && b >= 1
    ensures Walk(sp, d, queue) == Walk(sp, b, queue)
    decreases Measure(sp, d, queue)
  {
    if queue != [] {
      StepFalls(sp, d, queue);
      WalkAnyBound(sp, d, b, queue[1..] + Pending(sp, queue[0]));
    }
  }

  lemma {:induction false} FiltersCommute<T>(f: T -> bool, g: T -> bool, h: T -> bool, list: seq<T>)
    requires forall x :: x in list ==> f(x) == h(x)
    ensures Filter(h, Filter(g, list)) == Filter(g, Filter(f, list))
    decreases |list|
  {
    if list != [] {
      var init, last := list[..|list| - 1], list[|list| - 1];
      assert last in list && forall x :: x in init ==> x in list;
      FiltersCommute(f, g, h, init);
      FilterConcat(h, Filter(g, init), [last]);
      FilterConcat(g, Filter(f, init), [last]);
      FilterOne(g, last);
      FilterOne(h, last);
    }
  }

  /** The same for all that is reported, when the first states are cut down alike. */
  lemma ReportedPart<S(!new), E(!new)>(
    sp: Space<S, E>, part: Space<S, E>, d: nat, b: nat, keep: S -> bool, pass: E -> bool, first: seq<S>)
    requires Falls(sp, d) && Falls(part, b) && d >= 1 && b >= 1 && Part(sp, part, keep, pass)
    ensures Reported(part, b, Filter(keep, first)) == Filter(keep, Reported(sp, d, first))
  {
    var m := if d < b then b else d;
    var not, notPart := s => !sp.arrives(s), s => !part.arrives(s);
    FiltersCommute(sp.arrives, keep, part.arrives, first);
    FiltersCommute(not, keep, notPart, first);
    WalkPart(sp, part, m, keep, pass, Waiting(sp, first));
    WalkAnyBound(sp, d, m, Waiting(sp, first));
    WalkAnyBound(part, b, m, Waiting(part, Filter(keep, first)));
    FilterConcat(keep, Arrived(sp, first), Walk(sp, d, Waiting(sp, first)));
  }

  // ---- searching where it matters ----

  /** The two spaces agree on states inside, and no state that waits leaves. */
  ghost predicate Agree<S(!new), E(!new)>(sp: Space<S, E>, other: Space<S, E>, inside: S -> bool) {
    && (forall s, e :: other.extend(s, e) == sp.extend(s, e)) && (forall s :: other.arrives(s) == sp.arrives(s))
    && (forall s :: inside(s) ==> other.options(s) == sp.options(s))
    && (forall s, e :: inside(s) && e in sp.options(s) && sp.extend(s, e).Some? && !sp.arrives(sp.extend(s, e).value) ==>
          inside(sp.extend(s, e).value))
  }

  lemma {:induction false} SameExtensions<S(!new), E(!new)>(
    sp: Space<S, E>, other: Space<S, E>, inside: S -> bool, s: S, es: seq<E>, arriving: bool)
    requires Agree(sp, other, inside)
    ensures Extensions(other, s, es, arriving) == Extensions(sp, s, es, arriving)
    decreases |es|
  {
    if es != [] {
      SameExtensions(sp, other, inside, s, es[..|es| - 1], arriving);
    }
  }

  lemma PendingInside<S(!new), E(!new)>(sp: Space<S, E>, other: Space<S, E>, inside: S -> bool, s: S)
    requires Agree(sp, other, inside) && inside(s)
    ensures forall i :: 0 <= i < |Pending(sp, s)| ==> inside(Pending(sp, s)[i])
  {
    forall i | 0 <= i < |Pending(sp, s)| ensures inside(Pending(sp, s)[i]) {
      var e := ExtensionFrom(sp, s, sp.options(s), false, i);
    }
  }

  /** What lies outside plays no part in what is found. */
  lemma {:induction false} WalkInside<S(!new), E(!new)>(
    sp: Space<S, E>, other: Space<S, E>, d: nat, inside: S -> bool, queue: seq<S>)
    requires Falls(sp, d) && Falls(other, d) && d >= 1 && Agree(sp, other, inside)
    requires forall i :: 0 <= i < |queue| ==> inside(queue[i])
    ensures Walk(other, d, queue) == Walk(sp, d, queue)
    decreases Measure(sp, d, queue)
  {
    if queue != [] {
      var s := queue[0];
      StepFalls(sp, d, queue);
      PendingInside(sp, other, inside, s);
      SameExtensions(sp, other, inside, s, sp.options(s), true);
      SameExtensions(sp, other, inside, s, sp.options(s), false);
      WalkInside(sp, other, d, inside, queue[1..] + Pending(sp, s));
    }
  }

  lemma {:induction false} FilterSame<T>(f: T -> bool, g: T -> bool, list: seq<T>)
    requires forall x :: x in list ==> f(x) == g(x)
    ensures Filter(f, list) == Filter(g, list)
    decreases |list|
  {
    if list != [] {
      var init, last := list[..|list| - 1], list[|list| - 1];
      assert last in list && forall x :: x in init ==> x in list;
      FilterSame(f, g, init);
    }
  }

  lemma ReportedInside<S(!new), E(!new)>(
    sp: Space<S, E>, other: Space<S, E>, d: nat, b: nat, inside: S -> bool, first: seq<S>)
    requires Falls(sp, d) && Falls(other, b) && d >= 1 && b >= 1 && Agree(sp, other, inside)
    requires forall i :: 0 <= i < |first| && !sp.arrives(first[i]) ==> inside(first[i])
    ensures Reported(other, b, first) == Reported(sp, d, first)
  {
    var m := if d < b then b else d;
    var not, notOther := s => !sp.arrives(s), s => !other.arrives(s);
    FilterSame(other.arrives, sp.arrives, first);
    FilterSame(notOther, not, first);
    var waiting := Waiting(sp, first);
    forall i | 0 <= i < |waiting| ensures inside(waiting[i]) {
      FilterMember(not, first, waiting[i]);
    }
    WalkInside(sp, other, m, inside, waiting);
    WalkAnyBound(sp, d, m, waiting);
    WalkAnyBound(other, b, m, waiting);
  }
}
