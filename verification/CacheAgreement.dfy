/** Answering from cached chains gives the same list as searching again. */
module CacheAgreement {
  import opened Delegation
  import opened Search
  import opened ChainBuilder

  function GrantsBy(snap: Snapshot, k: Key): (r: seq<Hash>) {
    if k in snap.grants then snap.grants[k] else []
  }

  predicate OnNamespace(snap: Snapshot, ns: Key, h: Hash) {
    h in snap.dots && snap.dots[h].Found? && snap.dots[h].dot.ns == ns
  }

  /** The grants of a key that concern a namespace. */
  function NamespaceGrants(snap: Snapshot, ns: Key, k: Key): (r: seq<Hash>) {
    Filter(h => OnNamespace(snap, ns, h), GrantsBy(snap, k))
  }

  /** Everything granted can be looked up. */
  ghost predicate Complete(snap: Snapshot) {
    forall k, i :: k in snap.grants && 0 <= i < |snap.grants[k]| ==> snap.grants[k][i] in snap.dots
  }

  predicate ValidNow(snap: Snapshot, d: DOT) {
    d.hash in snap.dots && snap.dots[d.hash].state == Valid
  }

  /**
   * From one snapshot to the next no DOT on the namespace has appeared among the grants, and validity has only
   * been lost. Hashes stand for the same DOT in both.
   */
  ghost predicate OnlyShrunk(ns: Key, past: Snapshot, now: Snapshot) {
    && Complete(past) && Complete(now)
    && (forall k :: NamespaceGrants(now, ns, k) == NamespaceGrants(past, ns, k))
    && (forall h :: h in past.dots && past.dots[h].Found? ==> past.dots[h].dot.hash == h)
    && (forall h :: OnNamespace(past, ns, h) && OnNamespace(now, ns, h) ==> now.dots[h].dot == past.dots[h].dot)
    && (forall h :: OnNamespace(now, ns, h) && now.dots[h].state == Valid ==> h in past.dots && past.dots[h].state == Valid)
  }

  function LinksOf(snap: Snapshot, hashes: seq<Hash>): (r: seq<Link>)
    requires forall i :: 0 <= i < |hashes| ==> hashes[i] in snap.dots
    ensures |r| == |hashes|
  {
    seq(|hashes|, i requires 0 <= i < |hashes| => snap.dots[hashes[i]])
  }

  lemma {:induction false} FilterAll<T>(keep: T -> bool, list: seq<T>, i: nat)
    requires i < |Filter(keep, list)|
    ensures keep(Filter(keep, list)[i]) && Filter(keep, list)[i] in list
  {
    FilterMember(keep, list, Filter(keep, list)[i]);
  }

  lemma UsefulLast(req: Request, snap: Snapshot, hashes: seq<Hash>, h: Hash)
    requires h in snap.dots && forall i :: 0 <= i < |hashes| ==> hashes[i] in snap.dots
    ensures var l := snap.dots[h];
      UsefulDots(req, LinksOf(snap, hashes + [h])) ==
      UsefulDots(req, LinksOf(snap, hashes)) + if Usable(l) && DotUseful(req, l.dot) then [l.dot] else []
  {
    UsefulOne(req, LinksOf(snap, hashes), snap.dots[h]);
    assert LinksOf(snap, hashes + [h]) == LinksOf(snap, hashes) + [snap.dots[h]];
  }

  /** DOTs of other namespaces are never useful. */
  lemma {:induction false} UsefulOnNamespace(req: Request, snap: Snapshot, hashes: seq<Hash>)
    requires forall i :: 0 <= i < |hashes| ==> hashes[i] in snap.dots
    ensures var some := Filter(h => OnNamespace(snap, req.ns, h), hashes);
      (forall i :: 0 <= i < |some| ==> some[i] in snap.dots) &&
      UsefulDots(req, LinksOf(snap, some)) == UsefulDots(req, LinksOf(snap, hashes))
    decreases |hashes|
  {
    var on := (h: Hash) => OnNamespace(snap, req.ns, h);
    var some := Filter(on, hashes);
    forall i | 0 <= i < |some| ensures some[i] in snap.dots {
      FilterAll(on, hashes, i);
    }
    if hashes != [] {
      var init, last := hashes[..|hashes| - 1], hashes[|hashes| - 1];
      UsefulOnNamespace(req, snap, init);
      UsefulLast(req, snap, init, last);
      assert hashes == init + [last];
      if on(last) {
        UsefulLast(req, snap, Filter(on, init), last);
      }
    }
  }

  predicate ShrunkAt(ns: Key, past: Snapshot, now: Snapshot, h: Hash) {
    && OnNamespace(past, ns, h) && OnNamespace(now, ns, h)
    && now.dots[h].dot == past.dots[h].dot && now.dots[h].dot.hash == h
    && (now.dots[h].state == Valid ==> past.dots[h].state == Valid)
  }

  lemma UsefulOne(req: Request, links: seq<Link>, l: Link)
    ensures UsefulDots(req, links + [l]) ==
            UsefulDots(req, links) + if Usable(l) && DotUseful(req, l.dot) then [l.dot] else []
  {
    assert (links + [l])[..|links|] == links;
  }

  lemma {:induction false} UsefulShrunk(req: Request, past: Snapshot, now: Snapshot, hashes: seq<Hash>)
    requires forall i :: 0 <= i < |hashes| ==> hashes[i] in past.dots && hashes[i] in now.dots
    requires forall i :: 0 <= i < |hashes| ==> ShrunkAt(req.ns, past, now, hashes[i])
    ensures UsefulDots(req, LinksOf(now, hashes)) == Filter(d => ValidNow(now, d), UsefulDots(req, LinksOf(past, hashes)))
    decreases |hashes|
  {
    if hashes != [] {
      var pass := (d: DOT) => ValidNow(now, d);
      var init, last := hashes[..|hashes| - 1], hashes[|hashes| - 1];
      UsefulShrunk(req, past, now, init);
      assert LinksOf(now, hashes) == LinksOf(now, init) + [now.dots[last]];
      assert LinksOf(past, hashes) == LinksOf(past, init) + [past.dots[last]];
      UsefulOne(req, LinksOf(now, init), now.dots[last]);
      UsefulOne(req, LinksOf(past, init), past.dots[last]);
      var d := past.dots[last].dot;
      assert ShrunkAt(req.ns, past, now, last) && pass(d) == (now.dots[last].state == Valid);
      FilterConcat(pass, UsefulDots(req, LinksOf(past, init)), [d]);
      FilterOne(pass, d);
    }
  }

  lemma OptionsAsUseful(req: Request, snap: Snapshot, k: Key)
    requires Complete(snap)
    ensures forall i :: 0 <= i < |GrantsBy(snap, k)| ==> GrantsBy(snap, k)[i] in snap.dots
    ensures GetOptions(req, snap, k) == UsefulDots(req, LinksOf(snap, GrantsBy(snap, k)))
  {
    if k in snap.grants {
      assert GrantedLinks(snap, k).Some?;
      assert GrantedLinks(snap, k).value == LinksOf(snap, GrantsBy(snap, k));
    }
  }

  lemma OptionsShrunk(req: Request, past: Snapshot, now: Snapshot, k: Key)
    requires OnlyShrunk(req.ns, past, now)
    ensures GetOptions(req, now, k) == Filter(d => ValidNow(now, d), GetOptions(req, past, k))
  {
    OptionsAsUseful(req, past, k);
    OptionsAsUseful(req, now, k);
    UsefulOnNamespace(req, past, GrantsBy(past, k));
    UsefulOnNamespace(req, now, GrantsBy(now, k));
    var some := NamespaceGrants(past, req.ns, k);
    assert some == NamespaceGrants(now, req.ns, k);
    forall i | 0 <= i < |some| ensures some[i] in past.dots && some[i] in now.dots && ShrunkAt(req.ns, past, now, some[i]) {
      FilterAll(h => OnNamespace(past, req.ns, h), GrantsBy(past, k), i);
      FilterAll(h => OnNamespace(now, req.ns, h), GrantsBy(now, k), i);
    }
    UsefulShrunk(req, past, now, some);
  }

  lemma ValidOneMore(now: Snapshot, chain: Chain, d: DOT)
    ensures ChainValid(now, chain + [d]) <==> ChainValid(now, chain) && ValidNow(now, d)
  {
    var c := chain + [d];
    if ChainValid(now, c) {
      forall i | 0 <= i < |chain| ensures chain[i].hash in now.dots && now.dots[chain[i].hash].state == Valid {
        assert c[i] == chain[i];
      }
      assert c[|chain|] == d;
    }
  }

  lemma SpacesArePart(req: Request, past: Snapshot, now: Snapshot)
    requires OnlyShrunk(req.ns, past, now)
    ensures Part(ChainSpace(req, past), ChainSpace(req, now),
                 (s: Scenario) => ChainValid(now, s.chain), (d: DOT) => ValidNow(now, d))
  {
    var sp, part := ChainSpace(req, past), ChainSpace(req, now);
    forall s ensures part.options(s) == Filter(d => ValidNow(now, d), sp.options(s)) {
      OptionsShrunk(req, past, now, Terminal(s));
    }
    forall s, e | sp.extend(s, e).Some?
      ensures ChainValid(now, sp.extend(s, e).value.chain) == (ChainValid(now, s.chain) && ValidNow(now, e))
    {
      ValidOneMore(now, s.chain, e);
    }
  }

  lemma {:induction false} StartsShrunk(now: Snapshot, ds: seq<DOT>)
    ensures Starts(Filter(d => ValidNow(now, d), ds)) == Filter((s: Scenario) => ChainValid(now, s.chain), Starts(ds))
    decreases |ds|
  {
    if ds != [] {
      var init, last := ds[..|ds| - 1], ds[|ds| - 1];
      StartsShrunk(now, init);
      assert Starts(ds)[..|init|] == Starts(init);
      ValidOneMore(now, [], last);
      assert [] + [last] == [last];
    }
  }

  lemma {:induction false} ChainsShrunk(now: Snapshot, list: seq<Scenario>)
    ensures ChainsOf(Filter((s: Scenario) => ChainValid(now, s.chain), list)) == StillValid(now, ChainsOf(list))
    decreases |list|
  {
    if list != [] {
      var init := list[..|list| - 1];
      ChainsShrunk(now, init);
      assert ChainsOf(list)[..|init|] == ChainsOf(init);
    }
  }

  /**
   * Chains cached in one snapshot and filtered in a later one are what searching the later snapshot would
   * report, in the same order.
   */
  lemma CacheAgrees(req: Request, past: Snapshot, now: Snapshot, start: Key)
    requires OnlyShrunk(req.ns, past, now)
    ensures StillValid(now, BuildChains(req, past, start)) == BuildChains(req, now, start)
  {
    var keep := (s: Scenario) => ChainValid(now, s.chain);
    var pass := (d: DOT) => ValidNow(now, d);
    var opts := GetOptions(req, past, start);
    ChainSpaceFalls(req, past);
    ChainSpaceFalls(req, now);
    SpacesArePart(req, past, now);
    OptionsShrunk(req, past, now, start);
    StartsShrunk(now, opts);
    ReportedPart(ChainSpace(req, past), ChainSpace(req, now), Degree(past.grants), Degree(now.grants), keep, pass, Starts(opts));
    ChainsShrunk(now, SearchFrom(req, past, start));
  }

  /** The search asks for the grants of no other keys. */
  ghost predicate Closed(req: Request, snap: Snapshot, keys: set<Key>) {
    forall k, d :: k in keys && d in GetOptions(req, snap, k) ==> IsTarget(req, d.receiver) || d.receiver in keys
  }

  /** What other keys have granted plays no part in what is found. */
  lemma ClosedSearch(req: Request, snap: Snapshot, other: Snapshot, keys: set<Key>, start: Key)
    requires start in keys && Closed(req, snap, keys)
    requires forall k :: k in keys ==> GetOptions(req, other, k) == GetOptions(req, snap, k)
    ensures BuildChains(req, other, start) == BuildChains(req, snap, start)
  {
    var opts := GetOptions(req, snap, start);
    ChainSpaceFalls(req, snap);
    ChainSpaceFalls(req, other);
    forall i | 0 <= i < |opts| ensures IsTarget(req, opts[i].receiver) || opts[i].receiver in keys {
      assert opts[i] in GetOptions(req, snap, start);
    }
    ReportedInside(ChainSpace(req, snap), ChainSpace(req, other), Degree(snap.grants), Degree(other.grants),
                   (s: Scenario) => Terminal(s) in keys, Starts(opts));
  }
}
