/** Runs of the caches in which something stale is kept, as the code is. */
module StaleRuns {
  import opened Options
  import opened Delegation
  import opened ChainBuilder
  import opened ChainTheorems
  import opened CacheAgreement
  import opened RegistryLog
  import opened Resolution
  import opened Lookups
  import opened Staleness
  import opened CachedAnswers

  function Empties(n: nat): (r: Registry)
    ensures |r| == n
  {
    seq(n, _ => [])
  }

  // `Shown` says nothing: it only lets a proof choose where the run behind `Leads` comes into sight.
  ghost predicate Shown(w0: World, w: World, k: int) { true }

  /** Some run leads from one world to the other. */
  ghost predicate Leads(w0: World, w: World) {
    && Running(w0) && Running(w)
    && forall k: int {:trigger Shown(w0, w, k)} :: Shown(w0, w, k) ==> exists steps :: Run(w0, steps, false) == w
  }

  lemma LeadsRuns(w0: World, w: World) returns (steps: seq<Step>)
    requires Leads(w0, w)
    ensures Run(w0, steps, false) == w
  {
    assert Shown(w0, w, 0);
    steps :| Run(w0, steps, false) == w;
  }

  lemma NextTo(w0: World, w: World, st: Step)
    requires Leads(w0, w)
    ensures Leads(w0, Next(w, st, false))
  {
    var steps := LeadsRuns(w0, w);
    assert (steps + [st])[..|steps|] == steps;
    assert Run(w0, steps + [st], false) == Next(w, st, false);
  }

  lemma Nowhere(w: World)
    requires Running(w)
    ensures Leads(w, w)
  {
    assert Run(w, [], false) == w;
  }

  lemma GrowTo(w0: World, w: World, events: seq<Event>, n: World)
    requires Leads(w0, w) && n == w.(registry := w.registry + [events])
    ensures Leads(w0, n)
  {
    NextTo(w0, w, Grow(events));
  }

  lemma CheckTo(w0: World, w: World, fs: seq<Flush>, n: World)
    requires Leads(w0, w) && w.pending == [] && w.lastblock < Current(w)
    requires fs == ReplayOf(w.registry, w.lastblock - REPLAY, |w.registry|) && n == w.(lastblock := Current(w), pending := fs)
    ensures Leads(w0, n)
  {
    NextTo(w0, w, Check);
  }

  lemma ReplayTo(w0: World, w: World, f: Flush, rest: seq<Flush>, c: Cache, n: World)
    requires Leads(w0, w) && w.pending == [f] + rest && c == ApplyFlush(w.cache, f, Current(w))
    requires n == w.(cache := c, pending := rest, replayed := if f.OfChains? then w.replayed + {(f.ns, f.block)} else w.replayed)
    ensures Leads(w0, n)
  {
    NextTo(w0, w, Replay);
    assert w.pending[0] == f && w.pending[1..] == rest;
  }

  lemma LookupDotTo(w0: World, w: World, d: DOT, c: Cache, n: World)
    requires Leads(w0, w) && c == LookUpDot(w.cache, w.registry, w.clock, d, false) && n == w.(cache := c)
    ensures Leads(w0, n)
  {
    NextTo(w0, w, LookupDot(d));
  }

  /** Empty blocks. */
  lemma {:induction false} GrowBy(w0: World, w: World, k: nat, n: World)
    requires Leads(w0, w) && n == w.(registry := w.registry + Empties(k))
    ensures Leads(w0, n)
    decreases k
  {
    if k == 0 {
      assert w.registry + Empties(0) == w.registry;
    } else {
      var m := w.(registry := w.registry + Empties(k - 1));
      GrowBy(w0, w, k - 1, m);
      assert m.registry + [[]] == n.registry;
      GrowTo(w0, m, [], n);
    }
  }

  /** Blocks without events call for no flushes. */
  lemma {:induction false} NoFlushes(reg: Registry, lo: int, from: nat, hi: nat)
    requires from <= hi <= |reg| && forall g :: from <= g < hi ==> reg[g] == []
    ensures ReplayOf(reg, lo, hi) == ReplayOf(reg, lo, from)
    decreases hi
  {
    if from < hi {
      NoFlushes(reg, lo, from, hi - 1);
      if lo < hi {
        assert BlockFlushes(reg[hi - 1], hi - 1) == [];
      } else {
        NothingBefore(reg, lo, from);
      }
    }
  }

  lemma NothingBefore(reg: Registry, lo: int, hi: nat)
    requires hi <= |reg| && hi <= lo
    ensures ReplayOf(reg, lo, hi) == []
  {
  }

  // ---- a build that reads an old list ----

  /** Two ways from a namespace to a target: the first DOT alone, or the second and then the third. */
  predicate TwoWays(req: Request, e1: DOT, e2: DOT, d: DOT) {
    && e1.giver == req.ns && e1.receiver == req.target && e2.giver == req.ns && e2.receiver == d.giver && d.receiver == req.target
    && req.ns != d.giver && req.ns != req.target && d.giver != req.target && d.giver != EVERYBODY
    && e1.hash != e2.hash && e1.hash != d.hash && e2.hash != d.hash && d.ns == req.ns
  }

  /** Both grant what is asked for. */
  predicate BothGrant(req: Request, e1: DOT, e2: DOT, d: DOT) {
    DotUseful(req, e1) && DotUseful(req, e2) && DotUseful(req, d) && e2.ttl >= 1 && FoldSuffix([e2, d]).Some?
  }

  /** The keys and the first two DOTs are too old to be replayed. */
  function Begun(e1: DOT, e2: DOT): (r: Registry) {
    [[NewEntity(e1.giver), NewEntity(e1.receiver), NewEntity(e2.receiver), NewDOT(e1), NewDOT(e2)]] + Empties(REPLAY + 1)
  }

  function Third(e1: DOT, e2: DOT, d: DOT): (r: Registry) {
    Begun(e1, e2) + [[NewDOT(d)]]
  }

  const AT: nat := REPLAY + 2

  lemma OneDot(e1: DOT, e2: DOT, d: DOT)
    ensures ReplayOf(Third(e1, e2, d), AT - 1 - REPLAY, AT + 1) == [OfGranted(d.giver), OfChains(d.ns, AT), OfDot(d.hash)]
  {
    var reg := Third(e1, e2, d);
    NoFlushes(reg, 1, 1, AT);
    NothingBefore(reg, 1, 1);
    assert reg[AT] == [NewDOT(d)] && [NewDOT(d)][..0] == [];
    assert BlockFlushes([NewDOT(d)], AT) == BlockFlushes([], AT) + FlushesOf(NewDOT(d), AT);
  }

  /** The third is published, and its flushes carried out. */
  function Flushed(e1: DOT, e2: DOT, d: DOT): (w: World) {
    World(Third(e1, e2, d), Clock({}, {}), EMPTY.(holdoff := map[d.ns := AT + HOLDOFF]), AT, [], map[], map[], {(d.ns, AT)})
  }

  /** It is published, and the first of its flushes carried out. */
  function Checked(e1: DOT, e2: DOT, d: DOT): (w: World) {
    Start(Begun(e1, e2)).(registry := Third(e1, e2, d), lastblock := AT, pending := [OfChains(d.ns, AT), OfDot(d.hash)])
  }

  lemma CheckedReached(e1: DOT, e2: DOT, d: DOT)
    ensures Leads(Start(Begun(e1, e2)), Checked(e1, e2, d))
  {
    var w0 := Start(Begun(e1, e2));
    Nowhere(w0);
    var w1 := w0.(registry := Third(e1, e2, d));
    GrowTo(w0, w0, [NewDOT(d)], w1);
    OneDot(e1, e2, d);
    var more := [OfChains(d.ns, AT), OfDot(d.hash)];
    var w2 := w1.(lastblock := AT, pending := [OfGranted(d.giver)] + more);
    CheckTo(w0, w1, [OfGranted(d.giver)] + more, w2);
    assert FlushGranted(EMPTY, d.giver) == EMPTY;
    ReplayTo(w0, w2, OfGranted(d.giver), more, EMPTY, Checked(e1, e2, d));
  }

  lemma FlushedReached(e1: DOT, e2: DOT, d: DOT)
    ensures Leads(Start(Begun(e1, e2)), Flushed(e1, e2, d))
  {
    var w0, w3, last := Start(Begun(e1, e2)), Checked(e1, e2, d), [OfDot(d.hash)];
    CheckedReached(e1, e2, d);
    var held := EMPTY.(holdoff := map[d.ns := AT + HOLDOFF]);
    assert FlushChains(EMPTY, d.ns, AT) == held && w3.pending == [OfChains(d.ns, AT)] + last;
    var w4 := w3.(cache := held, pending := last, replayed := {(d.ns, AT)});
    ReplayTo(w0, w3, OfChains(d.ns, AT), last, held, w4);
    assert FlushDot(held, d.hash) == held && last == [OfDot(d.hash)] + [];
    ReplayTo(w0, w4, OfDot(d.hash), [], held, Flushed(e1, e2, d));
  }

  lemma {:induction false} EmptyGrantsNothing(reg: Registry, k: Key, from: nat, hi: nat)
    requires from <= hi <= |reg| && forall g :: from <= g < hi ==> reg[g] == []
    ensures GrantsBefore(reg, k, hi) == GrantsBefore(reg, k, from)
    decreases hi
  {
    if from < hi {
      EmptyGrantsNothing(reg, k, from, hi - 1);
      assert GrantsIn(reg[hi - 1], k) == [];
    }
  }

  /** The first block grants the first two DOTs. */
  lemma FirstGrants(req: Request, e1: DOT, e2: DOT, d: DOT, k: Key)
    requires TwoWays(req, e1, e2, d)
    ensures GrantsIn(Begun(e1, e2)[0], k) == if k == req.ns then [e1.hash, e2.hash] else []
  {
    var a, b, c := NewEntity(e1.giver), NewEntity(e1.receiver), NewEntity(e2.receiver);
    OneMoreEvent([], a, k);
    OneMoreEvent([a], b, k);
    OneMoreEvent([a, b], c, k);
    OneMoreEvent([a, b, c], NewDOT(e1), k);
    OneMoreEvent([a, b, c, NewDOT(e1)], NewDOT(e2), k);
    assert [] + [a] == [a] && [a] + [b] == [a, b] && [a, b] + [c] == [a, b, c];
    assert [a, b, c] + [NewDOT(e1)] == [a, b, c, NewDOT(e1)];
    assert [a, b, c, NewDOT(e1)] + [NewDOT(e2)] == Begun(e1, e2)[0];
  }

  lemma EarlyGrants(req: Request, e1: DOT, e2: DOT, d: DOT, k: Key)
    requires TwoWays(req, e1, e2, d)
    ensures GrantsBefore(Third(e1, e2, d), k, AT - LAG + 1) == if k == req.ns then [e1.hash, e2.hash] else []
  {
    var reg := Third(e1, e2, d);
    EmptyGrantsNothing(reg, k, 1, AT - LAG + 1);
    FirstGrants(req, e1, e2, d, k);
    assert reg[0] == Begun(e1, e2)[0] && GrantsBefore(reg, k, 0) == [];
  }

  /** Seven blocks later the third DOT can be seen. */
  function Grown(e1: DOT, e2: DOT, d: DOT): (r: Registry)
    ensures |r| == AT + 8
  {
    Third(e1, e2, d) + Empties(7)
  }

  lemma LateGrants(req: Request, e1: DOT, e2: DOT, d: DOT, k: Key)
    requires TwoWays(req, e1, e2, d)
    ensures GrantsBefore(Grown(e1, e2, d), k, AT + 7 - LAG + 1) ==
            if k == req.ns then [e1.hash, e2.hash] else if k == d.giver then [d.hash] else []
  {
    var reg := Grown(e1, e2, d);
    EmptyGrantsNothing(reg, k, AT + 1, AT + 7 - LAG + 1);
    EmptyGrantsNothing(reg, k, 1, AT);
    FirstGrants(req, e1, e2, d, k);
    assert reg[0] == Begun(e1, e2)[0] && GrantsBefore(reg, k, 0) == [];
    assert reg[AT] == [NewDOT(d)] && [NewDOT(d)][..0] == [];
    assert GrantsIn([NewDOT(d)][..0], k) == [];
  }

  /** The events of that log. */
  lemma GrownEvents(e1: DOT, e2: DOT, d: DOT, g: int, i: int, e: Event)
    requires EventAt(Grown(e1, e2, d), g, i, e)
    ensures e == NewEntity(e1.giver) || e == NewEntity(e1.receiver) || e == NewEntity(e2.receiver) ||
      (e == NewDOT(e1) && g == 0 && i == 3) || (e == NewDOT(e2) && g == 0 && i == 4) || (e == NewDOT(d) && g == AT && i == 0)
  {
    var reg := Grown(e1, e2, d);
    assert reg[AT] == [NewDOT(d)] && forall b :: 0 < b < |reg| && b != AT ==> reg[b] == [];
  }

  /** It could have been written by the contract. */
  lemma GrownLawful(req: Request, e1: DOT, e2: DOT, d: DOT)
    requires TwoWays(req, e1, e2, d)
    ensures Lawful(Grown(e1, e2, d))
  {
    var reg := Grown(e1, e2, d);
    assert EventAt(reg, 0, 0, NewEntity(e1.giver)) && EventAt(reg, 0, 1, NewEntity(e1.receiver)) && EventAt(reg, 0, 2, NewEntity(e2.receiver));
    forall g, i, x | EventAt(reg, g, i, NewDOT(x))
      ensures Happened(reg, g + 1, NewEntity(x.giver)) && Happened(reg, g + 1, NewEntity(x.receiver))
    {
      GrownEvents(e1, e2, d, g, i, NewDOT(x));
    }
    forall g, i, x, h, j, y | EventAt(reg, g, i, NewDOT(x)) && EventAt(reg, h, j, NewDOT(y)) && x.hash == y.hash
      ensures g == h && i == j
    {
      GrownEvents(e1, e2, d, g, i, NewDOT(x));
      GrownEvents(e1, e2, d, h, j, NewDOT(y));
    }
  }

  lemma NeverRevoked(e1: DOT, e2: DOT, d: DOT, reg: Registry, e: Event)
    requires reg <= Grown(e1, e2, d) && (e.EntityRevocation? || e.DOTRevocation?)
    ensures !Happened(reg, |reg|, e)
  {
    if Happened(reg, |reg|, e) {
      var g, i :| g < |reg| && EventAt(reg, g, i, e);
      GrownEvents(e1, e2, d, g, i, e);
    }
  }

  /** The first two DOTs and their keys are valid once the third is published. */
  lemma OldValid(req: Request, e1: DOT, e2: DOT, d: DOT, e: DOT)
    requires TwoWays(req, e1, e2, d) && (e == e1 || e == e2)
    ensures var reg := Third(e1, e2, d);
      DotState(reg, e) == Valid && EntityState(reg, e.giver) == Valid && EntityState(reg, e.receiver) == Valid
  {
    var reg := Third(e1, e2, d);
    assert reg <= Grown(e1, e2, d);
    LaggedStateIff(reg, NewDOT(e), DOTRevocation(e.hash));
    LaggedStateIff(reg, NewEntity(e.giver), EntityRevocation(e.giver));
    LaggedStateIff(reg, NewEntity(e.receiver), EntityRevocation(e.receiver));
    NeverRevoked(e1, e2, d, reg, DOTRevocation(e.hash));
    NeverRevoked(e1, e2, d, reg, EntityRevocation(e.giver));
    NeverRevoked(e1, e2, d, reg, EntityRevocation(e.receiver));
    assert EventAt(reg, 0, 0, NewEntity(e1.giver)) && EventAt(reg, 0, 1, NewEntity(e1.receiver)) && EventAt(reg, 0, 2, NewEntity(e2.receiver));
    assert EventAt(reg, 0, 3, NewDOT(e1)) && EventAt(reg, 0, 4, NewDOT(e2));
  }

  ghost predicate EntityOk(c: Cache, reg: Registry, vk: Key) {
    if vk in c.entities then c.entities[vk] == Valid else EntityState(reg, vk) == Valid
  }

  /** A lookup of a valid DOT, and what it leaves of the caches. */
  lemma ValidLookup(c: Cache, reg: Registry, d: DOT)
    requires d.hash !in c.dots && DotState(reg, d) == Valid && EntityOk(c, reg, d.giver) && EntityOk(c, reg, d.receiver)
    ensures var r := LookUpDot(c, reg, Clock({}, {}), d, false);
      && r.dots == c.dots[d.hash := (d, Valid)] && r.complete == c.complete && r.holdoff == c.holdoff && r.chains == c.chains
      && forall vk :: EntityOk(c, reg, vk) ==> EntityOk(r, reg, vk)
  {
    var t := Clock({}, {});
    LookUpDotAdds(c, reg, t, d, false);
    ReadDotAdds(c, reg, t, d);
    ValidRead(c, reg, d);
    Stored(ReadDot(c, reg, t, d).0, d, Valid, false);
  }

  lemma ValidRead(c: Cache, reg: Registry, d: DOT)
    requires DotState(reg, d) == Valid && EntityOk(c, reg, d.giver) && EntityOk(c, reg, d.receiver)
    ensures var (e, s) := ReadDot(c, reg, Clock({}, {}), d);
      s == Valid && e.dots == c.dots && forall vk :: EntityOk(c, reg, vk) ==> EntityOk(e, reg, vk)
  {
    OkRead(c, reg, d.giver);
    OkRead(ReadEntity(c, reg, Clock({}, {}), d.giver).0, reg, d.receiver);
  }

  lemma OkRead(c: Cache, reg: Registry, vk: Key)
    requires EntityOk(c, reg, vk)
    ensures var (e, s) := ReadEntity(c, reg, Clock({}, {}), vk);
      s == Valid && e.dots == c.dots && forall k :: EntityOk(c, reg, k) ==> EntityOk(e, reg, k)
  {
  }

  /** What has been read before the third DOT could be seen. */
  ghost predicate ReadEarly(req: Request, e1: DOT, e2: DOT, d: DOT, w: World) {
    && w.clock == Clock({}, {}) && w.lastblock == AT && w.pending == [] && (req.ns, AT) in w.replayed
    && w.cache.complete == map[req.ns := [e1.hash, e2.hash], d.giver := []] && w.listedAt == map[req.ns := AT, d.giver := AT]
    && w.cache.holdoff == map[req.ns := AT + HOLDOFF]
  }

  /** The lists have been read. */
  function Listed1(req: Request, e1: DOT, e2: DOT, d: DOT): (w: World) {
    var v := Flushed(e1, e2, d);
    v.(cache := v.cache.(complete := map[req.ns := [e1.hash, e2.hash]]), listedAt := map[req.ns := AT])
  }

  function Listed2(req: Request, e1: DOT, e2: DOT, d: DOT): (w: World) {
    var v := Listed1(req, e1, e2, d);
    v.(cache := v.cache.(complete := v.cache.complete[d.giver := []]), listedAt := v.listedAt[d.giver := AT])
  }

  lemma ListedReached(req: Request, e1: DOT, e2: DOT, d: DOT)
    requires TwoWays(req, e1, e2, d)
    ensures Leads(Start(Begun(e1, e2)), Listed2(req, e1, e2, d))
  {
    var w0, w1, w2 := Start(Begun(e1, e2)), Flushed(e1, e2, d), Listed1(req, e1, e2, d);
    FlushedReached(e1, e2, d);
    EarlyGrants(req, e1, e2, d, req.ns);
    GrantedTo(w0, w1, req.ns, [e1.hash, e2.hash], w2);
    EarlyGrants(req, e1, e2, d, d.giver);
    GrantedTo(w0, w2, d.giver, [], Listed2(req, e1, e2, d));
  }

  lemma ListedEarly(req: Request, e1: DOT, e2: DOT, d: DOT)
    requires TwoWays(req, e1, e2, d)
    ensures var w := Listed2(req, e1, e2, d);
      ReadEarly(req, e1, e2, d, w) && w.registry == Third(e1, e2, d) && w.cache.dots == map[] && w.cache.entities == map[]
  {
  }

  lemma GrantedTo(w0: World, w: World, vk: Key, list: seq<Hash>, n: World)
    requires Leads(w0, w) && vk !in w.cache.complete && list == GrantsBefore(w.registry, vk, Current(w) - LAG + 1)
    requires n == w.(cache := w.cache.(complete := w.cache.complete[vk := list]), listedAt := w.listedAt[vk := Current(w)])
    ensures Leads(w0, n)
  {
    NextTo(w0, w, LookupGranted(vk));
  }

  lemma DotsRead(req: Request, e1: DOT, e2: DOT, d: DOT) returns (w: World)
    requires TwoWays(req, e1, e2, d)
    ensures Leads(Start(Begun(e1, e2)), w) && ReadEarly(req, e1, e2, d, w) && w.registry == Grown(e1, e2, d)
    ensures w.cache.dots == map[e1.hash := (e1, Valid), e2.hash := (e2, Valid)]
  {
    var w0, reg := Start(Begun(e1, e2)), Third(e1, e2, d);
    var w1 := Listed2(req, e1, e2, d);
    ListedReached(req, e1, e2, d);
    ListedEarly(req, e1, e2, d);
    OldValid(req, e1, e2, d, e1);
    OldValid(req, e1, e2, d, e2);
    ValidLookup(w1.cache, reg, e1);
    var c := LookUpDot(w1.cache, reg, w1.clock, e1, false);
    var w2 := w1.(cache := c);
    LookupDotTo(w0, w1, e1, c, w2);
    ValidLookup(c, reg, e2);
    var c' := LookUpDot(c, reg, w2.clock, e2, false);
    var w3 := w2.(cache := c');
    LookupDotTo(w0, w2, e2, c', w3);
    w := w3.(registry := Grown(e1, e2, d));
    GrowBy(w0, w3, 7, w);
  }

  /** What the build reads seven blocks later. */
  function Early(req: Request, e1: DOT, e2: DOT, d: DOT): (b: Build) {
    Build(req, AT + 7, map[req.ns := [e1.hash, e2.hash], d.giver := []], map[req.ns := AT, d.giver := AT],
          map[e1.hash := Found(e1, Valid), e2.hash := Found(e2, Valid)])
  }

  lemma EarlyRead(req: Request, e1: DOT, e2: DOT, d: DOT, w: World)
    requires TwoWays(req, e1, e2, d) && ReadEarly(req, e1, e2, d, w) && w.registry == Grown(e1, e2, d)
    requires w.cache.dots == map[e1.hash := (e1, Valid), e2.hash := (e2, Valid)]
    ensures Listing(w, {req.ns, d.giver}) && ReadAll(w, req, {req.ns, d.giver}) == Early(req, e1, e2, d)
  {
    var b, e := ReadAll(w, req, {req.ns, d.giver}), Early(req, e1, e2, d);
    assert b.lists == e.lists && b.ages == e.ages;
    HashesOfTwo(req.ns, d.giver, e1.hash, e2.hash);
    assert b.dots == e.dots;
  }

  lemma HashesOfTwo(k: Key, m: Key, x: Hash, y: Hash)
    requires k != m
    ensures HashesIn(map[k := [x, y], m := []]) == {x, y}
  {
    var lists: map<Key, seq<Hash>> := map[k := [x, y], m := []];
    InHashes(lists, k, x);
    InHashes(lists, k, y);
  }

  lemma OptionOf(req: Request, snap: Snapshot, k: Key, d: DOT)
    requires Complete(snap) && (forall h :: h in snap.dots && snap.dots[h].Found? ==> snap.dots[h].dot.hash == h)
    ensures d in GetOptions(req, snap, k) <==>
      k in snap.grants && d.hash in snap.grants[k] && d.hash in snap.dots && snap.dots[d.hash] == Found(d, Valid) && DotUseful(req, d)
  {
    OptionsIff(req, snap, k, d);
    if k in snap.grants {
      LinkedIff(snap, k, d);
    }
  }

  lemma EarlyClosed(req: Request, e1: DOT, e2: DOT, d: DOT)
    requires TwoWays(req, e1, e2, d)
    ensures Closed(req, Seen(Early(req, e1, e2, d)), {req.ns, d.giver})
  {
    var snap := Seen(Early(req, e1, e2, d));
    forall k, x | k in {req.ns, d.giver} && x in GetOptions(req, snap, k) ensures IsTarget(req, x.receiver) || x.receiver in {req.ns, d.giver} {
      OptionOf(req, snap, k, x);
    }
  }

  /** From there it finds the first way. */
  lemma EarlyFinds(req: Request, e1: DOT, e2: DOT, d: DOT)
    requires TwoWays(req, e1, e2, d) && DotUseful(req, e1)
    ensures [e1] in BuildChains(req, Seen(Early(req, e1, e2, d)), req.ns)
  {
    var snap := Seen(Early(req, e1, e2, d));
    OptionOf(req, snap, req.ns, e1);
    BuildExact(req, snap, req.ns, [e1]);
  }

  /** And not the second. */
  lemma EarlyMisses(req: Request, e1: DOT, e2: DOT, d: DOT)
    requires TwoWays(req, e1, e2, d)
    ensures [e2, d] !in BuildChains(req, Seen(Early(req, e1, e2, d)), req.ns)
  {
    var snap, c := Seen(Early(req, e1, e2, d)), [e2, d];
    OptionOf(req, snap, d.giver, d);
    BuildExact(req, snap, req.ns, c);
    assert c[1] == d && c[0] == e2;
  }

  lemma EarlyBuilds(req: Request, ck: CacheKey, e1: DOT, e2: DOT, d: DOT, w: World, ans: seq<Chain>)
    requires TwoWays(req, e1, e2, d) && Asks(ck, req) && ReadEarly(req, e1, e2, d, w) && w.registry == Grown(e1, e2, d)
    requires w.cache.dots == map[e1.hash := (e1, Valid), e2.hash := (e2, Valid)]
    requires ans == BuildChains(req, Seen(Early(req, e1, e2, d)), req.ns)
    ensures Builds(w, ck, req, {req.ns, d.giver}, ans)
  {
    EarlyRead(req, e1, e2, d, w);
    EarlyClosed(req, e1, e2, d);
    HashesOfTwo(req.ns, d.giver, e1.hash, e2.hash);
  }

  /** The registry as it is by then. */
  function Whole(req: Request, e1: DOT, e2: DOT, d: DOT): (snap: Snapshot) {
    Snapshot(map[req.ns := [e1.hash, e2.hash], d.giver := [d.hash]],
             map[e1.hash := Found(e1, Valid), e2.hash := Found(e2, Valid), d.hash := Found(d, Valid)])
  }

  lemma WholeSearch(req: Request, e1: DOT, e2: DOT, d: DOT)
    requires TwoWays(req, e1, e2, d) && BothGrant(req, e1, e2, d)
    ensures [e2, d] in BuildChains(req, Whole(req, e1, e2, d), req.ns)
  {
    var snap := Whole(req, e1, e2, d);
    OptionOf(req, snap, req.ns, e2);
    OptionOf(req, snap, d.giver, d);
    TwoSteps(req, snap, req.ns, e2, d);
    BuildExact(req, snap, req.ns, [e2, d]);
  }

  lemma TwoSteps(req: Request, snap: Snapshot, start: Key, x: DOT, y: DOT)
    requires x in GetOptions(req, snap, start) && y in GetOptions(req, snap, x.receiver) && x.ttl >= 1
    requires !IsTarget(req, x.receiver) && IsTarget(req, y.receiver) && FoldSuffix([x, y]).Some?
    ensures Granting(req, snap, start, [x, y])
  {
    var c := [x, y];
    assert c[0] == x && c[1] == y;
  }

  lemma WholeSeen(req: Request, e1: DOT, e2: DOT, d: DOT, w: World)
    requires TwoWays(req, e1, e2, d) && w.registry == Grown(e1, e2, d) && w.clock == Clock({}, {})
    ensures Sees(w, Whole(req, e1, e2, d))
  {
    var snap, reg := Whole(req, e1, e2, d), Grown(e1, e2, d);
    LateGrants(req, e1, e2, d, req.ns);
    LateGrants(req, e1, e2, d, d.giver);
    assert EventAt(reg, 0, 3, NewDOT(e1)) && EventAt(reg, 0, 4, NewDOT(e2)) && EventAt(reg, AT, 0, NewDOT(d));
    forall x | x == e1 || x == e2 || x == d ensures !Spoiled(reg, w.clock, x) {
      NeverRevoked(e1, e2, d, reg, DOTRevocation(x.hash));
      NeverRevoked(e1, e2, d, reg, EntityRevocation(x.giver));
      NeverRevoked(e1, e2, d, reg, EntityRevocation(x.receiver));
    }
  }

  /**
   * The holdoff does not help a build that reads old lists. Before a new DOT can be seen its flushes are carried out and
   * the lists are read; once the holdoff is over the chain with it could be found, but the build caches the other alone.
   */
  lemma HoldoffMissed(req: Request, ck: CacheKey, e1: DOT, e2: DOT, d: DOT)
    returns (steps: seq<Step>, w: World, ans: seq<Chain>)
    requires TwoWays(req, e1, e2, d) && BothGrant(req, e1, e2, d) && Asks(ck, req)
    ensures w == Run(Start(Begun(e1, e2)), steps, false) && Lawful(w.registry) && w.pending == []
    ensures EventAt(w.registry, AT, 0, NewDOT(d)) && (req.ns, AT) in w.replayed
    ensures Lookup(w.cache, ck) == Some(ans) && [e1] in ans && [e2, d] !in ans
    ensures Sees(w, Whole(req, e1, e2, d)) && [e2, d] in BuildChains(req, Whole(req, e1, e2, d), req.ns)
  {
    var v := DotsRead(req, e1, e2, d);
    ans := BuildChains(req, Seen(Early(req, e1, e2, d)), req.ns);
    EarlyBuilds(req, ck, e1, e2, d, v, ans);
    EarlyFinds(req, e1, e2, d);
    EarlyMisses(req, e1, e2, d);
    w := BuildTo(Start(Begun(e1, e2)), v, ck, req, {req.ns, d.giver}, ans);
    steps := LeadsRuns(Start(Begun(e1, e2)), w);
    GrownLawful(req, e1, e2, d);
    WholeSearch(req, e1, e2, d);
    WholeSeen(req, e1, e2, d, w);
    assert v.registry[AT] == [NewDOT(d)];
  }

  lemma BuildTo(w0: World, w: World, ck: CacheKey, req: Request, keys: set<Key>, chains: seq<Chain>) returns (n: World)
    requires Leads(w0, w) && Builds(w, ck, req, keys, chains) && Stores(w.cache, ck, chains, Current(w))
    ensures Leads(w0, n) && Lookup(n.cache, ck) == Some(chains)
    ensures n.registry == w.registry && n.clock == w.clock && n.pending == w.pending && n.replayed == w.replayed
  {
    var st := BuildFor(ck, req, keys, chains);
    NextTo(w0, w, st);
    n := Next(w, st, false);
    LookupAfterBuild(w.cache, ck, chains, Current(w), ck);
  }

  // ---- a revocation that is missed ----

  /** Giver, receiver and DOT in the first block, and as many empty blocks as a replay goes back. */
  function Published(d: DOT): (r: Registry) {
    [[NewEntity(d.giver), NewEntity(d.receiver), NewDOT(d)]] + Empties(REPLAY)
  }

  lemma FirstBlock(d: DOT)
    ensures BlockFlushes([NewEntity(d.giver), NewEntity(d.receiver), NewDOT(d)], 0) ==
      [OfEntity(d.giver), OfEntity(d.receiver), OfGranted(d.giver), OfChains(d.ns, 0), OfDot(d.hash)]
  {
    var a, b, c := NewEntity(d.giver), NewEntity(d.receiver), NewDOT(d);
    assert [a, b, c][..2] == [a, b] && [a, b][..1] == [a] && [a][..0] == [];
    assert BlockFlushes([a], 0) == BlockFlushes([], 0) + FlushesOf(a, 0);
    assert BlockFlushes([a, b], 0) == BlockFlushes([a], 0) + FlushesOf(b, 0);
  }

  /** The first check after the start replays the first block, and the next one does not. */
  lemma FirstCheck(d: DOT)
    ensures ReplayOf(Published(d) + [[]], REPLAY - REPLAY, REPLAY + 2) ==
      [OfEntity(d.giver), OfEntity(d.receiver), OfGranted(d.giver), OfChains(d.ns, 0), OfDot(d.hash)]
  {
    var reg := Published(d) + [[]];
    NoFlushes(reg, 0, 1, REPLAY + 2);
    FirstBlock(d);
    assert ReplayOf(reg, 0, 1) == ReplayOf(reg, 0, 0) + BlockFlushes(reg[0], 0);
  }

  lemma SecondCheck(d: DOT, e: Event)
    requires e == EntityRevocation(d.receiver)
    ensures ReplayOf(Published(d) + [[]] + [[e]], REPLAY + 1 - REPLAY, REPLAY + 3) == [OfEntity(d.receiver)]
  {
    var reg := Published(d) + [[]] + [[e]];
    NoFlushes(reg, 1, 1, REPLAY + 2);
    NothingBefore(reg, 1, 1);
    assert reg[REPLAY + 2] == [e] && [e][..0] == [];
    assert BlockFlushes([e], REPLAY + 2) == BlockFlushes([], REPLAY + 2) + FlushesOf(e, REPLAY + 2);
  }

  /** Nothing has been revoked, and all is old enough. */
  lemma AllValid(d: DOT)
    ensures var reg := Published(d) + [[]];
      DotState(reg, d) == Valid && EntityState(reg, d.giver) == Valid && EntityState(reg, d.receiver) == Valid
  {
    var reg := Published(d) + [[]];
    LaggedStateIff(reg, NewDOT(d), DOTRevocation(d.hash));
    LaggedStateIff(reg, NewEntity(d.giver), EntityRevocation(d.giver));
    LaggedStateIff(reg, NewEntity(d.receiver), EntityRevocation(d.receiver));
    assert EventAt(reg, 0, 0, NewEntity(d.giver)) && EventAt(reg, 0, 1, NewEntity(d.receiver)) && EventAt(reg, 0, 2, NewDOT(d));
    assert forall g :: 0 < g < |reg| ==> |reg[g]| == 0;
    assert forall g, i :: 0 <= g < |reg| && 0 <= i < |reg[g]| ==> !reg[g][i].EntityRevocation? && !reg[g][i].DOTRevocation?;
  }

  function Cached(d: DOT): (c: Cache) {
    EMPTY.(entities := map[d.giver := Valid, d.receiver := Valid], dots := map[d.hash := (d, Valid)],
           from := map[d.giver := [d.hash]], to := map[d.receiver := [d.hash]])
  }

  lemma FirstLookup(d: DOT)
    requires d.giver != d.receiver
    ensures LookUpDot(EMPTY, Published(d) + [[]], Clock({}, {}), d, false) == Cached(d)
  {
    AllValid(d);
    var e := EMPTY.(entities := map[d.giver := Valid]);
    assert CacheEntity(EMPTY, d.giver, Valid) == e;
    assert CacheEntity(e, d.receiver, Valid) == EMPTY.(entities := map[d.giver := Valid, d.receiver := Valid]);
    assert [] + [d.hash] == [d.hash];
  }

  /** Its receiver flushed, the DOT is listed under its giver alone. */
  function HalfListed(d: DOT): (c: Cache) {
    EMPTY.(entities := map[d.giver := Valid], from := map[d.giver := [d.hash]])
  }

  lemma ReceiverFlushed(d: DOT)
    requires d.giver != d.receiver
    ensures FlushEntity(Cached(d), d.receiver) == HalfListed(d)
  {
    assert Members([d.hash]) == {d.hash};
  }

  lemma SecondLookup(d: DOT, held: map<Key, nat>)
    requires d.giver != d.receiver
    ensures var c := HalfListed(d).(holdoff := held);
      LookUpDot(c, Published(d) + [[]], Clock({}, {}), d, false) ==
      c.(entities := map[d.giver := Valid, d.receiver := Valid], dots := map[d.hash := (d, Valid)])
  {
    AllValid(d);
    var c := HalfListed(d).(holdoff := held);
    assert CacheEntity(c, d.receiver, Valid) == c.(entities := map[d.giver := Valid, d.receiver := Valid]);
    assert d.hash in At(c.from, d.giver);
  }

  lemma SecondFlush(d: DOT, held: map<Key, nat>)
    requires d.giver != d.receiver
    ensures var c := HalfListed(d).(entities := map[d.giver := Valid, d.receiver := Valid], dots := map[d.hash := (d, Valid)], holdoff := held);
      ValidDot(FlushEntity(c, d.receiver), d.hash)
  {
  }

  /** The first check is under way, and has replayed the giver's publication. */
  function Started(d: DOT): (w: World) {
    Start(Published(d)).(registry := Published(d) + [[]], lastblock := REPLAY + 1,
      pending := [OfEntity(d.receiver), OfGranted(d.giver), OfChains(d.ns, 0), OfDot(d.hash)])
  }

  lemma StartedReached(d: DOT)
    ensures Leads(Start(Published(d)), Started(d))
  {
    var w0, rest := Start(Published(d)), Started(d).pending;
    Nowhere(w0);
    var w1 := w0.(registry := Published(d) + [[]]);
    GrowTo(w0, w0, [], w1);
    FirstCheck(d);
    var w2 := w1.(lastblock := REPLAY + 1, pending := [OfEntity(d.giver)] + rest);
    CheckTo(w0, w1, [OfEntity(d.giver)] + rest, w2);
    assert FlushEntity(EMPTY, d.giver) == EMPTY;
    ReplayTo(w0, w2, OfEntity(d.giver), rest, EMPTY, Started(d));
  }

  /** The DOT has been looked up, and the receiver's publication replayed. */
  function LookedUpOnce(d: DOT): (w: World) {
    Started(d).(cache := HalfListed(d), pending := [OfGranted(d.giver), OfChains(d.ns, 0), OfDot(d.hash)])
  }

  lemma CachedReached(d: DOT)
    requires d.giver != d.receiver
    ensures Leads(Start(Published(d)), Started(d).(cache := Cached(d)))
  {
    StartedReached(d);
    FirstLookup(d);
    LookupDotTo(Start(Published(d)), Started(d), d, Cached(d), Started(d).(cache := Cached(d)));
  }

  lemma LookedUpReached(d: DOT)
    requires d.giver != d.receiver
    ensures Leads(Start(Published(d)), LookedUpOnce(d))
  {
    var w0, w1, rest := Start(Published(d)), Started(d).(cache := Cached(d)), LookedUpOnce(d).pending;
    CachedReached(d);
    ReceiverFlushed(d);
    assert w1.pending == [OfEntity(d.receiver)] + rest;
    ReplayTo(w0, w1, OfEntity(d.receiver), rest, HalfListed(d), LookedUpOnce(d));
  }

  /** The rest of the check has been carried out. */
  function FirstOver(d: DOT): (w: World) {
    Started(d).(pending := [], cache := HalfListed(d).(holdoff := map[d.ns := REPLAY + 1 + HOLDOFF]), replayed := {(d.ns, 0)})
  }

  lemma FirstOverReached(d: DOT)
    requires d.giver != d.receiver
    ensures Leads(Start(Published(d)), FirstOver(d))
  {
    var w0, c, w2 := Start(Published(d)), HalfListed(d), LookedUpOnce(d);
    LookedUpReached(d);
    var more, last := [OfChains(d.ns, 0), OfDot(d.hash)], [OfDot(d.hash)];
    assert FlushGranted(c, d.giver) == c;
    var w3 := w2.(pending := more);
    ReplayTo(w0, w2, OfGranted(d.giver), more, c, w3);
    var held := c.(holdoff := map[d.ns := REPLAY + 1 + HOLDOFF]);
    assert FlushChains(c, d.ns, REPLAY + 1) == held;
    var w4 := w3.(cache := held, pending := last, replayed := {(d.ns, 0)});
    ReplayTo(w0, w3, OfChains(d.ns, 0), last, held, w4);
    assert FlushDot(held, d.hash) == held && last == [OfDot(d.hash)] + [];
    ReplayTo(w0, w4, OfDot(d.hash), [], held, FirstOver(d));
  }

  /** The DOT has been looked up again. */
  function LookedUpTwice(d: DOT): (w: World) {
    var c := HalfListed(d).(entities := map[d.giver := Valid, d.receiver := Valid], dots := map[d.hash := (d, Valid)],
                            holdoff := map[d.ns := REPLAY + 1 + HOLDOFF]);
    FirstOver(d).(cache := c)
  }

  lemma LookedUpTwiceReached(d: DOT)
    requires d.giver != d.receiver
    ensures Leads(Start(Published(d)), LookedUpTwice(d))
  {
    FirstOverReached(d);
    SecondLookup(d, map[d.ns := REPLAY + 1 + HOLDOFF]);
    LookupDotTo(Start(Published(d)), FirstOver(d), d, LookedUpTwice(d).cache, LookedUpTwice(d));
  }

  /** The receiver is revoked, and the next check under way. */
  lemma RevocationChecked(w0: World, w: World, d: DOT, n: World)
    requires Leads(w0, w) && w.registry == Published(d) + [[]] && w.lastblock == REPLAY + 1 && w.pending == []
    requires n == w.(registry := w.registry + [[EntityRevocation(d.receiver)]], lastblock := REPLAY + 2, pending := [OfEntity(d.receiver)])
    ensures Leads(w0, n)
  {
    var e := EntityRevocation(d.receiver);
    var v := w.(registry := w.registry + [[e]]);
    GrowTo(w0, w, [e], v);
    SecondCheck(d, e);
    CheckTo(w0, v, [OfEntity(d.receiver)], n);
  }

  /**
   * A DOT looked up between the replayed publications of its giver and of its receiver, and again after that, is no
   * longer listed under its receiver. Revoked in the next block and replayed, the receiver leaves it cached as valid.
   */
  lemma RevokedReceiverMissed(d: DOT) returns (steps: seq<Step>, w: World)
    requires d.giver != d.receiver
    ensures w == Run(Start(Published(d)), steps, false) && Lawful(w.registry) && w.pending == [] && w.lastblock == REPLAY + 2
    ensures EventAt(w.registry, w.lastblock, 0, EntityRevocation(d.receiver))
    ensures ValidDot(w.cache, d.hash) && w.cache.dots[d.hash].0 == d
  {
    var w2, e := LookedUpTwice(d), EntityRevocation(d.receiver);
    LookedUpTwiceReached(d);
    var w3 := w2.(registry := w2.registry + [[e]], lastblock := REPLAY + 2, pending := [OfEntity(d.receiver)]);
    RevocationChecked(Start(Published(d)), w2, d, w3);
    var c := FlushEntity(w3.cache, d.receiver);
    assert w3.pending == [OfEntity(d.receiver)] + [];
    w := w3.(cache := c, pending := []);
    ReplayTo(Start(Published(d)), w3, OfEntity(d.receiver), [], c, w);
    steps := LeadsRuns(Start(Published(d)), w);
    SecondFlush(d, map[d.ns := REPLAY + 1 + HOLDOFF]);
    RevokedLawful(d, w.registry);
    assert w.registry[REPLAY + 2] == [e];
  }

  lemma RevokedLawful(d: DOT, reg: Registry)
    requires reg == Published(d) + [[]] + [[EntityRevocation(d.receiver)]]
    ensures Lawful(reg)
  {
    assert EventAt(reg, 0, 0, NewEntity(d.giver)) && EventAt(reg, 0, 1, NewEntity(d.receiver));
    forall g, i, e | EventAt(reg, g, i, NewDOT(e)) ensures g == 0 && i == 2 && e == d {
      assert forall b :: 0 < b < |reg| - 1 ==> reg[b] == [];
    }
  }
}
