/**
 * The caches over whole runs. The registry grows block by block, time passes, lookups fill the caches, and a check of
 * the chain replays the events of recent blocks as flushes. Every section that holds the lock is one step, so the
 * steps of a replay interleave with everything else; a read of the registry and the store of what was read are one
 * step, and so is a build, whose reads go through the cached lists of grants.
 */
module Staleness {
  import opened Options
  import opened Delegation
  import opened ChainBuilder
  import opened CacheAgreement
  import opened RegistryLog
  import opened Resolution
  import opened Indexes
  import opened Lookups

  // ---- worlds and steps ----

  /** For the record: what was asked and when, the lists of grants read, the blocks these were read at, and the DOTs on them. */
  datatype Build = Build(req: Request, block: nat, lists: map<Key, seq<Hash>>, ages: map<Key, nat>, dots: map<Hash, Link>)

  /**
   * The registry, the clock, the caches, the block of the last check and the flushes it has still to carry out. For
   * the record: the block at which each list of grants was read, how each list of chains was built, and the DOTs whose
   * flush has been carried out since the caches were last dropped.
   */
  datatype World = World(
    registry: Registry, clock: Clock, cache: Cache, lastblock: nat, pending: seq<Flush>,
    listedAt: map<Key, nat>, builds: map<CacheKey, Build>, replayed: set<(Key, nat)>)

  datatype Step =
    | Grow(events: seq<Event>)
    | Check
    | Replay
    | Drop
    | LookupEntity(vk: Key)
    | LookupDot(d: DOT)
    | LookupGranted(vk: Key)
    | BuildFor(ck: CacheKey, req: Request, keys: set<Key>, chains: seq<Chain>)
    | Pass(clock: Clock)
    | FlushExpired(vk: Key)
    | FlushLapsed(h: Hash)

  function Current(w: World): (b: int) {
    |w.registry| - 1
  }

  predicate Running(w: World) {
    w.registry != [] && w.lastblock <= Current(w)
  }

  function CarryOut(w: World, f: Flush): (r: World)
    requires w.registry != []
  {
    w.(cache := ApplyFlush(w.cache, f, Current(w)), replayed := if f.OfChains? then w.replayed + {(f.ns, f.block)} else w.replayed)
  }

  function HashesIn(lists: map<Key, seq<Hash>>): (r: set<Hash>) {
    set k, h | k in lists && h in lists[k] :: h
  }

  function LinkIn(c: Cache, h: Hash): (l: Link) {
    if h in c.dots then Found(c.dots[h].0, c.dots[h].1) else Absent(Unknown)
  }

  predicate Listing(w: World, keys: set<Key>) {
    keys <= w.cache.complete.Keys && keys <= w.listedAt.Keys
  }

  /** What a build reads of these keys. */
  function ReadAll(w: World, req: Request, keys: set<Key>): (b: Build)
    requires w.registry != [] && Listing(w, keys)
  {
    var lists := map k | k in keys :: w.cache.complete[k];
    Build(req, Current(w), lists, map k | k in keys :: w.listedAt[k], map h | h in HashesIn(lists) :: LinkIn(w.cache, h))
  }

  /** The registry as the build saw it. */
  function Seen(b: Build): (snap: Snapshot) {
    Snapshot(b.lists, b.dots)
  }

  /** Looked up now, the DOT is unknown, which is not cached. */
  ghost predicate Unreadable(w: World, h: Hash) {
    forall g, i, d :: EventAt(w.registry, g, i, NewDOT(d)) && d.hash == h ==> ReadDot(w.cache, w.registry, w.clock, d).1 == Unknown
  }

  /** Every DOT listed has been looked up. */
  ghost predicate LookedUp(w: World, lists: map<Key, seq<Hash>>) {
    forall h :: h in HashesIn(lists) && h !in w.cache.dots ==> Unreadable(w, h)
  }

  /**
   * A build can find these chains. The lists of all the keys it asks for and the DOTs on them are cached by then: a
   * lookup of each comes first.
   */
  ghost predicate Builds(w: World, ck: CacheKey, req: Request, keys: set<Key>, chains: seq<Chain>) {
    && w.registry != [] && Asks(ck, req) && Listing(w, keys)
    && var b := ReadAll(w, req, keys);
      LookedUp(w, b.lists) && req.ns in keys && Closed(req, Seen(b), keys) && chains == BuildChains(req, Seen(b), ck.ns)
  }

  /** What a step does; with `both` set, DOTs are indexed with each list looked at on its own. */
  ghost function After(w: World, st: Step, both: bool): (r: World)
    requires Running(w)
    ensures Running(r)
  {
    match st
    case Grow(events) => w.(registry := w.registry + [events])
    case Check =>
      if w.pending != [] || w.lastblock == Current(w) then w
      else w.(lastblock := Current(w), pending := ReplayOf(w.registry, w.lastblock - REPLAY, Current(w) + 1))
    case Replay =>
      if w.pending == [] then w else CarryOut(w, w.pending[0]).(pending := w.pending[1..])
    case Drop => w.(cache := EMPTY, replayed := {})
    case LookupEntity(vk) => w.(cache := ReadEntity(w.cache, w.registry, w.clock, vk).0)
    case LookupDot(d) => w.(cache := LookUpDot(w.cache, w.registry, w.clock, d, both))
    case LookupGranted(vk) =>
      if vk in w.cache.complete then w
      else w.(cache := CacheGranted(w.cache, vk, GrantsBefore(w.registry, vk, Current(w) - LAG + 1)),
              listedAt := w.listedAt[vk := Current(w)])
    case BuildFor(ck, req, keys, chains) =>
      if !Listing(w, keys) then w
      else w.(cache := CacheChains(w.cache, ck, chains, Current(w)),
              builds := if Stores(w.cache, ck, chains, Current(w)) then w.builds[ck := ReadAll(w, req, keys)] else w.builds)
    case Pass(clock) => if w.clock.keys <= clock.keys && w.clock.dots <= clock.dots then w.(clock := clock) else w
    case FlushExpired(vk) => if vk in w.clock.keys then w.(cache := FlushEntity(w.cache, vk)) else w
    case FlushLapsed(h) => if h in w.clock.dots then w.(cache := FlushDot(w.cache, h)) else w
  }

  /** A step that can be taken. */
  ghost predicate Possible(w: World, st: Step) {
    st.BuildFor? ==> Builds(w, st.ck, st.req, st.keys, st.chains)
  }

  ghost function Next(w: World, st: Step, both: bool): (r: World)
    requires Running(w)
    ensures Running(r)
  {
    if Possible(w, st) then After(w, st, both) else w
  }

  // ---- what every step keeps ----

  ghost predicate BlocksKnown(w: World) {
    forall f :: f in w.pending && f.OfChains? ==> f.block <= Current(w)
  }

  /** The list of a key's grants is what the registry had some blocks before it was read. */
  ghost predicate Listed(w: World, k: Key)
    requires k in w.cache.complete
  {
    && k in w.listedAt && w.listedAt[k] <= Current(w)
    && w.cache.complete[k] == GrantsBefore(w.registry, k, w.listedAt[k] - LAG + 1)
  }

  ghost predicate ListsExact(w: World) {
    forall k :: k in w.cache.complete ==> Listed(w, k)
  }

  /** The chains are what a search finds in what the build saw. */
  ghost predicate BuiltFrom(ck: CacheKey, b: Build, chains: seq<Chain>) {
    Asks(ck, b.req) && b.req.ns in b.lists && Closed(b.req, Seen(b), b.lists.Keys) && chains == BuildChains(b.req, Seen(b), ck.ns)
  }

  ghost predicate ChainsBuilt(w: World) {
    forall ck :: Lookup(w.cache, ck).Some? ==> ck in w.builds && BuiltFrom(ck, w.builds[ck], Lookup(w.cache, ck).value)
  }

  /** Lists of grants miss none made LAG blocks before the last check, unless both its flushes are still to come. */
  ghost predicate GrantsFresh(w: World) {
    forall g, i, d :: EventAt(w.registry, g, i, NewDOT(d)) && d.giver in w.cache.complete && g <= w.lastblock - LAG ==>
      ListedSince(w.listedAt, d.giver, g) || Awaits(w.pending, d.giver, d.ns, g)
  }

  /** The list of a key was read where what block g holds could be seen. */
  predicate ListedSince(ages: map<Key, nat>, k: Key, g: int) {
    k in ages && g + LAG <= ages[k]
  }

  /** The record of a build is what was read. */
  ghost predicate Recorded(w: World, b: Build) {
    && b.block <= Current(w) && b.ages.Keys == b.lists.Keys
    && (forall k :: k in b.lists ==>
          k in b.ages && b.ages[k] <= b.block && b.lists[k] == GrantsBefore(w.registry, k, b.ages[k] - LAG + 1))
  }

  ghost predicate BuildsExact(w: World) {
    forall ck :: ck in w.builds ==> Recorded(w, w.builds[ck])
  }

  /** The list the chains of ck were built from was read late enough to have the DOT, or it is still to be flushed. */
  ghost predicate FreshOf(w: World, ck: CacheKey, g: nat, d: DOT) {
    ck in w.builds && (d.giver in w.builds[ck].lists ==>
      ListedSince(w.builds[ck].ages, d.giver, g) || OfChains(d.ns, g) in w.pending)
  }

  /** The lists cached chains were built from miss no DOT on their namespace of that age, unless its flush is to come. */
  ghost predicate ChainsFresh(w: World) {
    forall ck, g, i, d ::
      (Lookup(w.cache, ck).Some? && EventAt(w.registry, g, i, NewDOT(d)) && d.ns == ck.ns && g <= w.lastblock - LAG) ==>
      FreshOf(w, ck, g, d)
  }

  /** A namespace is held off until each of its replayed DOTs can be seen. */
  ghost predicate HoldoffCovers(w: World) {
    forall p :: p in w.replayed ==> Covered(w, p)
  }

  ghost predicate Covered(w: World, p: (Key, nat)) {
    p.1 <= Current(w) && ((p.0 in w.cache.holdoff && p.1 + HOLDOFF <= w.cache.holdoff[p.0]) || p.1 + HOLDOFF < Current(w))
  }

  /** Cached chains were built after the holdoff of every DOT on their namespace replayed so far. */
  ghost predicate ReplayedBefore(w: World) {
    forall ck, g :: Lookup(w.cache, ck).Some? && (ck.ns, g) in w.replayed ==>
      ck in w.builds && g + HOLDOFF < w.builds[ck].block
  }

  ghost predicate Concerns(d: DOT, vk: Key, both: bool) {
    d.giver == vk || (both && d.receiver == vk)
  }

  /** No entity cached as valid has been revoked by the last check, unless its flush is still to come. */
  ghost predicate EntitiesFresh(w: World) {
    forall g, i, vk :: EventAt(w.registry, g, i, EntityRevocation(vk)) && g <= w.lastblock && IsValid(w.cache.entities, vk) ==>
      OfEntity(vk) in w.pending
  }

  /** The same of DOTs, and of the keys they are from and to. */
  ghost predicate DotsFresh(w: World, both: bool) {
    && (forall g, i, h :: EventAt(w.registry, g, i, DOTRevocation(h)) && g <= w.lastblock && ValidDot(w.cache, h) ==>
          OfDot(h) in w.pending)
    && (forall g, i, vk, h ::
          (EventAt(w.registry, g, i, EntityRevocation(vk)) && g <= w.lastblock && ValidDot(w.cache, h) &&
           Concerns(w.cache.dots[h].0, vk, both)) ==>
          OfEntity(vk) in w.pending)
  }

  predicate ValidDot(c: Cache, h: Hash) {
    h in c.dots && c.dots[h].1 == Valid
  }

  ghost predicate Answers(c: Cache) {
    HeldOff(c) && NoEmptyAnswer(c)
  }

  // ---- steps as seen from the log ----

  ghost predicate Checks(w: World, n: World) {
    && w.pending == [] && n.registry == w.registry && n.lastblock == Current(w) && n.cache == w.cache
    && n.pending == ReplayOf(w.registry, w.lastblock - REPLAY, Current(w) + 1)
  }

  ghost predicate Replays(w: World, n: World) {
    w.pending != [] && n.registry == w.registry && n.lastblock == w.lastblock && n.pending == w.pending[1..]
  }

  ghost predicate Elsewhere(w: World, n: World) {
    w.registry <= n.registry && n.lastblock == w.lastblock && n.pending == w.pending
  }

  lemma Kinds(w: World, st: Step, both: bool)
    requires Running(w)
    ensures var n := After(w, st, both); Checks(w, n) || Replays(w, n) || Elsewhere(w, n)
    ensures var n := After(w, st, both); Replays(w, n) ==> st.Replay?
  {
  }

  lemma StillPending(pending: seq<Flush>, f: Flush)
    requires f in pending && pending[0] != f
    ensures f in pending[1..]
  {
  }

  lemma DueOnCheck(w: World, n: World, g: int, i: int, e: Event, f: Flush)
    requires Running(w) && Checks(w, n) && w.lastblock - REPLAY < g
    requires EventAt(n.registry, g, i, e) && f in FlushesOf(e, g)
    ensures f in n.pending
  {
    ReplayAll(w.registry, w.lastblock - REPLAY, Current(w) + 1, g, i, f);
  }

  lemma DueLater(w: World, n: World, f: Flush)
    requires f in w.pending && (Replays(w, n) || Elsewhere(w, n))
    ensures f in n.pending || (Replays(w, n) && w.pending[0] == f)
  {
    if w.pending[0] != f {
      StillPending(w.pending, f);
    }
  }

  /** An event old enough is dealt with, or its flush is pending, or its flush is the one carried out now. */
  lemma Due(w: World, n: World, g: int, i: int, e: Event, f: Flush, margin: nat, done: bool)
    requires Running(w) && margin <= REPLAY
    requires Checks(w, n) || Replays(w, n) || Elsewhere(w, n)
    requires EventAt(n.registry, g, i, e) && f in FlushesOf(e, g) && g <= n.lastblock - margin
    requires EventAt(w.registry, g, i, e) && g <= w.lastblock - margin ==> done || f in w.pending
    ensures done || f in n.pending || (Replays(w, n) && w.pending[0] == f)
  {
    if Checks(w, n) {
      if w.lastblock - margin < g {
        DueOnCheck(w, n, g, i, e, f);
      }
    } else {
      assert EventAt(w.registry, g, i, e);
      if f in w.pending {
        DueLater(w, n, f);
      }
    }
  }

  lemma StillAwaits(pending: seq<Flush>, vk: Key, ns: Key, g: nat)
    requires Awaits(pending, vk, ns, g) && pending[0] != OfGranted(vk)
    ensures Awaits(pending[1..], vk, ns, g)
  {
    var p :| 0 <= p < |pending| - 1 && pending[p] == OfGranted(vk) && pending[p + 1] == OfChains(ns, g);
    assert pending[1..][p - 1] == pending[p] && pending[1..][p] == pending[p + 1];
  }

  /** The same for the two flushes of a new DOT that come one after the other. */
  lemma DueTogether(w: World, n: World, g: int, i: int, d: DOT, done: bool)
    requires Running(w) && (Checks(w, n) || Replays(w, n) || Elsewhere(w, n))
    requires EventAt(n.registry, g, i, NewDOT(d)) && g <= n.lastblock - LAG
    requires EventAt(w.registry, g, i, NewDOT(d)) && g <= w.lastblock - LAG ==> done || Awaits(w.pending, d.giver, d.ns, g)
    ensures done || Awaits(n.pending, d.giver, d.ns, g) || (Replays(w, n) && w.pending[0] == OfGranted(d.giver))
  {
    if Checks(w, n) {
      if w.lastblock - LAG < g {
        ReplayAwaits(w.registry, w.lastblock - REPLAY, Current(w) + 1, g, i);
      }
    } else {
      assert EventAt(w.registry, g, i, NewDOT(d));
      if Replays(w, n) && Awaits(w.pending, d.giver, d.ns, g) && w.pending[0] != OfGranted(d.giver) {
        StillAwaits(w.pending, d.giver, d.ns, g);
      }
    }
  }

  // ---- indexes and answers ----

  lemma FewerDotsIndexed(c: Cache, r: Cache, both: bool)
    requires Indexed(c, both) && r.from == c.from && r.to == c.to
    requires forall h :: h in r.dots ==> h in c.dots && r.dots[h] == c.dots[h]
    ensures Indexed(r, both)
  {
  }

  lemma CarryOutKeepsIndexed(w: World, f: Flush, both: bool)
    requires w.registry != [] && Indexed(w.cache, both)
    ensures Indexed(CarryOut(w, f).cache, both)
  {
    if f.OfEntity? {
      FlushEntityKeeps(w.cache, f.vk);
    } else {
      FewerDotsIndexed(w.cache, CarryOut(w, f).cache, both);
    }
  }

  /** Steps that change no DOT and no index. */
  predicate LeavesDots(st: Step) {
    !st.LookupDot? && !st.FlushExpired? && !st.FlushLapsed? && !st.Replay? && !st.Drop?
  }

  lemma DotsLeft(w: World, st: Step, both: bool)
    requires Running(w) && LeavesDots(st)
    ensures var r := After(w, st, both).cache; r.from == w.cache.from && r.to == w.cache.to && r.dots == w.cache.dots
  {
    match st
    case Grow(_) =>
    case Check =>
    case LookupEntity(vk) => ReadEntityAdds(w.cache, w.registry, w.clock, vk);
    case LookupGranted(_) =>
    case BuildFor(_, _, _, _) =>
    case Pass(_) =>
  }

  lemma KeepsIndexed(w: World, st: Step, both: bool)
    requires Running(w) && Indexed(w.cache, both)
    ensures Indexed(After(w, st, both).cache, both)
  {
    match st
    case LookupDot(d) => LookUpDotIndexed(w.cache, w.registry, w.clock, d, both);
    case FlushExpired(vk) => FlushEntityKeeps(w.cache, vk);
    case FlushLapsed(h) => FewerDotsIndexed(w.cache, FlushDot(w.cache, h), both);
    case Replay =>
      if w.pending != [] {
        CarryOutKeepsIndexed(w, w.pending[0], both);
      }
    case Drop =>
    case _ =>
      DotsLeft(w, st, both);
      FewerDotsIndexed(w.cache, After(w, st, both).cache, both);
  }

  /** Steps that change no chains and no holdoff. */
  lemma ChainsLeft(w: World, st: Step, both: bool)
    requires Running(w) && !st.BuildFor? && !st.Drop? && (st.Replay? ==> w.pending == [])
    ensures var n := After(w, st, both);
      && n.cache.chains == w.cache.chains && n.cache.holdoff == w.cache.holdoff && n.builds == w.builds
      && n.replayed == w.replayed && Current(w) <= Current(n)
  {
    match st
    case LookupEntity(vk) => ReadEntityAdds(w.cache, w.registry, w.clock, vk);
    case LookupDot(d) => LookUpDotAdds(w.cache, w.registry, w.clock, d, both);
    case _ =>
  }

  lemma KeepsAnswers(w: World, st: Step, both: bool)
    requires Running(w) && Answers(w.cache)
    ensures Answers(After(w, st, both).cache)
  {
    if st.BuildFor? {
      CacheChainsKeeps(w.cache, st.ck, st.chains, Current(w));
    } else if st.Replay? && w.pending != [] {
      if w.pending[0].OfChains? {
        FlushChainsKeeps(w.cache, w.pending[0].ns, Current(w));
      }
    } else if !st.Drop? {
      ChainsLeft(w, st, both);
    }
  }

  lemma KeepsBlocksKnown(w: World, st: Step, both: bool)
    requires Running(w) && BlocksKnown(w)
    ensures BlocksKnown(After(w, st, both))
  {
    var n := After(w, st, both);
    Kinds(w, st, both);
    forall f | f in n.pending && f.OfChains? ensures f.block <= Current(n) {
      if Checks(w, n) {
        ReplayBlocks(w.registry, w.lastblock - REPLAY, Current(w) + 1, f);
      } else {
        assert f in w.pending;
      }
    }
  }

  // ---- lists of grants ----

  lemma CarryOutLists(w: World, f: Flush, k: Key)
    requires w.registry != [] && k in CarryOut(w, f).cache.complete
    ensures k in w.cache.complete && CarryOut(w, f).cache.complete[k] == w.cache.complete[k] && f != OfGranted(k)
  {
  }

  /** A list that was not read in this step was there before, and its flush is not the one carried out. */
  lemma ListsFrom(w: World, st: Step, both: bool, k: Key)
    requires Running(w) && k in After(w, st, both).cache.complete
    requires !(st == LookupGranted(k) && k !in w.cache.complete)
    ensures k in w.cache.complete && After(w, st, both).cache.complete[k] == w.cache.complete[k]
    ensures k in w.listedAt ==> k in After(w, st, both).listedAt && After(w, st, both).listedAt[k] == w.listedAt[k]
    ensures st.Replay? && w.pending != [] ==> w.pending[0] != OfGranted(k)
  {
    match st
    case Replay =>
      if w.pending != [] {
        CarryOutLists(w, w.pending[0], k);
      }
    case LookupEntity(vk) => ReadEntityAdds(w.cache, w.registry, w.clock, vk);
    case LookupDot(d) => LookUpDotAdds(w.cache, w.registry, w.clock, d, both);
    case BuildFor(ck, _, _, chains) =>
      assert CacheChains(w.cache, ck, chains, Current(w)).complete == w.cache.complete;
    case _ =>
  }

  lemma KeepsListsExact(w: World, st: Step, both: bool)
    requires Running(w) && ListsExact(w)
    ensures ListsExact(After(w, st, both))
  {
    var n := After(w, st, both);
    forall k | k in n.cache.complete ensures Listed(n, k) {
      if !(st == LookupGranted(k) && k !in w.cache.complete) {
        ListsFrom(w, st, both, k);
        Kinds(w, st, both);
        ListKept(w, n, k);
      }
    }
  }

  lemma ListKept(w: World, n: World, k: Key)
    requires Running(w) && w.registry <= n.registry && k in w.cache.complete && Listed(w, k)
    requires k in n.cache.complete && n.cache.complete[k] == w.cache.complete[k]
    requires k in n.listedAt && n.listedAt[k] == w.listedAt[k]
    ensures Listed(n, k)
  {
    GrantsBeforeSame(w.registry, n.registry, k, w.listedAt[k] - LAG + 1);
  }

  lemma KeepsGrantsFresh(w: World, st: Step, both: bool)
    requires Running(w) && GrantsFresh(w)
    ensures GrantsFresh(After(w, st, both))
  {
    var n := After(w, st, both);
    Kinds(w, st, both);
    forall g, i, d | EventAt(n.registry, g, i, NewDOT(d)) && d.giver in n.cache.complete && g <= n.lastblock - LAG
      ensures ListedSince(n.listedAt, d.giver, g) || Awaits(n.pending, d.giver, d.ns, g)
    {
      if !(st == LookupGranted(d.giver) && d.giver !in w.cache.complete) {
        ListsFrom(w, st, both, d.giver);
        DueTogether(w, n, g, i, d, ListedSince(w.listedAt, d.giver, g));
      }
    }
  }

  // ---- built chains ----

  lemma LookupAfterBuild(c: Cache, k: CacheKey, chains: seq<Chain>, current: nat, ck: CacheKey)
    ensures Lookup(CacheChains(c, k, chains, current), ck) ==
            if ck == k && Stores(c, k, chains, current) then Some(chains) else Lookup(c, ck)
  {
  }

  /** Carrying out a flush removes chains and DOTs and changes none. */
  lemma CarryOutRemoves(w: World, f: Flush, ck: CacheKey, h: Hash)
    requires w.registry != []
    ensures Lookup(CarryOut(w, f).cache, ck).Some? ==>
      Lookup(w.cache, ck) == Lookup(CarryOut(w, f).cache, ck) && !(f.OfChains? && f.ns == ck.ns)
    ensures h in CarryOut(w, f).cache.dots ==> h in w.cache.dots && CarryOut(w, f).cache.dots[h] == w.cache.dots[h]
    ensures h in CarryOut(w, f).cache.dots ==> f != OfDot(h)
  {
  }

  ghost predicate BuiltNow(w: World, st: Step, ck: CacheKey)
    requires Running(w)
  {
    st.BuildFor? && st.ck == ck && Listing(w, st.keys) && Stores(w.cache, ck, st.chains, Current(w))
  }

  /** Where a cached list of chains can have come from. */
  lemma AnswerFrom(w: World, st: Step, both: bool, ck: CacheKey)
    requires Running(w) && Lookup(After(w, st, both).cache, ck).Some? && !BuiltNow(w, st, ck)
    ensures Lookup(w.cache, ck) == Lookup(After(w, st, both).cache, ck)
    ensures st.Replay? && w.pending != [] ==> !(w.pending[0].OfChains? && w.pending[0].ns == ck.ns)
  {
    if st.BuildFor? {
      LookupAfterBuild(w.cache, st.ck, st.chains, Current(w), ck);
    } else if st.Replay? && w.pending != [] {
      CarryOutRemoves(w, w.pending[0], ck, 0);
    } else if !st.Drop? {
      ChainsLeft(w, st, both);
    }
  }

  lemma BuildKept(w: World, st: Step, both: bool, ck: CacheKey)
    requires Running(w) && !BuiltNow(w, st, ck)
    ensures ck in After(w, st, both).builds <==> ck in w.builds
    ensures ck in w.builds ==> After(w, st, both).builds[ck] == w.builds[ck]
  {
  }

  lemma RecordKept(w: World, n: World, b: Build)
    requires Running(w) && w.registry <= n.registry && Recorded(w, b)
    ensures Recorded(n, b)
  {
    forall k | k in b.lists ensures b.lists[k] == GrantsBefore(n.registry, k, b.ages[k] - LAG + 1) {
      GrantsBeforeSame(w.registry, n.registry, k, b.ages[k] - LAG + 1);
    }
  }

  lemma KeepsBuildsExact(w: World, st: Step, both: bool)
    requires Running(w) && ListsExact(w) && BuildsExact(w)
    ensures BuildsExact(After(w, st, both))
  {
    var n := After(w, st, both);
    Kinds(w, st, both);
    forall ck | ck in n.builds ensures Recorded(n, n.builds[ck]) {
      if BuiltNow(w, st, ck) {
        ReadRecorded(w, st.req, st.keys);
        RecordKept(w, n, ReadAll(w, st.req, st.keys));
      } else {
        BuildKept(w, st, both, ck);
        RecordKept(w, n, w.builds[ck]);
      }
    }
  }

  lemma ReadRecorded(w: World, req: Request, keys: set<Key>)
    requires Running(w) && ListsExact(w) && Listing(w, keys)
    ensures Recorded(w, ReadAll(w, req, keys))
  {
    forall k | k in keys ensures Listed(w, k) {
    }
  }

  lemma KeepsChainsBuilt(w: World, st: Step, both: bool)
    requires Running(w) && ChainsBuilt(w) && Possible(w, st)
    ensures ChainsBuilt(After(w, st, both))
  {
    var n := After(w, st, both);
    forall ck | Lookup(n.cache, ck).Some? ensures ck in n.builds && BuiltFrom(ck, n.builds[ck], Lookup(n.cache, ck).value) {
      if BuiltNow(w, st, ck) {
        LookupAfterBuild(w.cache, ck, st.chains, Current(w), ck);
      } else {
        AnswerFrom(w, st, both, ck);
        BuildKept(w, st, both, ck);
      }
    }
  }

  lemma KeepsChainsFresh(w: World, st: Step, both: bool)
    requires Running(w) && ChainsBuilt(w) && ChainsFresh(w) && GrantsFresh(w)
    ensures ChainsFresh(After(w, st, both))
  {
    var n := After(w, st, both);
    forall ck, g, i, d |
      Lookup(n.cache, ck).Some? && EventAt(n.registry, g, i, NewDOT(d)) && d.ns == ck.ns && g <= n.lastblock - LAG
      ensures FreshOf(n, ck, g, d)
    {
      if BuiltNow(w, st, ck) {
        BuiltFresh(w, st, both, ck, g, i, d);
      } else {
        KeepsChainFresh(w, st, both, ck, g, i, d);
      }
    }
  }

  lemma BuiltFresh(w: World, st: Step, both: bool, ck: CacheKey, g: int, i: int, d: DOT)
    requires Running(w) && GrantsFresh(w) && BuiltNow(w, st, ck)
    requires EventAt(w.registry, g, i, NewDOT(d)) && g <= w.lastblock - LAG
    ensures FreshOf(After(w, st, both), ck, g, d)
  {
    assert After(w, st, both).builds[ck] == ReadAll(w, st.req, st.keys);
  }

  lemma KeepsChainFresh(w: World, st: Step, both: bool, ck: CacheKey, g: int, i: int, d: DOT)
    requires Running(w) && ChainsBuilt(w) && ChainsFresh(w) && !BuiltNow(w, st, ck)
    requires var n := After(w, st, both);
      Lookup(n.cache, ck).Some? && EventAt(n.registry, g, i, NewDOT(d)) && d.ns == ck.ns && g <= n.lastblock - LAG
    ensures FreshOf(After(w, st, both), ck, g, d)
  {
    var n := After(w, st, both);
    Kinds(w, st, both);
    AnswerFrom(w, st, both, ck);
    BuildKept(w, st, both, ck);
    if d.giver in w.builds[ck].lists {
      assert EventAt(w.registry, g, i, NewDOT(d)) && g <= w.lastblock - LAG ==> FreshOf(w, ck, g, d);
      Due(w, n, g, i, NewDOT(d), OfChains(d.ns, g), LAG, ListedSince(w.builds[ck].ages, d.giver, g));
    }
  }

  // ---- the holdoff ----

  /** Storing chains lifts no holdoff that is not over. */
  lemma StoreKeepsHoldoff(c: Cache, ck: CacheKey, chains: seq<Chain>, current: nat, ns: Key, until: nat)
    requires ns in c.holdoff && until <= c.holdoff[ns] && current <= until
    ensures var h := CacheChains(c, ck, chains, current).holdoff; ns in h && until <= h[ns]
  {
    var rest := c.holdoff - {ck.ns};
    if ns != ck.ns {
      assert ns in rest && rest[ns] == c.holdoff[ns];
    }
  }

  lemma BuildKeepsCovered(w: World, st: Step, both: bool, p: (Key, nat))
    requires Running(w) && st.BuildFor? && Covered(w, p)
    ensures Covered(After(w, st, both), p)
  {
    if !(p.1 + HOLDOFF < Current(w)) {
      StoreKeepsHoldoff(w.cache, st.ck, st.chains, Current(w), p.0, p.1 + HOLDOFF);
    }
  }

  lemma ReplayKeepsCovered(w: World, f: Flush, p: (Key, nat))
    requires w.registry != [] && (f.OfChains? ==> f.block <= Current(w))
    requires Covered(w, p) || (f.OfChains? && p == (f.ns, f.block))
    ensures Covered(CarryOut(w, f), p)
  {
  }

  lemma KeepsHoldoffCovers(w: World, st: Step, both: bool)
    requires Running(w) && HoldoffCovers(w) && BlocksKnown(w)
    ensures HoldoffCovers(After(w, st, both))
  {
    var n := After(w, st, both);
    forall p | p in n.replayed ensures Covered(n, p) {
      if st.BuildFor? {
        BuildKeepsCovered(w, st, both, p);
      } else if st.Replay? && w.pending != [] {
        assert w.pending[0] in w.pending;
        ReplayKeepsCovered(w, w.pending[0], p);
      } else if !st.Drop? {
        ChainsLeft(w, st, both);
      }
    }
  }

  lemma ReplayedIn(w: World, st: Step, both: bool, p: (Key, nat))
    requires Running(w) && p in After(w, st, both).replayed
    ensures p in w.replayed || (st.Replay? && w.pending != [] && w.pending[0] == OfChains(p.0, p.1))
  {
  }

  lemma KeepsReplayedBefore(w: World, st: Step, both: bool)
    requires Running(w) && ReplayedBefore(w) && HoldoffCovers(w) && ChainsBuilt(w)
    ensures ReplayedBefore(After(w, st, both))
  {
    var n := After(w, st, both);
    forall ck, g | Lookup(n.cache, ck).Some? && (ck.ns, g) in n.replayed
      ensures ck in n.builds && g + HOLDOFF < n.builds[ck].block
    {
      ReplayedIn(w, st, both, (ck.ns, g));
      if BuiltNow(w, st, ck) {
        assert Covered(w, (ck.ns, g));
      } else {
        AnswerFrom(w, st, both, ck);
        BuildKept(w, st, both, ck);
      }
    }
  }

  // ---- revocations ----

  /** An entity cached as valid after a step was so before, or has not been revoked. */
  lemma EntityFrom(w: World, st: Step, both: bool, vk: Key)
    requires Running(w) && IsValid(After(w, st, both).cache.entities, vk)
    ensures IsValid(w.cache.entities, vk) || (!Happened(w.registry, |w.registry|, EntityRevocation(vk)) && (st.LookupEntity? || st.LookupDot?))
    ensures st.Replay? && w.pending != [] ==> w.pending[0] != OfEntity(vk)
  {
    if st.LookupEntity? {
      ReadEntityAdds(w.cache, w.registry, w.clock, st.vk);
      EntityAdded(w.cache.entities, After(w, st, both).cache.entities, w.registry, vk);
    } else if st.LookupDot? {
      LookUpDotAdds(w.cache, w.registry, w.clock, st.d, both);
      EntityAdded(w.cache.entities, After(w, st, both).cache.entities, w.registry, vk);
    } else {
      EntityKept(w, st, both, vk);
    }
  }

  lemma EntityAdded(a: map<Key, State>, b: map<Key, State>, reg: Registry, vk: Key)
    requires MoreEntities(a, b, reg) && IsValid(b, vk)
    ensures IsValid(a, vk) || !Happened(reg, |reg|, EntityRevocation(vk))
  {
  }

  lemma EntityKept(w: World, st: Step, both: bool, vk: Key)
    requires Running(w) && IsValid(After(w, st, both).cache.entities, vk) && !st.LookupEntity? && !st.LookupDot?
    ensures IsValid(w.cache.entities, vk) && (st.Replay? && w.pending != [] ==> w.pending[0] != OfEntity(vk))
  {
    match st
    case Replay =>
      if w.pending != [] {
        match w.pending[0]
        case OfEntity(_) =>
        case _ =>
      }
    case FlushExpired(_) =>
    case _ =>
  }

  lemma KeepsEntitiesFresh(w: World, st: Step, both: bool)
    requires Running(w) && EntitiesFresh(w)
    ensures EntitiesFresh(After(w, st, both))
  {
    var n := After(w, st, both);
    forall g, i, vk | EventAt(n.registry, g, i, EntityRevocation(vk)) && g <= n.lastblock && IsValid(n.cache.entities, vk)
      ensures OfEntity(vk) in n.pending
    {
      Kinds(w, st, both);
      EntityFrom(w, st, both, vk);
      if IsValid(w.cache.entities, vk) {
        Due(w, n, g, i, EntityRevocation(vk), OfEntity(vk), 0, false);
      }
    }
  }

  lemma FlushedConcerns(c: Cache, vk: Key, both: bool, h: Hash)
    requires Indexed(c, both) && h in FlushEntity(c, vk).dots
    ensures !Concerns(c.dots[h].0, vk, both)
  {
    FlushedGiver(c, vk, h);
    if both {
      FlushedReceiver(c, vk, h);
    }
  }

  ghost predicate DotAdded(w: World, st: Step, both: bool, h: Hash)
    requires Running(w)
  {
    st.LookupDot? && h == st.d.hash && h !in w.cache.dots && h in After(w, st, both).cache.dots
  }

  /** A DOT cached after a step and not looked up by it was cached before; the flush carried out was none of its own. */
  lemma DotFrom(w: World, st: Step, both: bool, h: Hash)
    requires Running(w) && h in After(w, st, both).cache.dots && !DotAdded(w, st, both, h)
    ensures h in w.cache.dots && After(w, st, both).cache.dots[h] == w.cache.dots[h]
    ensures st.Replay? && w.pending != [] ==> w.pending[0] != OfDot(h)
  {
    if st.Replay? {
      if w.pending != [] {
        CarryOutRemoves(w, w.pending[0], CacheKey("", "", 0, 0), h);
      }
    } else if st.LookupDot? {
      LookUpDotAdds(w.cache, w.registry, w.clock, st.d, both);
    } else if LeavesDots(st) {
      DotsLeft(w, st, both);
    }
  }

  lemma KeepsDotRevocation(w: World, st: Step, both: bool, g: int, i: int, h: Hash)
    requires Running(w) && DotsFresh(w, both)
    requires var n := After(w, st, both); EventAt(n.registry, g, i, DOTRevocation(h)) && g <= n.lastblock && ValidDot(n.cache, h)
    ensures OfDot(h) in After(w, st, both).pending
  {
    Kinds(w, st, both);
    if DotAdded(w, st, both, h) {
      LookUpDotAdds(w.cache, w.registry, w.clock, st.d, both);
      assert EventAt(w.registry, g, i, DOTRevocation(h));
    } else {
      DotFrom(w, st, both, h);
      Due(w, After(w, st, both), g, i, DOTRevocation(h), OfDot(h), 0, false);
    }
  }

  lemma KeepsDotOfEntity(w: World, st: Step, both: bool, g: int, i: int, vk: Key, h: Hash)
    requires Running(w) && DotsFresh(w, both) && Indexed(w.cache, both) && EntitiesFresh(After(w, st, both))
    requires var n := After(w, st, both);
      && EventAt(n.registry, g, i, EntityRevocation(vk)) && g <= n.lastblock && ValidDot(n.cache, h)
      && Concerns(n.cache.dots[h].0, vk, both)
    ensures OfEntity(vk) in After(w, st, both).pending
  {
    var n := After(w, st, both);
    Kinds(w, st, both);
    if DotAdded(w, st, both, h) {
      LookUpDotAdds(w.cache, w.registry, w.clock, st.d, both);
      assert IsValid(n.cache.entities, vk);
    } else {
      DotFrom(w, st, both, h);
      if st.Replay? && w.pending != [] && w.pending[0] == OfEntity(vk) {
        FlushedConcerns(w.cache, vk, both, h);
      }
      Due(w, n, g, i, EntityRevocation(vk), OfEntity(vk), 0, false);
    }
  }

  lemma KeepsDotsFresh(w: World, st: Step, both: bool)
    requires Running(w) && DotsFresh(w, both) && Indexed(w.cache, both) && EntitiesFresh(After(w, st, both))
    ensures DotsFresh(After(w, st, both), both)
  {
    var n := After(w, st, both);
    forall g, i, h | EventAt(n.registry, g, i, DOTRevocation(h)) && g <= n.lastblock && ValidDot(n.cache, h)
      ensures OfDot(h) in n.pending
    {
      KeepsDotRevocation(w, st, both, g, i, h);
    }
    forall g, i, vk, h |
      && EventAt(n.registry, g, i, EntityRevocation(vk)) && g <= n.lastblock && ValidDot(n.cache, h)
      && Concerns(n.cache.dots[h].0, vk, both)
      ensures OfEntity(vk) in n.pending
    {
      KeepsDotOfEntity(w, st, both, g, i, vk, h);
    }
  }

  // ---- runs ----

  ghost predicate Safe(w: World, both: bool) {
    && Running(w) && BlocksKnown(w) && Indexed(w.cache, both) && Answers(w.cache)
    && ListsExact(w) && GrantsFresh(w) && BuildsExact(w) && ChainsBuilt(w) && ChainsFresh(w)
    && HoldoffCovers(w) && ReplayedBefore(w) && EntitiesFresh(w) && DotsFresh(w, both)
  }

  /** The caches start empty, with the chain checked up to its current block. */
  function Start(reg: Registry): (w: World)
    requires reg != []
  {
    World(reg, Clock({}, {}), EMPTY, |reg| - 1, [], map[], map[], {})
  }

  ghost function Run(w: World, steps: seq<Step>, both: bool): (r: World)
    requires Running(w)
    ensures Running(r)
    decreases |steps|
  {
    if steps == [] then w else Next(Run(w, steps[..|steps| - 1], both), steps[|steps| - 1], both)
  }

  lemma AfterSafe(w: World, st: Step, both: bool)
    requires Safe(w, both) && Possible(w, st)
    ensures Safe(After(w, st, both), both)
  {
    KeepsBlocksKnown(w, st, both);
    KeepsIndexed(w, st, both);
    KeepsAnswers(w, st, both);
    KeepsListsExact(w, st, both);
    KeepsGrantsFresh(w, st, both);
    KeepsBuildsExact(w, st, both);
    KeepsChainsBuilt(w, st, both);
    KeepsChainsFresh(w, st, both);
    KeepsHoldoffCovers(w, st, both);
    KeepsReplayedBefore(w, st, both);
    KeepsEntitiesFresh(w, st, both);
    KeepsDotsFresh(w, st, both);
  }

  lemma NextSafe(w: World, st: Step, both: bool)
    requires Safe(w, both)
    ensures Safe(Next(w, st, both), both)
  {
    if Possible(w, st) {
      AfterSafe(w, st, both);
    }
  }

  lemma {:induction false} RunSafe(reg: Registry, steps: seq<Step>, both: bool)
    requires reg != []
    ensures Safe(Run(Start(reg), steps, both), both)
    decreases |steps|
  {
    if steps != [] {
      RunSafe(reg, steps[..|steps| - 1], both);
      NextSafe(Run(Start(reg), steps[..|steps| - 1], both), steps[|steps| - 1], both);
    }
  }

  // ---- what that means ----

  /** The parts of the invariant that speak of lists and of built chains. */
  lemma RunLists(reg: Registry, steps: seq<Step>, both: bool)
    requires reg != []
    ensures var w := Run(Start(reg), steps, both); ListsExact(w) && GrantsFresh(w)
  {
    RunSafe(reg, steps, both);
  }

  lemma RunBuilds(reg: Registry, steps: seq<Step>, both: bool)
    requires reg != []
    ensures var w := Run(Start(reg), steps, both); BuildsExact(w) && ChainsBuilt(w) && ChainsFresh(w)
  {
    RunSafe(reg, steps, both);
  }

  lemma RunHoldoff(reg: Registry, steps: seq<Step>, both: bool)
    requires reg != []
    ensures var w := Run(Start(reg), steps, both); HeldOff(w.cache) && ReplayedBefore(w) && BuildsExact(w)
  {
    RunSafe(reg, steps, both);
  }

  /** In every run with no flush pending, a cached list of a key's grants has every grant made LAG blocks before the last check. */
  lemma BoundedStaleness(reg: Registry, steps: seq<Step>, both: bool, g: int, i: int, d: DOT)
    requires reg != []
    requires var w := Run(Start(reg), steps, both);
      w.pending == [] && d.giver in w.cache.complete && EventAt(w.registry, g, i, NewDOT(d)) && g + LAG <= w.lastblock
    ensures d.hash in Run(Start(reg), steps, both).cache.complete[d.giver]
  {
    RunLists(reg, steps, both);
    ListHas(Run(Start(reg), steps, both), g, i, d);
  }

  lemma ListHas(w: World, g: int, i: int, d: DOT)
    requires Running(w) && ListsExact(w) && GrantsFresh(w) && w.pending == [] && d.giver in w.cache.complete
    requires EventAt(w.registry, g, i, NewDOT(d)) && g + LAG <= w.lastblock
    ensures d.hash in w.cache.complete[d.giver]
  {
    assert Listed(w, d.giver) && ListedSince(w.listedAt, d.giver, g);
    GrantsBeforeAll(w.registry, w.listedAt[d.giver] - LAG + 1, g, i);
  }

  /** In every run with no flush pending, every list that cached chains were built from has every DOT on their namespace of that age. */
  lemma ChainStaleness(reg: Registry, steps: seq<Step>, both: bool, ck: CacheKey, g: int, i: int, d: DOT)
    requires reg != []
    requires var w := Run(Start(reg), steps, both);
      && w.pending == [] && Lookup(w.cache, ck).Some? && EventAt(w.registry, g, i, NewDOT(d)) && d.ns == ck.ns
      && g + LAG <= w.lastblock
    ensures var w := Run(Start(reg), steps, both);
      ck in w.builds && (d.giver in w.builds[ck].lists ==> d.hash in w.builds[ck].lists[d.giver])
  {
    var w := Run(Start(reg), steps, both);
    RunBuilds(reg, steps, both);
    assert FreshOf(w, ck, g, d);
    if d.giver in w.builds[ck].lists {
      HasListed(w, w.builds[ck], g, i, d);
    }
  }

  lemma HasListed(w: World, b: Build, g: int, i: int, d: DOT)
    requires Running(w) && Recorded(w, b) && d.giver in b.lists && EventAt(w.registry, g, i, NewDOT(d))
    requires ListedSince(b.ages, d.giver, g)
    ensures d.hash in b.lists[d.giver]
  {
    GrantsBeforeAll(w.registry, b.ages[d.giver] - LAG + 1, g, i);
  }

  /** At any point of any run, a build saw a DOT that was published once exactly if it read a list that old or younger. */
  lemma SeenIff(reg: Registry, steps: seq<Step>, both: bool, ck: CacheKey, g: int, i: int, d: DOT)
    requires reg != []
    requires var w := Run(Start(reg), steps, both);
      && ck in w.builds && d.giver in w.builds[ck].lists && EventAt(w.registry, g, i, NewDOT(d))
      && forall h, j, e :: EventAt(w.registry, h, j, NewDOT(e)) && e.hash == d.hash ==> h == g
    ensures var b := Run(Start(reg), steps, both).builds[ck];
      d.giver in b.ages && (d.hash in b.lists[d.giver] <==> g + LAG <= b.ages[d.giver])
  {
    RunBuilds(reg, steps, both);
    SeenByRecord(Run(Start(reg), steps, both), Run(Start(reg), steps, both).builds[ck], g, i, d);
  }

  lemma SeenByRecord(w: World, b: Build, g: int, i: int, d: DOT)
    requires Running(w) && Recorded(w, b) && d.giver in b.lists && EventAt(w.registry, g, i, NewDOT(d))
    requires forall h, j, e :: EventAt(w.registry, h, j, NewDOT(e)) && e.hash == d.hash ==> h == g
    ensures d.giver in b.ages && (d.hash in b.lists[d.giver] <==> g + LAG <= b.ages[d.giver])
  {
    var n := b.ages[d.giver] - LAG + 1;
    if g < n {
      GrantsBeforeAll(w.registry, n, g, i);
    }
    if d.hash in b.lists[d.giver] {
      var h, j := GrantsBeforeOnly(w.registry, d.giver, n, d.hash);
      assert EventAt(w.registry, h, j, NewDOT(w.registry[h][j].dot));
    }
  }

  /**
   * At any point of any run, even in the middle of a check, chains are cached only on namespaces that are not held off,
   * and a build that read its lists at most two blocks before saw every DOT on the namespace whose flush was carried
   * out since the caches were last dropped.
   */
  lemma HoldoffSuffices(reg: Registry, steps: seq<Step>, both: bool, ck: CacheKey, g: nat, i: int, d: DOT)
    requires reg != []
    requires var w := Run(Start(reg), steps, both); Lookup(w.cache, ck).Some?
    ensures var w := Run(Start(reg), steps, both);
      && ck.ns !in w.cache.holdoff && ck in w.builds
      && ((ck.ns, g) in w.replayed && EventAt(w.registry, g, i, NewDOT(d)) && ReadLately(w.builds[ck], d.giver) ==>
            d.hash in w.builds[ck].lists[d.giver])
  {
    RunHoldoff(reg, steps, both);
    RunBuilds(reg, steps, both);
    HeldOffLongEnough(Run(Start(reg), steps, both), ck, g, i, d);
  }

  lemma HeldOffLongEnough(w: World, ck: CacheKey, g: nat, i: int, d: DOT)
    requires Running(w) && HeldOff(w.cache) && ReplayedBefore(w) && BuildsExact(w) && Lookup(w.cache, ck).Some?
    ensures ck.ns !in w.cache.holdoff
    ensures (ck.ns, g) in w.replayed && EventAt(w.registry, g, i, NewDOT(d)) && ck in w.builds && ReadLately(w.builds[ck], d.giver) ==>
      d.hash in w.builds[ck].lists[d.giver]
  {
    assert ck.ns in w.cache.chains;
    if (ck.ns, g) in w.replayed && EventAt(w.registry, g, i, NewDOT(d)) && ck in w.builds && ReadLately(w.builds[ck], d.giver) {
      GrantsBeforeAll(w.registry, w.builds[ck].ages[d.giver] - LAG + 1, g, i);
    }
  }

  /** The list of a key was read no more blocks before the build than the holdoff exceeds the lag by. */
  predicate ReadLately(b: Build, k: Key) {
    k in b.lists && k in b.ages && b.block <= b.ages[k] + (HOLDOFF + 1 - LAG)
  }

  /** In every run, flushing an entity leaves no cached DOT it gave, nor one it received if both lists are looked at. */
  lemma FlushLeavesNone(reg: Registry, steps: seq<Step>, both: bool, vk: Key, h: Hash)
    requires reg != [] && h in FlushEntity(Run(Start(reg), steps, both).cache, vk).dots
    ensures var d := FlushEntity(Run(Start(reg), steps, both).cache, vk).dots[h].0;
      d.giver != vk && (both ==> d.receiver != vk)
  {
    RunSafe(reg, steps, both);
    FlushedConcerns(Run(Start(reg), steps, both).cache, vk, both, h);
  }

  /** In every run with no flush pending, no DOT is cached as valid that was revoked by the last check, or whose giver was. */
  lemma RevokedIsInvalid(reg: Registry, steps: seq<Step>, both: bool, g: int, i: int, h: Hash)
    requires reg != []
    requires var w := Run(Start(reg), steps, both);
      && w.pending == [] && h in w.cache.dots && g <= w.lastblock
      && (EventAt(w.registry, g, i, DOTRevocation(h)) || EventAt(w.registry, g, i, EntityRevocation(w.cache.dots[h].0.giver)))
    ensures Run(Start(reg), steps, both).cache.dots[h].1 != Valid
  {
    RunSafe(reg, steps, both);
  }

  /** Nor one whose receiver was, if both lists are looked at. */
  lemma RevokedReceiverIsInvalid(reg: Registry, steps: seq<Step>, g: int, i: int, h: Hash)
    requires reg != []
    requires var w := Run(Start(reg), steps, true);
      && w.pending == [] && h in w.cache.dots && g <= w.lastblock
      && EventAt(w.registry, g, i, EntityRevocation(w.cache.dots[h].0.receiver))
    ensures Run(Start(reg), steps, true).cache.dots[h].1 != Valid
  {
    RunSafe(reg, steps, true);
  }

  // ---- the check as one method ----

  lemma {:induction false} RunFirst(w: World, st: Step, steps: seq<Step>, both: bool)
    requires Running(w)
    ensures Run(w, [st] + steps, both) == Run(Next(w, st, both), steps, both)
    decreases |steps|
  {
    if steps == [] {
      assert [st] + steps == [st] && [st][..0] == [];
      assert Run(w, [st][..0], both) == w;
    } else {
      RunFirst(w, st, steps[..|steps| - 1], both);
      assert ([st] + steps)[..|steps|] == [st] + steps[..|steps| - 1];
    }
  }

  lemma ApplyFirst(c: Cache, fs: seq<Flush>, current: nat)
    requires fs != []
    ensures ApplyAll(c, fs, current) == ApplyAll(ApplyFlush(c, fs[0], current), fs[1..], current)
  {
    ApplyMore(c, [fs[0]], fs[1..], current);
    ApplyThree(c, fs[0], fs[0], fs[0], current);
    assert [fs[0]] + fs[1..] == fs;
  }

  /** Replaying all that is pending, with no step between, is applying the flushes in order. */
  lemma {:induction false} ReplayPending(w: World, both: bool) returns (steps: seq<Step>)
    requires Running(w)
    ensures var n := Run(w, steps, both);
      n.pending == [] && n.cache == ApplyAll(w.cache, w.pending, Current(w)) && n.lastblock == w.lastblock
    decreases |w.pending|
  {
    steps := [];
    if w.pending != [] {
      ApplyFirst(w.cache, w.pending, Current(w));
      var rest := ReplayPending(Next(w, Replay, both), both);
      RunFirst(w, Replay, rest, both);
      steps := [Replay] + rest;
    }
  }
}
