/** The caches of registry lookups and built chains, and how they are filled and flushed. */
module Resolution {
  import opened Options
  import opened Delegation
  import opened ChainBuilder
  import opened RegistryLog

  /** Blocks for which chains are not cached on a namespace after a DOT on it was seen. */
  const HOLDOFF: nat := 6
  /** Blocks beyond which a jump of the chain drops all caches, and the age, in nanoseconds, beyond which time does. */
  const MAX_JUMP: nat := 100
  const MAX_AGE: nat := 3600 * 1000000000

  datatype CacheKey = CacheKey(uri: string, perms: string, target: Key, ns: Key)

  /** The request behind a key of the cache: its URI is accepted, and what follows the namespace is the pattern asked for. */
  predicate Asks(ck: CacheKey, req: Request) {
    && ck.uri == req.uri && ck.target == req.target && ck.ns == req.ns && SplitURI(req.uri).Some?
    && var suffix := SplitURI(req.uri).value.1; Names.Accepted(Names.Split(suffix)) && req.suffix == Names.Parse(suffix)
  }

  datatype Cache = Cache(
    chains: map<Key, map<CacheKey, seq<Chain>>>,  // built chains, by namespace
    entities: map<Key, State>,
    dots: map<Hash, (DOT, State)>,
    from: map<Key, seq<Hash>>,                    // cached DOTs by giver, to be flushed with it
    complete: map<Key, seq<Hash>>,                // all DOTs granted by a key
    to: map<Key, seq<Hash>>,                      // cached DOTs by receiver, to be flushed with it
    holdoff: map<Key, nat>)                       // no chains cached on these namespaces until this block has passed

  const EMPTY := Cache(map[], map[], map[], map[], map[], map[], map[])

  function At(m: map<Key, seq<Hash>>, k: Key): (r: seq<Hash>) {
    if k in m then m[k] else []
  }

  // ---- what each operation does to the caches ----

  function CacheEntity(c: Cache, vk: Key, s: State): (r: Cache) {
    c.(entities := c.entities[vk := s])
  }

  function CacheDot(c: Cache, d: DOT, s: State): (r: Cache) {
    var stored := c.(dots := c.dots[d.hash := (d, s)]);
    if d.hash in At(c.from, d.giver) then stored
    else stored.(from := c.from[d.giver := At(c.from, d.giver) + [d.hash]],
                 to := c.to[d.receiver := At(c.to, d.receiver) + [d.hash]])
  }

  function FlushDot(c: Cache, h: Hash): (r: Cache) {
    c.(dots := c.dots - {h})
  }

  function Members(s: seq<Hash>): (r: set<Hash>) {
    set h | h in s
  }

  function FlushEntity(c: Cache, vk: Key): (r: Cache) {
    c.(entities := c.entities - {vk}, dots := c.dots - Members(At(c.to, vk)) - Members(At(c.from, vk)),
       to := c.to - {vk}, from := c.from - {vk})
  }

  function FlushGranted(c: Cache, vk: Key): (r: Cache) {
    c.(complete := c.complete - {vk})
  }

  function FlushChains(c: Cache, ns: Key, current: nat): (r: Cache) {
    c.(chains := c.chains - {ns}, holdoff := c.holdoff[ns := current + HOLDOFF])
  }

  function CacheGranted(c: Cache, vk: Key, hashes: seq<Hash>): (r: Cache) {
    c.(complete := c.complete[vk := hashes])
  }

  function NamespaceChains(c: Cache, ns: Key): (r: map<CacheKey, seq<Chain>>) {
    if ns in c.chains then c.chains[ns] else map[]
  }

  /** Whether a list of chains built now would be stored. */
  predicate Stores(c: Cache, ck: CacheKey, chains: seq<Chain>, current: nat) {
    (ck.ns in c.holdoff ==> current > c.holdoff[ck.ns]) && chains != []
  }

  function CacheChains(c: Cache, ck: CacheKey, chains: seq<Chain>, current: nat): (r: Cache) {
    if ck.ns in c.holdoff && current <= c.holdoff[ck.ns] then c
    else
      var free := c.(holdoff := c.holdoff - {ck.ns});
      if chains == [] then free
      else free.(chains := c.chains[ck.ns := NamespaceChains(c, ck.ns)[ck := chains]])
  }

  /** What the cache answers for a request, if anything. */
  function Lookup(c: Cache, ck: CacheKey): (r: Option<seq<Chain>>) {
    if ck.ns in c.chains && ck in c.chains[ck.ns] then Some(c.chains[ck.ns][ck]) else None
  }

  function ApplyFlush(c: Cache, f: Flush, current: nat): (r: Cache) {
    match f
    case OfGranted(vk) => FlushGranted(c, vk)
    case OfChains(ns, _) => FlushChains(c, ns, current)
    case OfDot(h) => FlushDot(c, h)
    case OfEntity(vk) => FlushEntity(c, vk)
  }

  function ApplyAll(c: Cache, fs: seq<Flush>, current: nat): (r: Cache) {
    if fs == [] then c else ApplyFlush(ApplyAll(c, fs[..|fs| - 1], current), fs[|fs| - 1], current)
  }

  lemma {:induction false} ApplyMore(c: Cache, a: seq<Flush>, b: seq<Flush>, current: nat)
    ensures ApplyAll(c, a + b, current) == ApplyAll(ApplyAll(c, a, current), b, current)
    decreases |b|
  {
    if b == [] {
      assert a + b == a;
    } else {
      ApplyMore(c, a, b[..|b| - 1], current);
      assert (a + b)[..|a + b| - 1] == a + b[..|b| - 1];
    }
  }

  lemma ReplayMore(c: Cache, d: Cache, reg: Registry, lo: int, g: nat, current: nat)
    requires lo <= g < |reg| && d == ApplyAll(c, ReplayOf(reg, lo, g), current)
    ensures ApplyAll(c, ReplayOf(reg, lo, g + 1), current) == ApplyAll(d, BlockFlushes(reg[g], g), current)
  {
    assert ReplayOf(reg, lo, g + 1) == ReplayOf(reg, lo, g) + BlockFlushes(reg[g], g);
    ApplyMore(c, ReplayOf(reg, lo, g), BlockFlushes(reg[g], g), current);
  }

  lemma ApplyThree(c: Cache, x: Flush, y: Flush, z: Flush, current: nat)
    ensures ApplyAll(c, [x, y, z], current) == ApplyFlush(ApplyFlush(ApplyFlush(c, x, current), y, current), z, current)
    ensures ApplyAll(c, [x], current) == ApplyFlush(c, x, current)
  {
    assert [x, y, z][..2] == [x, y] && [x, y][..1] == [x] && [x][..0] == [];
    assert ApplyAll(c, [x][..0], current) == c;
    assert ApplyAll(c, [x, y][..1], current) == ApplyFlush(c, x, current);
  }

  // ---- the caches in place ----

  class ResolutionData {
    var chaincache: map<Key, map<CacheKey, seq<Chain>>>
    var entityCache: map<Key, State>
    var dotHashCache: map<Hash, (DOT, State)>
    var dotFromInvCache: map<Key, seq<Hash>>
    var dotFromCompleteCache: map<Key, seq<Hash>>
    var dotToInvCache: map<Key, seq<Hash>>
    var holdoff: map<Key, nat>
    var lastblock: nat
    var lastDrop: int  // the time, in nanoseconds

    ghost function View(): (c: Cache)
      reads this
    {
      Cache(chaincache, entityCache, dotHashCache, dotFromInvCache, dotFromCompleteCache, dotToInvCache, holdoff)
    }

    constructor (current: nat)
      ensures View() == EMPTY && lastblock == current && lastDrop == 0
    {
      lastblock, lastDrop := current, 0;
      chaincache, entityCache, dotHashCache := map[], map[], map[];
      dotFromInvCache, dotFromCompleteCache, dotToInvCache, holdoff := map[], map[], map[], map[];
    }

    method DropAll()
      modifies this
      ensures lastblock == old(lastblock) && lastDrop == old(lastDrop)
      ensures View() == EMPTY
    {
      chaincache, entityCache, dotHashCache := map[], map[], map[];
      dotFromInvCache, dotFromCompleteCache, dotToInvCache, holdoff := map[], map[], map[], map[];
    }

    method StoreEntity(vk: Key, s: State)
      modifies this
      ensures lastblock == old(lastblock) && lastDrop == old(lastDrop)
      ensures View() == CacheEntity(old(View()), vk, s)
    {
      entityCache := entityCache[vk := s];
    }

    method StoreDot(d: DOT, s: State)
      modifies this
      ensures lastblock == old(lastblock) && lastDrop == old(lastDrop)
      ensures View() == CacheDot(old(View()), d, s)
    {
      dotHashCache := dotHashCache[d.hash := (d, s)];
      var existing := false;
      var list := if d.giver in dotFromInvCache then dotFromInvCache[d.giver] else [];
      for i := 0 to |list|
        invariant !existing && d.hash !in list[..i]
      {
        if list[i] == d.hash {
          existing := true;
          break;
        }
      }
      assert !existing ==> list[..|list|] == list;
      if !existing {
        dotFromInvCache := dotFromInvCache[d.giver := list + [d.hash]];
        dotToInvCache := dotToInvCache[d.receiver :=
          (if d.receiver in dotToInvCache then dotToInvCache[d.receiver] else []) + [d.hash]];
      }
    }

    method DropDot(h: Hash)
      modifies this`dotHashCache
      ensures View() == FlushDot(old(View()), h)
    {
      dotHashCache := dotHashCache - {h};
    }

    /** Drops every DOT of an inverse list. */
    method DropDots(list: seq<Hash>)
      modifies this`dotHashCache
      ensures dotHashCache == old(dotHashCache) - Members(list)
    {
      for i := 0 to |list|
        invariant dotHashCache == old(dotHashCache) - Members(list[..i])
      {
        DropDot(list[i]);
        assert Members(list[..i + 1]) == Members(list[..i]) + {list[i]};
      }
      assert list[..|list|] == list;
    }

    method DropEntity(vk: Key)
      modifies this
      ensures lastblock == old(lastblock) && lastDrop == old(lastDrop)
      ensures View() == FlushEntity(old(View()), vk)
    {
      entityCache := entityCache - {vk};
      var dTo := if vk in dotToInvCache then dotToInvCache[vk] else [];
      DropDots(dTo);
      dotToInvCache := dotToInvCache - {vk};
      var dFrom := if vk in dotFromInvCache then dotFromInvCache[vk] else [];
      DropDots(dFrom);
      dotFromInvCache := dotFromInvCache - {vk};
    }

    method DropGranted(vk: Key)
      modifies this
      ensures lastblock == old(lastblock) && lastDrop == old(lastDrop)
      ensures View() == FlushGranted(old(View()), vk)
    {
      dotFromCompleteCache := dotFromCompleteCache - {vk};
    }

    method DropChains(ns: Key, current: nat)
      modifies this
      ensures lastblock == old(lastblock) && lastDrop == old(lastDrop)
      ensures View() == FlushChains(old(View()), ns, current)
    {
      chaincache := chaincache - {ns};
      holdoff := holdoff[ns := current + HOLDOFF];
    }

    method StoreGranted(vk: Key, hashes: seq<Hash>)
      modifies this
      ensures lastblock == old(lastblock) && lastDrop == old(lastDrop)
      ensures View() == CacheGranted(old(View()), vk, hashes)
    {
      dotFromCompleteCache := dotFromCompleteCache[vk := hashes];
    }

    method StoreChains(ck: CacheKey, chains: seq<Chain>, current: nat)
      modifies this
      ensures lastblock == old(lastblock) && lastDrop == old(lastDrop)
      ensures View() == CacheChains(old(View()), ck, chains, current)
    {
      if ck.ns in holdoff {
        if current > holdoff[ck.ns] {
          holdoff := holdoff - {ck.ns};
        } else {
          return;
        }
      }
      if |chains| == 0 {
        assert holdoff == old(holdoff) - {ck.ns};
        return;
      }
      var nsmap := if ck.ns in chaincache then chaincache[ck.ns] else map[];
      nsmap := nsmap[ck := chains];
      chaincache := chaincache[ck.ns := nsmap];
      assert holdoff == old(holdoff) - {ck.ns};
    }

    method FindChains(ck: CacheKey) returns (r: Option<seq<Chain>>)
      ensures r == Lookup(View(), ck)
    {
      if ck.ns !in chaincache {
        return None;
      }
      var nsmap := chaincache[ck.ns];
      if ck !in nsmap {
        return None;
      }
      return Some(nsmap[ck]);
    }

    /** One event of the log, as the flushes it calls for. */
    method ReplayEvent(e: Event, block: nat, current: nat)
      modifies this
      ensures lastblock == old(lastblock) && lastDrop == old(lastDrop)
      ensures View() == ApplyAll(old(View()), FlushesOf(e, block), current)
    {
      match e
      case NewDOT(d) =>
        ApplyThree(View(), OfGranted(d.giver), OfChains(d.ns, block), OfDot(d.hash), current);
        DropGranted(d.giver);
        DropChains(d.ns, current);
        DropDot(d.hash);
      case DOTRevocation(h) =>
        ApplyThree(View(), OfDot(h), OfDot(h), OfDot(h), current);
        DropDot(h);
      case NewEntity(vk) =>
        ApplyThree(View(), OfEntity(vk), OfEntity(vk), OfEntity(vk), current);
        DropEntity(vk);
      case EntityRevocation(vk) =>
        ApplyThree(View(), OfEntity(vk), OfEntity(vk), OfEntity(vk), current);
        DropEntity(vk);
    }

    method ReplayBlock(events: seq<Event>, block: nat, current: nat)
      modifies this
      ensures lastblock == old(lastblock) && lastDrop == old(lastDrop)
      ensures View() == ApplyAll(old(View()), BlockFlushes(events, block), current)
    {
      for i := 0 to |events|
        invariant lastblock == old(lastblock) && lastDrop == old(lastDrop)
        invariant View() == ApplyAll(old(View()), BlockFlushes(events[..i], block), current)
      {
        ApplyMore(old(View()), BlockFlushes(events[..i], block), FlushesOf(events[i], block), current);
        assert events[..i + 1][..i] == events[..i];
        ReplayEvent(events[i], block, current);
      }
      assert events[..|events|] == events;
    }

    method ReplayNext(ghost c: Cache, reg: Registry, lo: int, g: nat, current: nat) returns (next: nat)
      requires lo <= g < |reg| && View() == ApplyAll(c, ReplayOf(reg, lo, g), current)
      modifies this
      ensures lastblock == old(lastblock) && lastDrop == old(lastDrop)
      ensures next == g + 1 && View() == ApplyAll(c, ReplayOf(reg, lo, next), current)
    {
      next := g + 1;
      ghost var d := View();
      ReplayMore(c, d, reg, lo, g, current);
      ReplayBlock(reg[g], g, current);
    }

    method ReplayBlocks(reg: Registry, lo: int, current: nat)
      requires lo <= |reg|
      modifies this
      ensures lastblock == old(lastblock) && lastDrop == old(lastDrop)
      ensures View() == ApplyAll(old(View()), ReplayOf(reg, lo, |reg|), current)
    {
      ghost var c := View();
      var g: nat := if lo < 0 then 0 else lo;
      assert ReplayOf(reg, lo, g) == [];
      while g < |reg|
        invariant g <= |reg| && lo <= g && lastblock == old(lastblock) && lastDrop == old(lastDrop)
        invariant View() == ApplyAll(c, ReplayOf(reg, lo, g), current)
      {
        g := ReplayNext(c, reg, lo, g, current);
      }
    }

    /**
     * The check of the chain up to its head, when nothing interferes. After a jump it starts a drop of all caches, which
     * runs on its own; their age is compared the wrong way round, so that it starts none unless the clock goes back.
     */
    method CheckChainChange(reg: Registry, now: int) returns (drops: bool)
      requires reg != [] && lastblock < |reg|
      modifies this
      ensures lastblock == |reg| - 1 && lastDrop == if drops then now else old(lastDrop)
      ensures drops <==> old(lastblock) != |reg| - 1 && (|reg| - 1 - old(lastblock) > MAX_JUMP || old(lastDrop) - now > MAX_AGE)
      ensures old(lastDrop) <= now ==> (drops <==> |reg| - 1 - old(lastblock) > MAX_JUMP)
      ensures View() == if old(lastblock) == |reg| - 1 then old(View())
                        else ApplyAll(old(View()), ReplayOf(reg, old(lastblock) - REPLAY, |reg|), |reg| - 1)
    {
      drops := false;
      var current := |reg| - 1;
      if lastblock == current {
        return;
      }
      if current - lastblock > MAX_JUMP || lastDrop - now > MAX_AGE {
        lastDrop := now;
        drops := true;
      }
      var lo := lastblock - REPLAY;
      lastblock := current;
      ReplayBlocks(reg, lo, current);
    }

    /** A build with the cache around it: an answer found there is filtered, and one that was searched for is stored. */
    method Build(req: Request, snap: Snapshot, ck: CacheKey, resolveKey: string -> Option<Key>, current: nat) returns (r: Outcome)
      requires Lookup(View(), ck).Some? ==> Resolvable(snap, Lookup(View(), ck).value)
      modifies this
      ensures lastblock == old(lastblock) && lastDrop == old(lastDrop)
      ensures r == if old(Lookup(View(), ck)).Some? then Chains(StillValid(snap, old(Lookup(View(), ck)).value))
                   else Searched(req, snap, resolveKey)
      ensures View() == if old(Lookup(View(), ck)).None? && r.Chains? then CacheChains(old(View()), ck, r.chains, current)
                        else old(View())
    {
      var cached := FindChains(ck);
      r := ChainBuilder.Build(req, snap, cached, resolveKey);
      if cached.None? && r.Chains? {
        StoreChains(ck, r.chains, current);
      }
    }
  }
}
