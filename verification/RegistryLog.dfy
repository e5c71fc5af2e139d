/** The registry as an append-only log of events in blocks, and the flushes its replay calls for. */
module RegistryLog {
  import opened Delegation

  /** Blocks by which reads of the registry lag behind its head. */
  const LAG: nat := 5
  /** Blocks before the last checked one whose events are replayed. */
  const REPLAY: nat := 30

  datatype Event = NewDOT(dot: DOT) | DOTRevocation(hash: Hash) | NewEntity(vk: Key) | EntityRevocation(vk: Key)

  /** The events of each block. */
  type Registry = seq<seq<Event>>

  datatype Flush = OfGranted(vk: Key) | OfChains(ns: Key, block: nat) | OfDot(hash: Hash) | OfEntity(vk: Key)

  function FlushesOf(e: Event, block: nat): (r: seq<Flush>) {
    match e
    case NewDOT(d) => [OfGranted(d.giver), OfChains(d.ns, block), OfDot(d.hash)]
    case DOTRevocation(h) => [OfDot(h)]
    case NewEntity(vk) => [OfEntity(vk)]
    case EntityRevocation(vk) => [OfEntity(vk)]
  }

  function BlockFlushes(events: seq<Event>, block: nat): (r: seq<Flush>) {
    if events == [] then [] else BlockFlushes(events[..|events| - 1], block) + FlushesOf(events[|events| - 1], block)
  }

  /** The flushes for the events of the blocks from lo to the last one before hi. */
  function ReplayOf(reg: Registry, lo: int, hi: nat): (r: seq<Flush>)
    requires hi <= |reg|
    decreases hi
  {
    if hi == 0 || hi <= lo then [] else ReplayOf(reg, lo, hi - 1) + BlockFlushes(reg[hi - 1], hi - 1)
  }

  lemma {:induction false} BlockFlushesAll(events: seq<Event>, block: nat, i: nat, f: Flush)
    requires i < |events| && f in FlushesOf(events[i], block)
    ensures f in BlockFlushes(events, block)
    decreases |events|
  {
    if i < |events| - 1 {
      BlockFlushesAll(events[..|events| - 1], block, i, f);
    }
  }

  lemma {:induction false} ReplayAll(reg: Registry, lo: int, hi: nat, g: nat, i: nat, f: Flush)
    requires lo <= g < hi <= |reg| && i < |reg[g]| && f in FlushesOf(reg[g][i], g)
    ensures f in ReplayOf(reg, lo, hi)
    decreases hi
  {
    if g < hi - 1 {
      ReplayAll(reg, lo, hi - 1, g, i, f);
    } else {
      BlockFlushesAll(reg[g], g, i, f);
    }
  }

  lemma {:induction false} BlockFlushesBlock(events: seq<Event>, block: nat, f: Flush)
    requires f in BlockFlushes(events, block) && f.OfChains?
    ensures f.block == block
    decreases |events|
  {
    if f !in FlushesOf(events[|events| - 1], block) {
      BlockFlushesBlock(events[..|events| - 1], block, f);
    }
  }

  lemma {:induction false} ReplayBlocks(reg: Registry, lo: int, hi: nat, f: Flush)
    requires hi <= |reg| && f in ReplayOf(reg, lo, hi) && f.OfChains?
    ensures f.block < hi
    decreases hi
  {
    if f in BlockFlushes(reg[hi - 1], hi - 1) {
      BlockFlushesBlock(reg[hi - 1], hi - 1, f);
    } else {
      ReplayBlocks(reg, lo, hi - 1, f);
    }
  }

  /** The first two flushes of a new DOT come one right after the other. */
  predicate Awaits(fs: seq<Flush>, vk: Key, ns: Key, block: nat) {
    exists p :: 0 <= p < |fs| - 1 && fs[p] == OfGranted(vk) && fs[p + 1] == OfChains(ns, block)
  }

  lemma AwaitsLeft(a: seq<Flush>, b: seq<Flush>, vk: Key, ns: Key, block: nat)
    requires Awaits(a, vk, ns, block)
    ensures Awaits(a + b, vk, ns, block)
  {
    var p :| 0 <= p < |a| - 1 && a[p] == OfGranted(vk) && a[p + 1] == OfChains(ns, block);
    assert (a + b)[p] == a[p] && (a + b)[p + 1] == a[p + 1];
  }

  lemma AwaitsRight(a: seq<Flush>, b: seq<Flush>, vk: Key, ns: Key, block: nat)
    requires Awaits(b, vk, ns, block)
    ensures Awaits(a + b, vk, ns, block)
  {
    var p :| 0 <= p < |b| - 1 && b[p] == OfGranted(vk) && b[p + 1] == OfChains(ns, block);
    assert (a + b)[|a| + p] == b[p] && (a + b)[|a| + p + 1] == b[p + 1];
  }

  lemma {:induction false} BlockAwaits(events: seq<Event>, block: nat, i: nat)
    requires i < |events| && events[i].NewDOT?
    ensures Awaits(BlockFlushes(events, block), events[i].dot.giver, events[i].dot.ns, block)
    decreases |events|
  {
    var init, last, d := events[..|events| - 1], events[|events| - 1], events[i].dot;
    if i < |events| - 1 {
      BlockAwaits(init, block, i);
      AwaitsLeft(BlockFlushes(init, block), FlushesOf(last, block), d.giver, d.ns, block);
    } else {
      assert FlushesOf(last, block)[0] == OfGranted(d.giver) && FlushesOf(last, block)[1] == OfChains(d.ns, block);
      AwaitsRight(BlockFlushes(init, block), FlushesOf(last, block), d.giver, d.ns, block);
    }
  }

  lemma {:induction false} ReplayAwaits(reg: Registry, lo: int, hi: nat, g: nat, i: nat)
    requires lo <= g < hi <= |reg| && i < |reg[g]| && reg[g][i].NewDOT?
    ensures Awaits(ReplayOf(reg, lo, hi), reg[g][i].dot.giver, reg[g][i].dot.ns, g)
    decreases hi
  {
    var d, before, block := reg[g][i].dot, ReplayOf(reg, lo, hi - 1), BlockFlushes(reg[hi - 1], hi - 1);
    if g < hi - 1 {
      ReplayAwaits(reg, lo, hi - 1, g, i);
      AwaitsLeft(before, block, d.giver, d.ns, g);
    } else {
      BlockAwaits(reg[g], g, i);
      AwaitsRight(before, block, d.giver, d.ns, g);
    }
  }

  // ---- reading the registry ----

  predicate EventAt(reg: Registry, g: int, i: int, e: Event) {
    0 <= g < |reg| && 0 <= i < |reg[g]| && reg[g][i] == e
  }

  /** The event is in one of the first n blocks. */
  ghost predicate Happened(reg: Registry, n: int, e: Event) {
    exists g, i :: g < n && EventAt(reg, g, i, e)
  }

  /** The state of what an event publishes and another one revokes, as of the first n blocks. */
  ghost function StateAt(reg: Registry, n: int, published: Event, revoked: Event): (s: State) {
    if !Happened(reg, n, published) then Unknown else if Happened(reg, n, revoked) then Revoked else Valid
  }

  /** As of the head; but what is valid must have been so some blocks before. */
  ghost function LaggedState(reg: Registry, published: Event, revoked: Event): (s: State) {
    var s := StateAt(reg, |reg|, published, revoked);
    if s == Valid then StateAt(reg, |reg| - LAG, published, revoked) else s
  }

  ghost function EntityState(reg: Registry, vk: Key): (s: State) {
    LaggedState(reg, NewEntity(vk), EntityRevocation(vk))
  }

  ghost function DotState(reg: Registry, d: DOT): (s: State) {
    LaggedState(reg, NewDOT(d), DOTRevocation(d.hash))
  }

  /** Valid exactly if published long enough ago and never revoked. */
  lemma LaggedStateIff(reg: Registry, published: Event, revoked: Event)
    ensures LaggedState(reg, published, revoked) == Valid <==>
      Happened(reg, |reg| - LAG, published) && !Happened(reg, |reg|, revoked)
    ensures LaggedState(reg, published, revoked) != Expired && LaggedState(reg, published, revoked) != Error
  {
    if Happened(reg, |reg| - LAG, published) {
      var g, i :| g < |reg| - LAG && EventAt(reg, g, i, published);
      assert Happened(reg, |reg|, published);
    }
    if Happened(reg, |reg| - LAG, revoked) {
      var g, i :| g < |reg| - LAG && EventAt(reg, g, i, revoked);
      assert Happened(reg, |reg|, revoked);
    }
  }

  function GrantsIn(events: seq<Event>, k: Key): (r: seq<Hash>) {
    if events == [] then []
    else
      var rest := GrantsIn(events[..|events| - 1], k);
      var e := events[|events| - 1];
      if e.NewDOT? && e.dot.giver == k then rest + [e.dot.hash] else rest
  }

  /** The hashes of the DOTs a key has granted in the first n blocks. */
  function GrantsBefore(reg: Registry, k: Key, n: int): (r: seq<Hash>)
    requires n <= |reg|
    decreases n
  {
    if n <= 0 then [] else GrantsBefore(reg, k, n - 1) + GrantsIn(reg[n - 1], k)
  }

  lemma OneMoreEvent(events: seq<Event>, e: Event, k: Key)
    ensures GrantsIn(events + [e], k) == GrantsIn(events, k) + if e.NewDOT? && e.dot.giver == k then [e.dot.hash] else []
  {
    assert (events + [e])[..|events|] == events;
  }

  lemma {:induction false} GrantsInAll(events: seq<Event>, i: nat)
    requires i < |events| && events[i].NewDOT?
    ensures events[i].dot.hash in GrantsIn(events, events[i].dot.giver)
    decreases |events|
  {
    if i < |events| - 1 {
      GrantsInAll(events[..|events| - 1], i);
    }
  }

  lemma {:induction false} GrantsBeforeAll(reg: Registry, n: int, g: nat, i: nat)
    requires g < n <= |reg| && i < |reg[g]| && reg[g][i].NewDOT?
    ensures reg[g][i].dot.hash in GrantsBefore(reg, reg[g][i].dot.giver, n)
    decreases n
  {
    if g < n - 1 {
      GrantsBeforeAll(reg, n - 1, g, i);
    } else {
      GrantsInAll(reg[g], i);
    }
  }

  lemma {:induction false} GrantsInOnly(events: seq<Event>, k: Key, h: Hash) returns (i: nat)
    requires h in GrantsIn(events, k)
    ensures i < |events| && events[i].NewDOT? && events[i].dot.giver == k && events[i].dot.hash == h
    decreases |events|
  {
    var init, e := events[..|events| - 1], events[|events| - 1];
    if h in GrantsIn(init, k) {
      i := GrantsInOnly(init, k, h);
    } else {
      i := |events| - 1;
    }
  }

  lemma {:induction false} GrantsBeforeOnly(reg: Registry, k: Key, n: int, h: Hash) returns (g: nat, i: nat)
    requires n <= |reg| && h in GrantsBefore(reg, k, n)
    ensures g < n && i < |reg[g]| && reg[g][i].NewDOT? && reg[g][i].dot.giver == k && reg[g][i].dot.hash == h
    decreases n
  {
    if h in GrantsBefore(reg, k, n - 1) {
      g, i := GrantsBeforeOnly(reg, k, n - 1, h);
    } else {
      g := n - 1;
      i := GrantsInOnly(reg[n - 1], k, h);
    }
  }

  lemma {:induction false} GrantsBeforeSame(reg: Registry, more: Registry, k: Key, n: int)
    requires n <= |reg| && reg <= more
    ensures GrantsBefore(more, k, n) == GrantsBefore(reg, k, n)
    decreases n
  {
    if n > 0 {
      GrantsBeforeSame(reg, more, k, n - 1);
    }
  }

  /** The grants of a key as read from the registry, one index at a time up to the first missing or zero hash. */
  method ResolveDOTsFromVK(reg: Registry, k: Key) returns (rv: seq<Hash>)
    ensures var all := GrantsBefore(reg, k, |reg| - LAG);
      rv <= all && 0 !in rv && (rv == all || all[|rv|] == 0)
  {
    var state := GrantsBefore(reg, k, |reg| - LAG);
    rv := [];
    var i := 0;
    while true
      invariant 0 <= i <= |state| && rv == state[..i] && 0 !in rv
      decreases |state| - i
    {
      if i >= |state| {
        return;
      }
      var hash := state[i];
      if hash == 0 {
        return;
      }
      rv := rv + [hash];
      i := i + 1;
    }
  }

  // ---- logs the contract writes ----

  /** No DOT is published twice, nor before its giver and its receiver. */
  ghost predicate Lawful(reg: Registry) {
    && (forall g, i, d :: EventAt(reg, g, i, NewDOT(d)) ==>
          Happened(reg, g + 1, NewEntity(d.giver)) && Happened(reg, g + 1, NewEntity(d.receiver)))
    && (forall g, i, d, h, j, e :: EventAt(reg, g, i, NewDOT(d)) && EventAt(reg, h, j, NewDOT(e)) && d.hash == e.hash ==>
          g == h && i == j)
  }

  lemma HappenedBefore(reg: Registry, more: Registry, n: int, e: Event)
    requires reg <= more && n <= |reg|
    ensures Happened(more, n, e) <==> Happened(reg, n, e)
  {
    if Happened(more, n, e) {
      var g, i :| g < n && EventAt(more, g, i, e);
      assert EventAt(reg, g, i, e);
    }
    if Happened(reg, n, e) {
      var g, i :| g < n && EventAt(reg, g, i, e);
      assert EventAt(more, g, i, e);
    }
  }

  lemma LawfulBefore(reg: Registry, more: Registry)
    requires reg <= more && Lawful(more)
    ensures Lawful(reg)
  {
    forall g, i, d | EventAt(reg, g, i, NewDOT(d))
      ensures Happened(reg, g + 1, NewEntity(d.giver)) && Happened(reg, g + 1, NewEntity(d.receiver))
    {
      assert EventAt(more, g, i, NewDOT(d));
      HappenedBefore(reg, more, g + 1, NewEntity(d.giver));
      HappenedBefore(reg, more, g + 1, NewEntity(d.receiver));
    }
    forall g, i, d, h, j, e | EventAt(reg, g, i, NewDOT(d)) && EventAt(reg, h, j, NewDOT(e)) && d.hash == e.hash
      ensures g == h && i == j
    {
      assert EventAt(more, g, i, NewDOT(d)) && EventAt(more, h, j, NewDOT(e));
    }
  }

  /** In a lawful log a hash stands for one DOT. */
  lemma OneDotPerHash(reg: Registry, d: DOT, e: DOT)
    requires Lawful(reg) && Happened(reg, |reg|, NewDOT(d)) && Happened(reg, |reg|, NewDOT(e)) && d.hash == e.hash
    ensures d == e
  {
    var g, i :| g < |reg| && EventAt(reg, g, i, NewDOT(d));
    var h, j :| h < |reg| && EventAt(reg, h, j, NewDOT(e));
  }
}
