/** Which flushes leave nothing behind: the indexes from keys to cached DOTs, and the holdoff of namespaces. */
module Indexes {
  import opened Delegation
  import opened ChainBuilder
  import opened Resolution

  /** Every cached DOT is listed under its giver. */
  ghost predicate GiverIndexed(c: Cache) {
    forall h :: h in c.dots ==> h in At(c.from, c.dots[h].0.giver)
  }

  /** Every cached DOT is listed under its receiver. */
  ghost predicate ReceiverIndexed(c: Cache) {
    forall h :: h in c.dots ==> h in At(c.to, c.dots[h].0.receiver)
  }

  /** No chains are cached on a namespace that is held off. */
  ghost predicate HeldOff(c: Cache) {
    forall ns :: ns in c.holdoff ==> ns !in c.chains
  }

  /** Cached lists of chains are never empty, so that an answer is never taken for a miss. */
  ghost predicate NoEmptyAnswer(c: Cache) {
    forall ns, ck :: ns in c.chains && ck in c.chains[ns] ==> c.chains[ns][ck] != []
  }

  lemma CacheDotKeepsGiver(c: Cache, d: DOT, s: State)
    requires GiverIndexed(c)
    ensures GiverIndexed(CacheDot(c, d, s))
  {
  }

  lemma FlushEntityKeeps(c: Cache, vk: Key)
    requires GiverIndexed(c)
    ensures GiverIndexed(FlushEntity(c, vk))
    ensures ReceiverIndexed(c) ==> ReceiverIndexed(FlushEntity(c, vk))
  {
  }

  /** Flushing an entity leaves no cached DOT that it gave. */
  lemma FlushedGiver(c: Cache, vk: Key, h: Hash)
    requires GiverIndexed(c) && h in FlushEntity(c, vk).dots
    ensures FlushEntity(c, vk).dots[h].0.giver != vk
  {
    assert h in At(c.from, c.dots[h].0.giver);
  }

  /** Flushing an entity leaves no cached DOT granted to it, if those are indexed. */
  lemma FlushedReceiver(c: Cache, vk: Key, h: Hash)
    requires ReceiverIndexed(c) && h in FlushEntity(c, vk).dots
    ensures FlushEntity(c, vk).dots[h].0.receiver != vk
  {
    assert h in At(c.to, c.dots[h].0.receiver);
  }

  /** Caching a DOT lists it under its receiver exactly when it was listed there, or was not listed under its giver. */
  lemma CacheDotReceiver(c: Cache, d: DOT, s: State)
    ensures d.hash in At(CacheDot(c, d, s).to, d.receiver) <==>
      d.hash in At(c.to, d.receiver) || d.hash !in At(c.from, d.giver)
  {
  }

  /** So the receivers' index survives exactly those calls. */
  lemma CacheDotKeepsReceiver(c: Cache, d: DOT, s: State)
    requires ReceiverIndexed(c)
    ensures ReceiverIndexed(CacheDot(c, d, s)) <==>
      d.hash in At(c.to, d.receiver) || d.hash !in At(c.from, d.giver)
  {
    CacheDotReceiver(c, d, s);
    var r := CacheDot(c, d, s);
    assert d.hash in r.dots && r.dots[d.hash].0 == d;
  }

  /**
   * A DOT cached, flushed with its receiver, and cached again is no longer listed under the receiver: flushing
   * the receiver once more leaves it in the cache.
   */
  lemma ReceiverFlushMisses(d: DOT, s: State, t: State)
    requires d.giver != d.receiver
    ensures var c := CacheDot(FlushEntity(CacheDot(EMPTY, d, s), d.receiver), d, t);
      d.hash in FlushEntity(c, d.receiver).dots && FlushEntity(c, d.receiver).dots[d.hash] == (d, t)
  {
    var a := CacheDot(EMPTY, d, s);
    assert At(a.from, d.giver) == [] + [d.hash] && At(a.to, d.receiver) == [] + [d.hash];
    var b := FlushEntity(a, d.receiver);
    assert At(b.from, d.giver) == [d.hash] && At(b.to, d.receiver) == [];
    var c := CacheDot(b, d, t);
    assert At(c.to, d.receiver) == [] && At(c.from, d.receiver) == [];
  }

  /** Caching a DOT with each list checked on its own. */
  function CacheDotInBoth(c: Cache, d: DOT, s: State): (r: Cache) {
    var from, to := At(c.from, d.giver), At(c.to, d.receiver);
    c.(dots := c.dots[d.hash := (d, s)],
       from := if d.hash in from then c.from else c.from[d.giver := from + [d.hash]],
       to := if d.hash in to then c.to else c.to[d.receiver := to + [d.hash]])
  }

  /** That keeps both indexes, whatever came before. */
  lemma CacheDotInBothKeeps(c: Cache, d: DOT, s: State)
    ensures GiverIndexed(c) ==> GiverIndexed(CacheDotInBoth(c, d, s))
    ensures ReceiverIndexed(c) ==> ReceiverIndexed(CacheDotInBoth(c, d, s))
  {
  }

  lemma CacheChainsKeeps(c: Cache, ck: CacheKey, chains: seq<Chain>, current: nat)
    requires HeldOff(c) && NoEmptyAnswer(c)
    ensures HeldOff(CacheChains(c, ck, chains, current)) && NoEmptyAnswer(CacheChains(c, ck, chains, current))
  {
  }

  lemma FlushChainsKeeps(c: Cache, ns: Key, current: nat)
    requires HeldOff(c) && NoEmptyAnswer(c)
    ensures HeldOff(FlushChains(c, ns, current)) && NoEmptyAnswer(FlushChains(c, ns, current))
  {
  }
}
