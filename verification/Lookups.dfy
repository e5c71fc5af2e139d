/**
 * Lookups that go to the registry where the caches have no answer. The state of a DOT is that of the DOT itself, of its
 * giver and of its receiver, each as of the head of the chain and again some blocks before.
 */
module Lookups {
  import opened Delegation
  import opened RegistryLog
  import opened Resolution
  import opened Indexes

  /** Keys and DOTs past their expiry date. */
  datatype Clock = Clock(keys: set<Key>, dots: set<Hash>)

  ghost function EntityFromChain(reg: Registry, t: Clock, vk: Key): (s: State) {
    var s := EntityState(reg, vk);
    if s == Valid && vk in t.keys then Expired else s
  }

  /** The state of an entity, and the caches with it. */
  ghost function ReadEntity(c: Cache, reg: Registry, t: Clock, vk: Key): (r: (Cache, State)) {
    if vk in c.entities then (c, c.entities[vk])
    else
      var s := EntityFromChain(reg, t, vk);
      (if s == Unknown then c else CacheEntity(c, vk, s), s)
  }

  /** The state of a DOT that is not cached, and the caches with its entities. */
  ghost function ReadDot(c: Cache, reg: Registry, t: Clock, d: DOT): (r: (Cache, State)) {
    if DotState(reg, d) != Valid then (c, DotState(reg, d))
    else
      var (c1, s1) := ReadEntity(c, reg, t, d.giver);
      if s1 != Valid then (c1, s1)
      else
        var (c2, s2) := ReadEntity(c1, reg, t, d.receiver);
        (c2, if s2 == Valid && d.hash in t.dots then Expired else s2)
  }

  ghost function StoreDotIn(c: Cache, d: DOT, s: State, both: bool): (r: Cache) {
    if both then CacheDotInBoth(c, d, s) else CacheDot(c, d, s)
  }

  /** A lookup of a DOT; what is unknown is not stored. With `both` set, each list is looked at before it is added to. */
  ghost function LookUpDot(c: Cache, reg: Registry, t: Clock, d: DOT, both: bool): (r: Cache) {
    if d.hash in c.dots then c
    else
      var (e, s) := ReadDot(c, reg, t, d);
      if s == Unknown then e else StoreDotIn(e, d, s, both)
  }

  /** Nothing but the entities is changed. */
  predicate SameButEntities(c: Cache, r: Cache) {
    && r.dots == c.dots && r.from == c.from && r.to == c.to
    && r.chains == c.chains && r.complete == c.complete && r.holdoff == c.holdoff
  }

  /** Entities are added, and a valid one has not been revoked. */
  ghost predicate MoreEntities(a: map<Key, State>, b: map<Key, State>, reg: Registry) {
    && (forall vk :: vk in a ==> vk in b && b[vk] == a[vk])
    && (forall vk :: vk in b && vk !in a && b[vk] == Valid ==> !Happened(reg, |reg|, EntityRevocation(vk)))
  }

  predicate IsValid(m: map<Key, State>, vk: Key) {
    vk in m && m[vk] == Valid
  }

  lemma ReadEntityAdds(c: Cache, reg: Registry, t: Clock, vk: Key)
    ensures var (r, s) := ReadEntity(c, reg, t, vk);
      SameButEntities(c, r) && MoreEntities(c.entities, r.entities, reg) && (s == Valid ==> IsValid(r.entities, vk))
  {
    if vk !in c.entities {
      var s := EntityFromChain(reg, t, vk);
      EntityNotRevoked(reg, t, vk);
      OneMoreEntity(c.entities, reg, vk, s);
      assert SameButEntities(c, CacheEntity(c, vk, s));
    }
  }

  lemma EntityNotRevoked(reg: Registry, t: Clock, vk: Key)
    ensures EntityFromChain(reg, t, vk) == Valid ==> !Happened(reg, |reg|, EntityRevocation(vk))
  {
    LaggedStateIff(reg, NewEntity(vk), EntityRevocation(vk));
  }

  lemma OneMoreEntity(m: map<Key, State>, reg: Registry, vk: Key, s: State)
    requires vk !in m && (s == Valid ==> !Happened(reg, |reg|, EntityRevocation(vk)))
    ensures MoreEntities(m, m[vk := s], reg)
  {
    forall k | k in m[vk := s] && k !in m ensures k == vk {
    }
  }

  lemma ReadDotAdds(c: Cache, reg: Registry, t: Clock, d: DOT)
    ensures var (r, s) := ReadDot(c, reg, t, d);
      && SameButEntities(c, r) && MoreEntities(c.entities, r.entities, reg)
      && (s == Valid ==>
            !Happened(reg, |reg|, DOTRevocation(d.hash)) && IsValid(r.entities, d.giver) && IsValid(r.entities, d.receiver))
  {
    LaggedStateIff(reg, NewDOT(d), DOTRevocation(d.hash));
    ReadEntityAdds(c, reg, t, d.giver);
    ReadEntityAdds(ReadEntity(c, reg, t, d.giver).0, reg, t, d.receiver);
  }

  /** Nothing is added to the cached DOTs but d, and only if it, its giver and its receiver are valid as valid. */
  ghost predicate MoreDots(c: Cache, r: Cache, reg: Registry, d: DOT) {
    && (forall h :: h in c.dots ==> h in r.dots && r.dots[h] == c.dots[h])
    && (forall h :: h in r.dots && h !in c.dots ==> h == d.hash && r.dots[h].0 == d)
    && (d.hash in r.dots && d.hash !in c.dots && r.dots[d.hash].1 == Valid ==>
          !Happened(reg, |reg|, DOTRevocation(d.hash)) && IsValid(r.entities, d.giver) && IsValid(r.entities, d.receiver))
  }

  lemma Stored(c: Cache, d: DOT, s: State, both: bool)
    ensures var r := StoreDotIn(c, d, s, both); r.entities == c.entities && r.dots == c.dots[d.hash := (d, s)]
  {
  }

  lemma StoreAdds(c: Cache, e: Cache, reg: Registry, d: DOT, s: State, both: bool)
    requires SameButEntities(c, e) && d.hash !in c.dots
    requires s == Valid ==>
      !Happened(reg, |reg|, DOTRevocation(d.hash)) && IsValid(e.entities, d.giver) && IsValid(e.entities, d.receiver)
    ensures var r := StoreDotIn(e, d, s, both);
      && r.entities == e.entities && MoreDots(c, r, reg, d)
      && r.chains == c.chains && r.complete == c.complete && r.holdoff == c.holdoff
  {
    var r := StoreDotIn(e, d, s, both);
    Stored(e, d, s, both);
  }

  /** What a lookup of a DOT leaves alone, and what it may add. */
  lemma LookUpDotAdds(c: Cache, reg: Registry, t: Clock, d: DOT, both: bool)
    ensures var r := LookUpDot(c, reg, t, d, both);
      && r.chains == c.chains && r.complete == c.complete && r.holdoff == c.holdoff
      && MoreEntities(c.entities, r.entities, reg) && MoreDots(c, r, reg, d)
  {
    ReadDotAdds(c, reg, t, d);
    if d.hash !in c.dots {
      var (e, s) := ReadDot(c, reg, t, d);
      StoreAdds(c, e, reg, d, s, both);
    }
  }

  ghost predicate Indexed(c: Cache, both: bool) {
    GiverIndexed(c) && (both ==> ReceiverIndexed(c))
  }

  lemma LookUpDotIndexed(c: Cache, reg: Registry, t: Clock, d: DOT, both: bool)
    requires Indexed(c, both)
    ensures Indexed(LookUpDot(c, reg, t, d, both), both)
  {
    var (e, s) := ReadDot(c, reg, t, d);
    ReadDotAdds(c, reg, t, d);
    assert Indexed(e, both);
    if both {
      CacheDotInBothKeeps(e, d, s);
    } else {
      CacheDotKeepsGiver(e, d, s);
    }
  }

  // ---- states that are final ----

  /** Revoked or expired. */
  ghost predicate Gone(reg: Registry, t: Clock, vk: Key) {
    Happened(reg, |reg|, EntityRevocation(vk)) || vk in t.keys
  }

  /** The DOT, its giver or its receiver is revoked or expired. */
  ghost predicate Spoiled(reg: Registry, t: Clock, d: DOT) {
    Happened(reg, |reg|, DOTRevocation(d.hash)) || d.hash in t.dots || Gone(reg, t, d.giver) || Gone(reg, t, d.receiver)
  }

  /** Entities are cached once they are known, and as invalid only when they are gone. */
  ghost predicate EntitiesJudged(c: Cache, reg: Registry, t: Clock) {
    forall vk :: vk in c.entities ==> c.entities[vk] != Unknown && (c.entities[vk] == Valid || Gone(reg, t, vk))
  }

  /** A published DOT, in a state other than valid only when it is spoiled. */
  ghost predicate DotJudged(reg: Registry, t: Clock, h: Hash, d: DOT, s: State) {
    d.hash == h && Happened(reg, |reg|, NewDOT(d)) && (s == Valid || Spoiled(reg, t, d))
  }

  ghost predicate DotsJudged(c: Cache, reg: Registry, t: Clock) {
    forall h :: h in c.dots ==> DotJudged(reg, t, h, c.dots[h].0, c.dots[h].1)
  }

  ghost predicate Later(reg: Registry, t: Clock, reg': Registry, t': Clock) {
    reg <= reg' && t.keys <= t'.keys && t.dots <= t'.dots
  }

  lemma StillHappened(reg: Registry, reg': Registry, e: Event)
    requires reg <= reg' && Happened(reg, |reg|, e)
    ensures Happened(reg', |reg'|, e)
  {
    var g, i :| g < |reg| && EventAt(reg, g, i, e);
    assert EventAt(reg', g, i, e);
  }

  lemma GoneForGood(reg: Registry, t: Clock, reg': Registry, t': Clock, vk: Key)
    requires Later(reg, t, reg', t') && Gone(reg, t, vk)
    ensures Gone(reg', t', vk)
  {
    if vk !in t.keys {
      StillHappened(reg, reg', EntityRevocation(vk));
    }
  }

  lemma SpoiledForGood(reg: Registry, t: Clock, reg': Registry, t': Clock, d: DOT)
    requires Later(reg, t, reg', t') && Spoiled(reg, t, d)
    ensures Spoiled(reg', t', d)
  {
    if Gone(reg, t, d.giver) {
      GoneForGood(reg, t, reg', t', d.giver);
    } else if Gone(reg, t, d.receiver) {
      GoneForGood(reg, t, reg', t', d.receiver);
    } else if d.hash !in t.dots {
      StillHappened(reg, reg', DOTRevocation(d.hash));
    }
  }

  lemma JudgedForGood(reg: Registry, t: Clock, reg': Registry, t': Clock, h: Hash, d: DOT, s: State)
    requires Later(reg, t, reg', t') && DotJudged(reg, t, h, d, s)
    ensures DotJudged(reg', t', h, d, s)
  {
    StillHappened(reg, reg', NewDOT(d));
    if s != Valid {
      SpoiledForGood(reg, t, reg', t', d);
    }
  }

  lemma ReadEntityJudged(c: Cache, reg: Registry, t: Clock, vk: Key)
    requires EntitiesJudged(c, reg, t)
    ensures var (r, s) := ReadEntity(c, reg, t, vk);
      EntitiesJudged(r, reg, t) && (s == Valid || s == Unknown || Gone(reg, t, vk))
  {
    StateRevoked(reg, NewEntity(vk), EntityRevocation(vk));
  }

  lemma StateRevoked(reg: Registry, published: Event, revoked: Event)
    ensures var s := LaggedState(reg, published, revoked);
      (s == Valid || s == Unknown || Happened(reg, |reg|, revoked)) && (s != Unknown ==> Happened(reg, |reg|, published))
  {
    if Happened(reg, |reg| - LAG, revoked) {
      var g, i :| g < |reg| - LAG && EventAt(reg, g, i, revoked);
    }
  }

  lemma ReadDotJudged(c: Cache, reg: Registry, t: Clock, d: DOT)
    requires EntitiesJudged(c, reg, t)
    ensures var (r, s) := ReadDot(c, reg, t, d);
      EntitiesJudged(r, reg, t) && (s == Unknown || DotJudged(reg, t, d.hash, d, s))
  {
    StateRevoked(reg, NewDOT(d), DOTRevocation(d.hash));
    ReadEntityJudged(c, reg, t, d.giver);
    ReadEntityJudged(ReadEntity(c, reg, t, d.giver).0, reg, t, d.receiver);
  }

  lemma StoreJudged(c: Cache, reg: Registry, t: Clock, d: DOT, s: State, both: bool)
    requires EntitiesJudged(c, reg, t) && DotsJudged(c, reg, t) && DotJudged(reg, t, d.hash, d, s)
    ensures var r := StoreDotIn(c, d, s, both); EntitiesJudged(r, reg, t) && DotsJudged(r, reg, t)
  {
    var r := StoreDotIn(c, d, s, both);
    Stored(c, d, s, both);
    forall h | h in r.dots ensures DotJudged(reg, t, h, r.dots[h].0, r.dots[h].1) {
      assert h != d.hash ==> h in c.dots && r.dots[h] == c.dots[h];
    }
  }

  lemma LookUpDotJudged(c: Cache, reg: Registry, t: Clock, d: DOT, both: bool)
    requires EntitiesJudged(c, reg, t) && DotsJudged(c, reg, t)
    ensures var r := LookUpDot(c, reg, t, d, both); EntitiesJudged(r, reg, t) && DotsJudged(r, reg, t)
  {
    ReadDotJudged(c, reg, t, d);
    ReadDotAdds(c, reg, t, d);
    if d.hash !in c.dots {
      var (e, s) := ReadDot(c, reg, t, d);
      if s != Unknown {
        StoreJudged(e, reg, t, d, s, both);
      }
    }
  }

  lemma SeenLongAgo(reg: Registry, published: Event, revoked: Event)
    requires Happened(reg, |reg| - LAG, published)
    ensures LaggedState(reg, published, revoked) != Unknown
  {
    var g, i :| g < |reg| - LAG && EventAt(reg, g, i, published);
    assert Happened(reg, |reg|, published);
  }

  /** A DOT published some blocks ago after its entities is not unknown. */
  lemma KnownDot(c: Cache, reg: Registry, t: Clock, d: DOT)
    requires EntitiesJudged(c, reg, t) && Happened(reg, |reg| - LAG, NewDOT(d))
    requires Happened(reg, |reg| - LAG, NewEntity(d.giver)) && Happened(reg, |reg| - LAG, NewEntity(d.receiver))
    ensures ReadDot(c, reg, t, d).1 != Unknown
  {
    SeenLongAgo(reg, NewDOT(d), DOTRevocation(d.hash));
    SeenLongAgo(reg, NewEntity(d.giver), EntityRevocation(d.giver));
    SeenLongAgo(reg, NewEntity(d.receiver), EntityRevocation(d.receiver));
    ReadEntityJudged(c, reg, t, d.giver);
  }
}
