/**
 * The registry contract: which keys and DOTs it takes, what it revokes, and the events it leaves in the log. Signatures
 * are checked by the chain itself: unpacked objects and the right to revoke are parameters, and so is the time of a block.
 */
module Contract {
  import opened Delegation
  import opened RegistryLog

  /** An expiry of zero is none. */
  datatype EntityEntry = EntityEntry(validity: State, expiry: nat)
  datatype DotEntry = DotEntry(dot: DOT, validity: State, expiry: nat)

  datatype Ledger = Ledger(
    entities: map<Key, EntityEntry>, dots: map<Hash, DotEntry>, from: map<Key, seq<Hash>>, log: Registry)

  function EntityOf(s: Ledger, vk: Key): (e: EntityEntry) {
    if vk in s.entities then s.entities[vk] else EntityEntry(Unknown, 0)
  }

  function GrantedBy(s: Ledger, k: Key): (r: seq<Hash>) {
    if k in s.from then s.from[k] else []
  }

  // ---- what each call does ----

  predicate Over(expiry: nat, now: nat) {
    expiry != 0 && expiry < now
  }

  function Emit(log: Registry, e: Event): (r: Registry)
    requires log != []
    ensures |r| == |log|
  {
    log[..|log| - 1] + [log[|log| - 1] + [e]]
  }

  function CheckEntity(s: Ledger, vk: Key, now: nat): (r: Ledger) {
    var e := EntityOf(s, vk);
    if e.validity == Valid && Over(e.expiry, now) then s.(entities := s.entities[vk := e.(validity := Expired)]) else s
  }

  function CheckDot(s: Ledger, h: Hash, now: nat): (r: Ledger) {
    if h in s.dots && s.dots[h].validity == Valid && Over(s.dots[h].expiry, now)
    then s.(dots := s.dots[h := s.dots[h].(validity := Expired)]) else s
  }

  function AddEntity(s: Ledger, vk: Key, expiry: nat, now: nat): (r: Ledger)
    requires s.log != []
  {
    if EntityOf(s, vk).validity != Unknown || !(expiry == 0 || expiry > now) then s
    else s.(entities := s.entities[vk := EntityEntry(Valid, expiry)], log := Emit(s.log, NewEntity(vk)))
  }

  /** The sooner of two expiries, the first of which may be none. */
  function SoonerExpiry(a: nat, b: nat): (r: nat) {
    if a == 0 || (b != 0 && b < a) then b else a
  }

  function CheckBoth(s: Ledger, d: DOT, now: nat): (r: Ledger) {
    CheckEntity(CheckEntity(s, d.giver, now), d.receiver, now)
  }

  function PutDot(s: Ledger, d: DOT, expiry: nat): (r: Ledger)
    requires s.log != []
  {
    s.(dots := s.dots[d.hash := DotEntry(d, Valid, expiry)], from := s.from[d.giver := GrantedBy(s, d.giver) + [d.hash]],
       log := Emit(s.log, NewDOT(d)))
  }

  function AddDot(s: Ledger, d: DOT, expiry: nat, now: nat): (r: Ledger)
    requires s.log != []
  {
    var c := CheckBoth(s, d, now);
    var from, to := EntityOf(c, d.giver), EntityOf(c, d.receiver);
    var until := SoonerExpiry(SoonerExpiry(expiry, from.expiry), to.expiry);
    if from.validity != Valid || to.validity != Valid || d.hash in c.dots || !(until == 0 || until > now) then c
    else PutDot(c, d, until)
  }

  function RevokeEntity(s: Ledger, vk: Key, may: bool, now: nat): (r: Ledger)
    requires s.log != []
  {
    var c := CheckEntity(s, vk, now);
    var e := EntityOf(c, vk);
    if e.validity != Valid || !may then c
    else c.(entities := c.entities[vk := e.(validity := Revoked)], log := Emit(c.log, EntityRevocation(vk)))
  }

  function RevokeDot(s: Ledger, h: Hash, may: bool, now: nat): (r: Ledger)
    requires s.log != []
  {
    var c := CheckDot(s, h, now);
    if h !in c.dots || c.dots[h].validity != Valid then c
    else
      var b := CheckBoth(c, c.dots[h].dot, now);
      if !may then b
      else b.(dots := b.dots[h := c.dots[h].(validity := Revoked)], log := Emit(b.log, DOTRevocation(h)))
  }

  function NextBlock(s: Ledger): (r: Ledger) {
    s.(log := s.log + [[]])
  }

  // ---- the log says it all ----

  /** A key is unknown until it is published, and revoked exactly by its revocation. */
  ghost predicate EntityLogged(s: Ledger, vk: Key) {
    var v := EntityOf(s, vk).validity;
    && v != Error && (v != Unknown <==> Happened(s.log, |s.log|, NewEntity(vk)))
    && (v == Revoked <==> Happened(s.log, |s.log|, EntityRevocation(vk)))
  }

  ghost predicate DotLogged(s: Ledger, h: Hash) {
    && (h in s.dots ==>
          && s.dots[h].dot.hash == h && s.dots[h].validity != Unknown && s.dots[h].validity != Error
          && Happened(s.log, |s.log|, NewDOT(s.dots[h].dot)))
    && (h in s.dots && s.dots[h].validity == Revoked <==> Happened(s.log, |s.log|, DOTRevocation(h)))
  }

  ghost predicate Sound(s: Ledger) {
    && s.log != [] && Lawful(s.log)
    && (forall vk :: EntityLogged(s, vk)) && (forall h :: DotLogged(s, h))
    && (forall d :: Happened(s.log, |s.log|, NewDOT(d)) ==> d.hash in s.dots)
    && (forall k :: GrantedBy(s, k) == GrantsBefore(s.log, k, |s.log|))
  }

  lemma EmittedAt(log: Registry, e: Event, g: int, i: int, x: Event)
    requires log != []
    ensures EventAt(Emit(log, e), g, i, x) <==> EventAt(log, g, i, x) || (x == e && g == |log| - 1 && i == |log[|log| - 1]|)
  {
    var r := Emit(log, e);
    assert forall b :: 0 <= b < |log| - 1 ==> r[b] == log[b];
    assert r[|log| - 1] == log[|log| - 1] + [e];
  }

  lemma EmittedBefore(log: Registry, e: Event, n: int, x: Event)
    requires log != [] && n <= |log|
    ensures Happened(Emit(log, e), n, x) <==> Happened(log, n, x) || (x == e && n == |log|)
  {
    if Happened(Emit(log, e), n, x) {
      var g, i :| g < n && EventAt(Emit(log, e), g, i, x);
      EmittedAt(log, e, g, i, x);
    }
    if Happened(log, n, x) {
      var g, i :| g < n && EventAt(log, g, i, x);
      EmittedAt(log, e, g, i, x);
    }
    if x == e && n == |log| {
      EmittedAt(log, e, |log| - 1, |log[|log| - 1]|, x);
    }
  }

  lemma EmittedGrants(log: Registry, e: Event, k: Key)
    requires log != []
    ensures GrantsBefore(Emit(log, e), k, |log|) ==
            GrantsBefore(log, k, |log|) + if e.NewDOT? && e.dot.giver == k then [e.dot.hash] else []
  {
    var init, last := log[..|log| - 1], log[|log| - 1];
    GrantsBeforeSame(init, log, k, |init|);
    GrantsBeforeSame(init, Emit(log, e), k, |init|);
    OneMoreEvent(last, e, k);
  }

  /** Events other than new DOTs keep the log lawful and the lists of grants as they are. */
  lemma EmittedLawful(log: Registry, e: Event)
    requires log != [] && Lawful(log)
    requires e.NewDOT? ==> Happened(log, |log|, NewEntity(e.dot.giver)) && Happened(log, |log|, NewEntity(e.dot.receiver))
    requires e.NewDOT? ==> forall d :: Happened(log, |log|, NewDOT(d)) ==> d.hash != e.dot.hash
    ensures Lawful(Emit(log, e))
  {
    var r := Emit(log, e);
    forall g, i, d | EventAt(r, g, i, NewDOT(d))
      ensures Happened(r, g + 1, NewEntity(d.giver)) && Happened(r, g + 1, NewEntity(d.receiver))
    {
      EmittedAt(log, e, g, i, NewDOT(d));
      EmittedBefore(log, e, g + 1, NewEntity(d.giver));
      EmittedBefore(log, e, g + 1, NewEntity(d.receiver));
    }
    forall g, i, d, h, j, x | EventAt(r, g, i, NewDOT(d)) && EventAt(r, h, j, NewDOT(x)) && d.hash == x.hash
      ensures g == h && i == j
    {
      EmittedAt(log, e, g, i, NewDOT(d));
      EmittedAt(log, e, h, j, NewDOT(x));
      assert EventAt(log, g, i, NewDOT(d)) ==> Happened(log, |log|, NewDOT(d));
      assert EventAt(log, h, j, NewDOT(x)) ==> Happened(log, |log|, NewDOT(x));
    }
  }

  lemma EntityStillLogged(s: Ledger, r: Ledger, e: Event, vk: Key)
    requires s.log != [] && EntityLogged(s, vk) && r.log == Emit(s.log, e) && EntityOf(r, vk) == EntityOf(s, vk)
    requires e != NewEntity(vk) && e != EntityRevocation(vk)
    ensures EntityLogged(r, vk)
  {
    EmittedBefore(s.log, e, |s.log|, NewEntity(vk));
    EmittedBefore(s.log, e, |s.log|, EntityRevocation(vk));
  }

  lemma DotStillLogged(s: Ledger, r: Ledger, e: Event, h: Hash)
    requires s.log != [] && DotLogged(s, h) && r.log == Emit(s.log, e) && e != DOTRevocation(h)
    requires (h in r.dots <==> h in s.dots) && (h in s.dots ==> r.dots[h] == s.dots[h])
    ensures DotLogged(r, h)
  {
    EmittedBefore(s.log, e, |s.log|, DOTRevocation(h));
    if h in s.dots {
      EmittedBefore(s.log, e, |s.log|, NewDOT(s.dots[h].dot));
    }
  }

  /** An event about a key. */
  lemma EntityEvent(s: Ledger, r: Ledger, vk: Key, entry: EntityEntry, e: Event)
    requires Sound(s) && r == s.(entities := s.entities[vk := entry], log := Emit(s.log, e))
    requires (e == NewEntity(vk) && EntityOf(s, vk).validity == Unknown && entry.validity == Valid) ||
      (e == EntityRevocation(vk) && EntityOf(s, vk).validity == Valid && entry.validity == Revoked)
    ensures Sound(r)
  {
    EmittedLawful(s.log, e);
    forall k ensures EntityLogged(r, k) {
      assert EntityLogged(s, k);
      if k == vk {
        EmittedBefore(s.log, e, |s.log|, NewEntity(k));
        EmittedBefore(s.log, e, |s.log|, EntityRevocation(k));
      } else {
        EntityStillLogged(s, r, e, k);
      }
    }
    forall h ensures DotLogged(r, h) {
      DotStillLogged(s, r, e, h);
    }
    forall d | Happened(r.log, |r.log|, NewDOT(d)) ensures d.hash in r.dots {
      EmittedBefore(s.log, e, |s.log|, NewDOT(d));
    }
    forall k ensures GrantedBy(r, k) == GrantsBefore(r.log, k, |r.log|) {
      EmittedGrants(s.log, e, k);
      assert GrantedBy(s, k) == GrantsBefore(s.log, k, |s.log|);
    }
  }

  lemma CheckEntitySound(s: Ledger, vk: Key, now: nat)
    requires Sound(s)
    ensures Sound(CheckEntity(s, vk, now))
  {
    var r := CheckEntity(s, vk, now);
    forall k ensures EntityLogged(r, k) {
      assert EntityLogged(s, k);
    }
    forall h ensures DotLogged(r, h) {
      assert DotLogged(s, h);
    }
    forall k ensures GrantedBy(r, k) == GrantsBefore(r.log, k, |r.log|) {
      assert GrantedBy(s, k) == GrantsBefore(s.log, k, |s.log|);
    }
  }

  lemma CheckDotSound(s: Ledger, h: Hash, now: nat)
    requires Sound(s)
    ensures Sound(CheckDot(s, h, now))
  {
    var r := CheckDot(s, h, now);
    forall k ensures EntityLogged(r, k) {
      assert EntityLogged(s, k);
    }
    forall x ensures DotLogged(r, x) {
      assert DotLogged(s, x);
    }
    forall k ensures GrantedBy(r, k) == GrantsBefore(r.log, k, |r.log|) {
      assert GrantedBy(s, k) == GrantsBefore(s.log, k, |s.log|);
    }
  }

  lemma CheckBothSound(s: Ledger, d: DOT, now: nat)
    requires Sound(s)
    ensures Sound(CheckBoth(s, d, now)) && CheckBoth(s, d, now).log == s.log && CheckBoth(s, d, now).dots == s.dots
  {
    CheckEntitySound(s, d.giver, now);
    CheckEntitySound(CheckEntity(s, d.giver, now), d.receiver, now);
  }

  lemma PutDotSound(s: Ledger, d: DOT, expiry: nat)
    requires Sound(s) && d.hash !in s.dots && EntityOf(s, d.giver).validity == Valid && EntityOf(s, d.receiver).validity == Valid
    ensures Sound(PutDot(s, d, expiry))
  {
    var r, e := PutDot(s, d, expiry), NewDOT(d);
    assert EntityLogged(s, d.giver) && EntityLogged(s, d.receiver);
    EmittedLawful(s.log, e);
    forall k ensures EntityLogged(r, k) {
      EntityStillLogged(s, r, e, k);
    }
    forall h ensures DotLogged(r, h) {
      assert DotLogged(s, h);
      if h == d.hash {
        EmittedBefore(s.log, e, |s.log|, e);
        EmittedBefore(s.log, e, |s.log|, DOTRevocation(h));
      } else {
        DotStillLogged(s, r, e, h);
      }
    }
    forall x | Happened(r.log, |r.log|, NewDOT(x)) ensures x.hash in r.dots {
      EmittedBefore(s.log, e, |s.log|, NewDOT(x));
    }
    forall k ensures GrantedBy(r, k) == GrantsBefore(r.log, k, |r.log|) {
      EmittedGrants(s.log, e, k);
      assert GrantedBy(s, k) == GrantsBefore(s.log, k, |s.log|);
    }
  }

  lemma DotRevoked(s: Ledger, r: Ledger, h: Hash)
    requires Sound(s) && h in s.dots && s.dots[h].validity == Valid
    requires r == s.(dots := s.dots[h := s.dots[h].(validity := Revoked)], log := Emit(s.log, DOTRevocation(h)))
    ensures Sound(r)
  {
    var e := DOTRevocation(h);
    EmittedLawful(s.log, e);
    forall k ensures EntityLogged(r, k) {
      EntityStillLogged(s, r, e, k);
    }
    forall x ensures DotLogged(r, x) {
      assert DotLogged(s, x);
      if x == h {
        EmittedBefore(s.log, e, |s.log|, e);
        EmittedBefore(s.log, e, |s.log|, NewDOT(s.dots[h].dot));
      } else {
        DotStillLogged(s, r, e, x);
      }
    }
    forall x | Happened(r.log, |r.log|, NewDOT(x)) ensures x.hash in r.dots {
      EmittedBefore(s.log, e, |s.log|, NewDOT(x));
    }
    forall k ensures GrantedBy(r, k) == GrantsBefore(r.log, k, |r.log|) {
      EmittedGrants(s.log, e, k);
      assert GrantedBy(s, k) == GrantsBefore(s.log, k, |s.log|);
    }
  }

  lemma NextBlockSound(s: Ledger)
    requires Sound(s)
    ensures Sound(NextBlock(s))
  {
    var r := NextBlock(s);
    forall e ensures Happened(r.log, |r.log|, e) <==> Happened(s.log, |s.log|, e) {
      EmptyBlock(s.log, |r.log|, e);
    }
    forall k ensures EntityLogged(r, k) {
      assert EntityLogged(s, k);
    }
    forall h ensures DotLogged(r, h) {
      assert DotLogged(s, h);
    }
    forall k ensures GrantedBy(r, k) == GrantsBefore(r.log, k, |r.log|) {
      GrantsBeforeSame(s.log, r.log, k, |s.log|);
      assert GrantsIn(r.log[|s.log|], k) == [];
      assert GrantedBy(s, k) == GrantsBefore(s.log, k, |s.log|);
    }
    EmptyLawful(s.log);
  }

  lemma EmptyBlock(log: Registry, n: int, e: Event)
    ensures Happened(log + [[]], n, e) <==> Happened(log, n, e)
  {
    forall g, i ensures EventAt(log + [[]], g, i, e) <==> EventAt(log, g, i, e) {
    }
  }

  lemma EmptyLawful(log: Registry)
    requires Lawful(log)
    ensures Lawful(log + [[]])
  {
    var r := log + [[]];
    forall g, i, d | EventAt(r, g, i, NewDOT(d))
      ensures Happened(r, g + 1, NewEntity(d.giver)) && Happened(r, g + 1, NewEntity(d.receiver))
    {
      assert EventAt(log, g, i, NewDOT(d));
      EmptyBlock(log, g + 1, NewEntity(d.giver));
      EmptyBlock(log, g + 1, NewEntity(d.receiver));
    }
    forall g, i, d, h, j, e | EventAt(r, g, i, NewDOT(d)) && EventAt(r, h, j, NewDOT(e)) && d.hash == e.hash
      ensures g == h && i == j
    {
      assert EventAt(log, g, i, NewDOT(d)) && EventAt(log, h, j, NewDOT(e));
    }
  }

  // ---- over every sequence of calls ----

  datatype Call =
    | AddsEntity(vk: Key, expiry: nat, now: nat)
    | AddsDot(d: DOT, expiry: nat, now: nat)
    | RevokesEntity(vk: Key, may: bool, now: nat)
    | RevokesDot(hash: Hash, may: bool, now: nat)
    | EndsBlock

  function Do(s: Ledger, c: Call): (r: Ledger)
    requires s.log != []
    ensures r.log != []
  {
    match c
    case AddsEntity(vk, expiry, now) => AddEntity(s, vk, expiry, now)
    case AddsDot(d, expiry, now) => AddDot(s, d, expiry, now)
    case RevokesEntity(vk, may, now) => RevokeEntity(s, vk, may, now)
    case RevokesDot(h, may, now) => RevokeDot(s, h, may, now)
    case EndsBlock => NextBlock(s)
  }

  lemma DoSound(s: Ledger, c: Call)
    requires Sound(s)
    ensures Sound(Do(s, c))
  {
    match c
    case AddsEntity(vk, expiry, now) =>
      var r := AddEntity(s, vk, expiry, now);
      if r != s {
        EntityEvent(s, r, vk, EntityEntry(Valid, expiry), NewEntity(vk));
      }
    case AddsDot(d, expiry, now) =>
      CheckBothSound(s, d, now);
      var b := CheckBoth(s, d, now);
      if AddDot(s, d, expiry, now) != b {
        PutDotSound(b, d, SoonerExpiry(SoonerExpiry(expiry, EntityOf(b, d.giver).expiry), EntityOf(b, d.receiver).expiry));
      }
    case RevokesEntity(vk, may, now) =>
      CheckEntitySound(s, vk, now);
      var b := CheckEntity(s, vk, now);
      var r := RevokeEntity(s, vk, may, now);
      if r != b {
        EntityEvent(b, r, vk, EntityOf(b, vk).(validity := Revoked), EntityRevocation(vk));
      }
    case RevokesDot(h, may, now) =>
      CheckDotSound(s, h, now);
      var b := CheckDot(s, h, now);
      if h in b.dots && b.dots[h].validity == Valid {
        CheckBothSound(b, b.dots[h].dot, now);
        if may {
          DotRevoked(CheckBoth(b, b.dots[h].dot, now), RevokeDot(s, h, may, now), h);
        }
      }
    case EndsBlock => NextBlockSound(s);
  }

  function Deployed(): (s: Ledger) {
    Ledger(map[], map[], map[], [[]])
  }

  function Calls(calls: seq<Call>): (s: Ledger)
    ensures s.log != []
  {
    if calls == [] then Deployed() else Do(Calls(calls[..|calls| - 1]), calls[|calls| - 1])
  }

  /** Whatever is called, the log is lawful, and it says of every key and DOT what the contract does. */
  lemma {:induction false} CallsSound(calls: seq<Call>)
    ensures Sound(Calls(calls))
    decreases |calls|
  {
    if calls == [] {
      assert forall g, i, e :: !EventAt([[]], g, i, e);
    } else {
      CallsSound(calls[..|calls| - 1]);
      DoSound(Calls(calls[..|calls| - 1]), calls[|calls| - 1]);
    }
  }

  /** What the log says of a key is its state in the contract, expiry aside. */
  lemma EntityStateLogged(s: Ledger, vk: Key)
    requires Sound(s) && EntityOf(s, vk).validity != Expired
    ensures StateAt(s.log, |s.log|, NewEntity(vk), EntityRevocation(vk)) == EntityOf(s, vk).validity
  {
    assert EntityLogged(s, vk);
  }

  lemma DotStateLogged(s: Ledger, d: DOT)
    requires Sound(s) && Happened(s.log, |s.log|, NewDOT(d)) && d.hash in s.dots && s.dots[d.hash].validity != Expired
    ensures s.dots[d.hash].dot == d && StateAt(s.log, |s.log|, NewDOT(d), DOTRevocation(d.hash)) == s.dots[d.hash].validity
  {
    assert DotLogged(s, d.hash);
    OneDotPerHash(s.log, d, s.dots[d.hash].dot);
  }

  // ---- the contract in place ----

  class RegistryContract {
    var entities: map<Key, EntityEntry>
    var dots: map<Hash, DotEntry>
    var dotFromVK: map<Key, seq<Hash>>
    var log: Registry

    ghost function View(): (s: Ledger)
      reads this
    {
      Ledger(entities, dots, dotFromVK, log)
    }

    constructor ()
      ensures View() == Deployed()
    {
      entities, dots, dotFromVK, log := map[], map[], map[], [[]];
    }

    function EntityAt(vk: Key): (e: EntityEntry)
      reads this
      ensures e == EntityOf(View(), vk)
    {
      if vk in entities then entities[vk] else EntityEntry(Unknown, 0)
    }

    method Log(e: Event)
      requires log != []
      modifies this`log
      ensures log == Emit(old(log), e)
    {
      log := log[..|log| - 1] + [log[|log| - 1] + [e]];
    }

    method Expire(vk: Key, now: nat)
      modifies this`entities
      ensures View() == CheckEntity(old(View()), vk, now)
    {
      var e := EntityAt(vk);
      if e.validity != Valid {
        return;
      }
      if e.expiry != 0 && e.expiry < now {
        entities := entities[vk := e.(validity := Expired)];
      }
    }

    method ExpireDot(h: Hash, now: nat)
      modifies this`dots
      ensures View() == CheckDot(old(View()), h, now)
    {
      if h !in dots || dots[h].validity != Valid {
        return;
      }
      if dots[h].expiry != 0 && dots[h].expiry < now {
        dots := dots[h := dots[h].(validity := Expired)];
      }
    }

    method PublishEntity(vk: Key, expiry: nat, now: nat)
      requires log != []
      modifies this
      ensures View() == AddEntity(old(View()), vk, expiry, now)
    {
      if EntityAt(vk).validity != Unknown {
        return;
      }
      if expiry == 0 || expiry > now {
        entities := entities[vk := EntityEntry(Valid, expiry)];
        Log(NewEntity(vk));
      }
    }

    method PublishDot(d: DOT, expiry: nat, now: nat)
      requires log != []
      modifies this
      ensures View() == AddDot(old(View()), d, expiry, now)
    {
      Expire(d.giver, now);
      Expire(d.receiver, now);
      if EntityAt(d.giver).validity != Valid || EntityAt(d.receiver).validity != Valid {
        return;
      }
      if d.hash in dots {
        return;
      }
      var minExpiry, from, to := expiry, EntityAt(d.giver).expiry, EntityAt(d.receiver).expiry;
      if minExpiry == 0 || (from != 0 && from < minExpiry) {
        minExpiry := from;
      }
      if minExpiry == 0 || (to != 0 && to < minExpiry) {
        minExpiry := to;
      }
      if minExpiry == 0 || minExpiry > now {
        dots := dots[d.hash := DotEntry(d, Valid, minExpiry)];
        dotFromVK := dotFromVK[d.giver := (if d.giver in dotFromVK then dotFromVK[d.giver] else []) + [d.hash]];
        Log(NewDOT(d));
      }
    }

    method Revoke(vk: Key, may: bool, now: nat)
      requires log != []
      modifies this
      ensures View() == RevokeEntity(old(View()), vk, may, now)
    {
      Expire(vk, now);
      if EntityAt(vk).validity != Valid || !may {
        return;
      }
      entities := entities[vk := EntityAt(vk).(validity := Revoked)];
      Log(EntityRevocation(vk));
    }

    method RevokeTheDot(h: Hash, may: bool, now: nat)
      requires log != []
      modifies this
      ensures View() == RevokeDot(old(View()), h, may, now)
    {
      ExpireDot(h, now);
      if h !in dots || dots[h].validity != Valid {
        return;
      }
      Expire(dots[h].dot.giver, now);
      Expire(dots[h].dot.receiver, now);
      if !may {
        return;
      }
      dots := dots[h := dots[h].(validity := Revoked)];
      Log(DOTRevocation(h));
    }
  }
}
