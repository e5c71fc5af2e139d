/**
 * Cached answers over whole runs, compared with a search of the registry itself: which chains a cached answer has at any
 * moment, and when it is the very list that a new search would return.
 */
module CachedAnswers {
  import opened Delegation
  import opened Search
  import opened ChainBuilder
  import opened ChainTheorems
  import opened CacheAgreement
  import opened RegistryLog
  import opened Resolution
  import opened Lookups
  import opened Staleness

  // ---- states in the caches and in the records of builds ----

  ghost predicate Judged(w: World) {
    EntitiesJudged(w.cache, w.registry, w.clock) && DotsJudged(w.cache, w.registry, w.clock)
  }

  predicate Fewer(c: Cache, r: Cache) {
    && (forall vk :: vk in r.entities ==> vk in c.entities && r.entities[vk] == c.entities[vk])
    && (forall h :: h in r.dots ==> h in c.dots && r.dots[h] == c.dots[h])
  }

  lemma CarryOutFewer(w: World, f: Flush)
    requires w.registry != []
    ensures Fewer(w.cache, CarryOut(w, f).cache)
  {
  }

  lemma FewerAfter(w: World, st: Step, both: bool)
    requires Running(w) && !st.LookupEntity? && !st.LookupDot?
    ensures var n := After(w, st, both); Fewer(w.cache, n.cache) && Later(w.registry, w.clock, n.registry, n.clock)
  {
    match st
    case Replay =>
      if w.pending != [] {
        CarryOutFewer(w, w.pending[0]);
      }
    case BuildFor(_, _, _, _) =>
      DotsLeft(w, st, both);
    case _ =>
  }

  lemma FewerJudged(w: World, n: World)
    requires Judged(w) && Fewer(w.cache, n.cache) && Later(w.registry, w.clock, n.registry, n.clock)
    ensures Judged(n)
  {
    forall vk | vk in n.cache.entities && n.cache.entities[vk] != Valid ensures Gone(n.registry, n.clock, vk) {
      GoneForGood(w.registry, w.clock, n.registry, n.clock, vk);
    }
    forall h | h in n.cache.dots ensures DotJudged(n.registry, n.clock, h, n.cache.dots[h].0, n.cache.dots[h].1) {
      JudgedForGood(w.registry, w.clock, n.registry, n.clock, h, w.cache.dots[h].0, w.cache.dots[h].1);
    }
  }

  lemma KeepsJudged(w: World, st: Step, both: bool)
    requires Running(w) && Judged(w)
    ensures Judged(After(w, st, both))
  {
    match st
    case LookupEntity(vk) =>
      ReadEntityJudged(w.cache, w.registry, w.clock, vk);
      ReadEntityAdds(w.cache, w.registry, w.clock, vk);
    case LookupDot(d) =>
      LookUpDotJudged(w.cache, w.registry, w.clock, d, both);
    case _ =>
      FewerAfter(w, st, both);
      FewerJudged(w, After(w, st, both));
  }

  /** The DOTs a build read are published, and those it did not find valid are spoiled. */
  ghost predicate RecordJudged(reg: Registry, t: Clock, b: Build) {
    && b.dots.Keys == HashesIn(b.lists)
    && forall h :: h in b.dots ==> b.dots[h].Found? && DotJudged(reg, t, h, b.dots[h].dot, b.dots[h].state)
  }

  ghost predicate RecordsJudged(w: World) {
    forall ck :: ck in w.builds ==> RecordJudged(w.registry, w.clock, w.builds[ck])
  }

  /** A DOT on a list that was read has been looked up, or would not be unknown if it were. */
  lemma ListedIsKnown(w: World, k: Key, h: Hash)
    requires Running(w) && Judged(w) && Lawful(w.registry) && k in w.cache.complete && Listed(w, k) && h in w.cache.complete[k]
    ensures h in w.cache.dots || !Unreadable(w, h)
  {
    var reg, n := w.registry, w.listedAt[k] - LAG + 1;
    var g, i := GrantsBeforeOnly(reg, k, n, h);
    var d := reg[g][i].dot;
    assert EventAt(reg, g, i, NewDOT(d));
    Sooner(reg, g + 1, |reg| - LAG, NewEntity(d.giver));
    Sooner(reg, g + 1, |reg| - LAG, NewEntity(d.receiver));
    KnownDot(w.cache, reg, w.clock, d);
  }

  lemma Sooner(reg: Registry, m: int, n: int, e: Event)
    requires Happened(reg, m, e) && m <= n
    ensures Happened(reg, n, e)
  {
  }

  lemma ReadJudged(w: World, ck: CacheKey, req: Request, keys: set<Key>, chains: seq<Chain>)
    requires Running(w) && Judged(w) && ListsExact(w) && Lawful(w.registry) && Builds(w, ck, req, keys, chains)
    ensures RecordJudged(w.registry, w.clock, ReadAll(w, req, keys))
  {
    var b := ReadAll(w, req, keys);
    forall h | h in b.dots ensures h in w.cache.dots {
      assert h in HashesIn(b.lists);
      var k :| k in b.lists && h in b.lists[k];
      ListedIsKnown(w, k, h);
    }
  }

  lemma LaterAfter(w: World, st: Step, both: bool)
    requires Running(w)
    ensures var n := After(w, st, both); Later(w.registry, w.clock, n.registry, n.clock)
  {
  }

  lemma RecordForGood(reg: Registry, t: Clock, reg': Registry, t': Clock, b: Build)
    requires Later(reg, t, reg', t') && RecordJudged(reg, t, b)
    ensures RecordJudged(reg', t', b)
  {
    forall h | h in b.dots ensures DotJudged(reg', t', h, b.dots[h].dot, b.dots[h].state) {
      JudgedForGood(reg, t, reg', t', h, b.dots[h].dot, b.dots[h].state);
    }
  }

  lemma KeepsRecords(w: World, st: Step, both: bool)
    requires Running(w) && Judged(w) && ListsExact(w) && Lawful(w.registry) && RecordsJudged(w) && Possible(w, st)
    ensures RecordsJudged(After(w, st, both))
  {
    var n := After(w, st, both);
    LaterAfter(w, st, both);
    forall ck | ck in n.builds ensures RecordJudged(n.registry, n.clock, n.builds[ck]) {
      if BuiltNow(w, st, ck) {
        ReadJudged(w, ck, st.req, st.keys, st.chains);
        RecordForGood(w.registry, w.clock, n.registry, n.clock, ReadAll(w, st.req, st.keys));
      } else {
        BuildKept(w, st, both, ck);
        RecordForGood(w.registry, w.clock, n.registry, n.clock, w.builds[ck]);
      }
    }
  }

  lemma NextJudged(w: World, st: Step, both: bool)
    requires Running(w) && ListsExact(w) && (Lawful(w.registry) ==> Judged(w) && RecordsJudged(w))
    ensures var n := Next(w, st, both); Lawful(n.registry) ==> Judged(n) && RecordsJudged(n)
  {
    var n := Next(w, st, both);
    if Lawful(n.registry) && Possible(w, st) {
      LaterAfter(w, st, both);
      LawfulBefore(w.registry, n.registry);
      KeepsJudged(w, st, both);
      KeepsRecords(w, st, both);
    }
  }

  lemma {:induction false} RunJudged(reg: Registry, steps: seq<Step>, both: bool)
    requires reg != []
    ensures var w := Run(Start(reg), steps, both); Lawful(w.registry) ==> Judged(w) && RecordsJudged(w)
    decreases |steps|
  {
    if steps != [] {
      var init := steps[..|steps| - 1];
      RunJudged(reg, init, both);
      RunLists(reg, init, both);
      NextJudged(Run(Start(reg), init, both), steps[|steps| - 1], both);
    }
  }

  // ---- snapshots of the registry ----

  /** Lists as they were some blocks before the given ones, with DOTs published and not found invalid unless spoiled. */
  ghost predicate Drawn(reg: Registry, t: Clock, snap: Snapshot, ages: map<Key, nat>) {
    && (forall k :: k in snap.grants ==>
          k in ages && ages[k] < |reg| && snap.grants[k] == GrantsBefore(reg, k, ages[k] - LAG + 1))
    && Complete(snap)
    && (forall h :: h in snap.dots ==> snap.dots[h].Found? && DotJudged(reg, t, h, snap.dots[h].dot, snap.dots[h].state))
  }

  /** Published where it can be seen from block n. */
  ghost predicate Visible(reg: Registry, n: int, d: DOT) {
    Happened(reg, n - LAG + 1, NewDOT(d))
  }

  /** In a lawful log a DOT is on the list of its giver and of nobody else, from when it can be seen. */
  lemma ListedIff(reg: Registry, k: Key, n: nat, d: DOT)
    requires Lawful(reg) && n < |reg| && Happened(reg, |reg|, NewDOT(d))
    ensures d.hash in GrantsBefore(reg, k, n - LAG + 1) <==> d.giver == k && Visible(reg, n, d)
  {
    if d.hash in GrantsBefore(reg, k, n - LAG + 1) {
      var g, i := GrantsBeforeOnly(reg, k, n - LAG + 1, d.hash);
      assert EventAt(reg, g, i, NewDOT(reg[g][i].dot));
      OneDotPerHash(reg, d, reg[g][i].dot);
    }
    if d.giver == k && Visible(reg, n, d) {
      var g, i :| g < n - LAG + 1 && EventAt(reg, g, i, NewDOT(d));
      GrantsBeforeAll(reg, n - LAG + 1, g, i);
    }
  }

  lemma LinkedIff(snap: Snapshot, k: Key, d: DOT)
    requires Complete(snap) && k in snap.grants
    requires forall h :: h in snap.dots && snap.dots[h].Found? ==> snap.dots[h].dot.hash == h
    ensures GrantedLinks(snap, k).Some?
    ensures Found(d, Valid) in GrantedLinks(snap, k).value <==>
      d.hash in snap.grants[k] && d.hash in snap.dots && snap.dots[d.hash] == Found(d, Valid)
  {
    assert GrantedLinks(snap, k).Some?;
    var list, links := snap.grants[k], GrantedLinks(snap, k).value;
    if Found(d, Valid) in links {
      var i :| 0 <= i < |links| && links[i] == Found(d, Valid);
      assert links[i] == snap.dots[list[i]];
    }
    if d.hash in list && d.hash in snap.dots && snap.dots[d.hash] == Found(d, Valid) {
      var i :| 0 <= i < |list| && list[i] == d.hash;
      assert links[i] == snap.dots[list[i]];
    }
  }

  lemma HashIff(reg: Registry, t: Clock, snap: Snapshot, ages: map<Key, nat>, k: Key, d: DOT)
    requires Lawful(reg) && Drawn(reg, t, snap, ages) && k in snap.grants
    ensures d.hash in snap.grants[k] && d.hash in snap.dots && snap.dots[d.hash] == Found(d, Valid) <==>
      d.giver == k && Visible(reg, ages[k], d) && d.hash in snap.dots && snap.dots[d.hash].state == Valid
  {
    if d.hash in snap.dots {
      if Visible(reg, ages[k], d) {
        Sooner(reg, ages[k] - LAG + 1, |reg|, NewDOT(d));
      }
      if Happened(reg, |reg|, NewDOT(d)) {
        ListedIff(reg, k, ages[k], d);
        OneDotPerHash(reg, d, snap.dots[d.hash].dot);
      }
    }
  }

  /** What the options of a key are, in terms of the log. */
  lemma OptionIff(reg: Registry, t: Clock, snap: Snapshot, ages: map<Key, nat>, req: Request, k: Key, d: DOT)
    requires Lawful(reg) && Drawn(reg, t, snap, ages) && k in snap.grants
    ensures d in GetOptions(req, snap, k) <==>
      && d.giver == k && DotUseful(req, d) && Visible(reg, ages[k], d)
      && d.hash in snap.dots && snap.dots[d.hash].state == Valid
  {
    OptionsIff(req, snap, k, d);
    LinkedIff(snap, k, d);
    HashIff(reg, t, snap, ages, k, d);
  }

  /** The key whose grants step i of a chain is one of. */
  function KeyAt(start: Key, c: Chain, i: nat): (k: Key)
    requires i <= |c|
  {
    if i == 0 then start else c[i - 1].receiver
  }

  ghost predicate Carries(req: Request, past: Snapshot, now: Snapshot, d: DOT) {
    forall k :: k in past.grants && k in now.grants && d in GetOptions(req, past, k) ==> d in GetOptions(req, now, k)
  }

  lemma {:induction false} StepCarried(req: Request, past: Snapshot, now: Snapshot, start: Key, c: Chain, i: nat)
    requires Granting(req, past, start, c) && start in now.grants && Closed(req, now, now.grants.Keys) && i < |c|
    requires forall j :: 0 <= j < |c| ==> Carries(req, past, now, c[j])
    ensures KeyAt(start, c, i) in now.grants && c[i] in GetOptions(req, now, KeyAt(start, c, i))
  {
    if i > 0 {
      StepCarried(req, past, now, start, c, i - 1);
      assert !IsTarget(req, c[i - 1].receiver);
    }
    assert c[i] in GetOptions(req, past, KeyAt(start, c, i));
    assert Carries(req, past, now, c[i]);
  }

  /** A chain granted in one snapshot is granted in another if each of its steps is. */
  lemma ChainCarried(req: Request, past: Snapshot, now: Snapshot, start: Key, c: Chain)
    requires Granting(req, past, start, c) && start in now.grants && Closed(req, now, now.grants.Keys)
    requires forall j :: 0 <= j < |c| ==> Carries(req, past, now, c[j])
    ensures Granting(req, now, start, c)
  {
    forall i | 0 <= i < |c| ensures c[i] in GetOptions(req, now, KeyAt(start, c, i)) {
      StepCarried(req, past, now, start, c, i);
    }
    assert c[0] in GetOptions(req, now, KeyAt(start, c, 0));
    forall i | 1 <= i < |c| ensures c[i] in GetOptions(req, now, c[i - 1].receiver) {
      assert KeyAt(start, c, i) == c[i - 1].receiver;
    }
  }

  // ---- what a cached answer has ----

  /** What a search of the registry sees now: lists and states of DOTs as they are. */
  ghost predicate Sees(w: World, now: Snapshot) {
    && w.registry != [] && Complete(now)
    && (forall k :: k in now.grants ==> now.grants[k] == GrantsBefore(w.registry, k, Current(w) - LAG + 1))
    && (forall h :: h in now.dots ==>
          && now.dots[h].Found? && now.dots[h].dot.hash == h && Happened(w.registry, |w.registry|, NewDOT(now.dots[h].dot))
          && (now.dots[h].state == Valid <==> !Spoiled(w.registry, w.clock, now.dots[h].dot)))
  }

  /** The list a build read of the DOT's giver was young enough for the DOT to be on it. */
  ghost predicate SeenBy(reg: Registry, b: Build, d: DOT) {
    d.giver in b.ages && Visible(reg, b.ages[d.giver], d)
  }

  function AllNow(w: World, now: Snapshot): (ages: map<Key, nat>)
    requires w.registry != []
  {
    map k | k in now.grants :: Current(w)
  }

  lemma NowDrawn(w: World, now: Snapshot)
    requires Sees(w, now)
    ensures Drawn(w.registry, w.clock, now, AllNow(w, now))
  {
  }

  lemma InHashes(lists: map<Key, seq<Hash>>, k: Key, h: Hash)
    requires k in lists && h in lists[k]
    ensures h in HashesIn(lists)
  {
  }

  lemma PastDrawn(w: World, b: Build)
    requires Running(w) && Recorded(w, b) && RecordJudged(w.registry, w.clock, b)
    ensures Drawn(w.registry, w.clock, Seen(b), b.ages)
  {
    forall k, i | k in b.lists && 0 <= i < |b.lists[k]| ensures b.lists[k][i] in b.dots {
      InHashes(b.lists, k, b.lists[k][i]);
    }
  }

  lemma PastIsNow(w: World, b: Build, now: Snapshot, d: DOT)
    requires Running(w) && Lawful(w.registry) && Recorded(w, b) && RecordJudged(w.registry, w.clock, b) && Sees(w, now)
    requires d.hash in now.dots && now.dots[d.hash].state == Valid
    ensures Carries(b.req, Seen(b), now, d)
  {
    forall k | k in b.lists && k in now.grants && d in GetOptions(b.req, Seen(b), k) ensures d in GetOptions(b.req, now, k) {
      PastDrawn(w, b);
      NowDrawn(w, now);
      OptionIff(w.registry, w.clock, Seen(b), b.ages, b.req, k, d);
      OptionIff(w.registry, w.clock, now, AllNow(w, now), b.req, k, d);
      Sooner(w.registry, b.ages[k] - LAG + 1, Current(w) - LAG + 1, NewDOT(d));
    }
  }

  lemma NowWasPast(w: World, b: Build, now: Snapshot, d: DOT)
    requires Running(w) && Lawful(w.registry) && Recorded(w, b) && RecordJudged(w.registry, w.clock, b) && Sees(w, now)
    requires SeenBy(w.registry, b, d)
    ensures Carries(b.req, now, Seen(b), d)
  {
    forall k | k in b.lists && k in now.grants && d in GetOptions(b.req, now, k) ensures d in GetOptions(b.req, Seen(b), k) {
      PastDrawn(w, b);
      NowDrawn(w, now);
      OptionIff(w.registry, w.clock, Seen(b), b.ages, b.req, k, d);
      OptionIff(w.registry, w.clock, now, AllNow(w, now), b.req, k, d);
      SeenValid(w, b, now, d);
    }
  }

  lemma SeenValid(w: World, b: Build, now: Snapshot, d: DOT)
    requires Running(w) && Lawful(w.registry) && Recorded(w, b) && RecordJudged(w.registry, w.clock, b) && Sees(w, now)
    requires SeenBy(w.registry, b, d) && d.giver in b.lists && d.hash in now.dots && now.dots[d.hash].state == Valid
    ensures d.hash in b.dots && b.dots[d.hash].state == Valid
  {
    var n := b.ages[d.giver];
    Sooner(w.registry, n - LAG + 1, |w.registry|, NewDOT(d));
    ListedIff(w.registry, d.giver, n, d);
    InHashes(b.lists, d.giver, d.hash);
    OneDotPerHash(w.registry, d, b.dots[d.hash].dot);
    OneDotPerHash(w.registry, d, now.dots[d.hash].dot);
  }

  /** What an answer has now, from what its build saw. */
  lemma AnswerHas(w: World, ck: CacheKey, b: Build, ans: seq<Chain>, now: Snapshot, c: Chain)
    requires Running(w) && Lawful(w.registry) && Recorded(w, b) && RecordJudged(w.registry, w.clock, b) && BuiltFrom(ck, b, ans)
    requires Sees(w, now) && ck.ns in now.grants && Closed(b.req, now, now.grants.Keys)
    ensures c in StillValid(now, ans) <==>
      c in BuildChains(b.req, now, ck.ns) && forall i :: 0 <= i < |c| ==> SeenBy(w.registry, b, c[i])
  {
    FilterMember((c: Chain) => ChainValid(now, c), ans, c);
    BuildExact(b.req, now, ck.ns, c);
    BuildExact(b.req, Seen(b), ck.ns, c);
    if c in ans && ChainValid(now, c) {
      KeptIsGranted(w, b, ck.ns, now, c);
    }
    if Granting(b.req, now, ck.ns, c) && forall i :: 0 <= i < |c| ==> SeenBy(w.registry, b, c[i]) {
      GrantedIsKept(w, b, ck.ns, now, c);
    }
  }

  lemma KeptIsGranted(w: World, b: Build, ns: Key, now: Snapshot, c: Chain)
    requires Running(w) && Lawful(w.registry) && Recorded(w, b) && RecordJudged(w.registry, w.clock, b)
    requires ns in b.lists && Closed(b.req, Seen(b), b.lists.Keys) && Granting(b.req, Seen(b), ns, c)
    requires Sees(w, now) && ns in now.grants && Closed(b.req, now, now.grants.Keys) && ChainValid(now, c)
    ensures Granting(b.req, now, ns, c) && forall i :: 0 <= i < |c| ==> SeenBy(w.registry, b, c[i])
  {
    forall i | 0 <= i < |c| ensures Carries(b.req, Seen(b), now, c[i]) {
      PastIsNow(w, b, now, c[i]);
    }
    ChainCarried(b.req, Seen(b), now, ns, c);
    PastDrawn(w, b);
    forall i | 0 <= i < |c| ensures SeenBy(w.registry, b, c[i]) {
      StepCarried(b.req, Seen(b), Seen(b), ns, c, i);
      OptionIff(w.registry, w.clock, Seen(b), b.ages, b.req, KeyAt(ns, c, i), c[i]);
    }
  }

  lemma GrantedIsKept(w: World, b: Build, ns: Key, now: Snapshot, c: Chain)
    requires Running(w) && Lawful(w.registry) && Recorded(w, b) && RecordJudged(w.registry, w.clock, b)
    requires ns in b.lists && Closed(b.req, Seen(b), b.lists.Keys) && Granting(b.req, now, ns, c)
    requires Sees(w, now) && ns in now.grants && Closed(b.req, now, now.grants.Keys)
    requires forall i :: 0 <= i < |c| ==> SeenBy(w.registry, b, c[i])
    ensures Granting(b.req, Seen(b), ns, c) && ChainValid(now, c)
  {
    forall i | 0 <= i < |c| ensures Carries(b.req, now, Seen(b), c[i]) {
      NowWasPast(w, b, now, c[i]);
    }
    ChainCarried(b.req, now, Seen(b), ns, c);
    NowDrawn(w, now);
    forall i | 0 <= i < |c| ensures c[i].hash in now.dots && now.dots[c[i].hash].state == Valid {
      StepCarried(b.req, now, now, ns, c, i);
      OptionIff(w.registry, w.clock, now, AllNow(w, now), b.req, KeyAt(ns, c, i), c[i]);
    }
  }

  /**
   * At any point of any run, a cached answer with what is no longer valid taken out has exactly those chains a search
   * of the registry would find all DOTs of which could be seen when the build's lists were read.
   */
  lemma AnswerIff(reg: Registry, steps: seq<Step>, both: bool, ck: CacheKey, now: Snapshot, c: Chain)
    requires reg != []
    requires var w := Run(Start(reg), steps, both);
      Lawful(w.registry) && Lookup(w.cache, ck).Some? && Sees(w, now) && ck.ns in now.grants
    requires var w := Run(Start(reg), steps, both);
      ck in w.builds ==> Closed(w.builds[ck].req, now, now.grants.Keys)
    ensures var w := Run(Start(reg), steps, both);
      && ck in w.builds && Asks(ck, w.builds[ck].req)
      && (c in StillValid(now, Lookup(w.cache, ck).value) <==>
            && c in BuildChains(w.builds[ck].req, now, ck.ns)
            && forall i :: 0 <= i < |c| ==> SeenBy(w.registry, w.builds[ck], c[i]))
  {
    var w := Run(Start(reg), steps, both);
    RunBuilds(reg, steps, both);
    RunJudged(reg, steps, both);
    AnswerHas(w, ck, w.builds[ck], Lookup(w.cache, ck).value, now, c);
  }

  // ---- when an answer is what a search returns ----

  /** The lists read have every DOT on the namespace that can be seen now. */
  ghost predicate MissedNone(w: World, ns: Key, b: Build) {
    forall g, i, d :: EventAt(w.registry, g, i, NewDOT(d)) && d.ns == ns && d.giver in b.lists && g + LAG <= Current(w) ==>
      ListedSince(b.ages, d.giver, g)
  }

  ghost predicate Ready(w: World, b: Build, now: Snapshot) {
    && Running(w) && Lawful(w.registry) && Recorded(w, b) && RecordJudged(w.registry, w.clock, b)
    && Sees(w, now) && b.lists.Keys <= now.grants.Keys
  }

  /** What a search sees now of the keys the build read. */
  function Cut(b: Build, now: Snapshot): (snap: Snapshot)
    requires b.lists.Keys <= now.grants.Keys
  {
    var lists := map k | k in b.lists :: now.grants[k];
    Snapshot(lists, map h | h in HashesIn(lists) && h in now.dots :: now.dots[h])
  }

  lemma {:induction false} FilterNone<T>(keep: T -> bool, list: seq<T>)
    requires forall x :: x in list ==> !keep(x)
    ensures Filter(keep, list) == []
    decreases |list|
  {
    if list != [] {
      var init, last := list[..|list| - 1], list[|list| - 1];
      assert last in list && forall x :: x in init ==> x in list;
      FilterNone(keep, init);
    }
  }

  lemma {:induction false} NothingNew(reg: Registry, k: Key, a: int, m: int, on: Hash -> bool)
    requires a <= m <= |reg|
    requires forall g, i, d :: a <= g < m && EventAt(reg, g, i, NewDOT(d)) && d.giver == k ==> !on(d.hash)
    ensures Filter(on, GrantsBefore(reg, k, m)) == Filter(on, GrantsBefore(reg, k, a))
    decreases m
  {
    if a < m && m > 0 {
      NothingNew(reg, k, a, m - 1, on);
      forall h | h in GrantsIn(reg[m - 1], k) ensures !on(h) {
        var i := GrantsInOnly(reg[m - 1], k, h);
        assert EventAt(reg, m - 1, i, NewDOT(reg[m - 1][i].dot));
      }
      FilterNone(on, GrantsIn(reg[m - 1], k));
      FilterConcat(on, GrantsBefore(reg, k, m - 1), GrantsIn(reg[m - 1], k));
    }
  }

  /** A hash on a list the build read stands for the same DOT now. */
  lemma SameDot(w: World, b: Build, now: Snapshot, k: Key, h: Hash)
    requires Ready(w, b, now) && k in b.lists && h in b.lists[k]
    ensures h in b.dots && h in Cut(b, now).grants[k] && h in Cut(b, now).dots && Cut(b, now).dots[h] == now.dots[h]
    ensures now.dots[h].dot == b.dots[h].dot && (now.dots[h].state == Valid ==> b.dots[h].state == Valid)
  {
    InHashes(b.lists, k, h);
    ListedStill(w.registry, k, b.ages[k], Current(w), b.dots[h].dot);
    CutHas(w, b, now, k, h);
    OneDotPerHash(w.registry, b.dots[h].dot, now.dots[h].dot);
  }

  lemma ListedStill(reg: Registry, k: Key, m: nat, n: nat, d: DOT)
    requires Lawful(reg) && m <= n < |reg| && Happened(reg, |reg|, NewDOT(d)) && d.hash in GrantsBefore(reg, k, m - LAG + 1)
    ensures d.hash in GrantsBefore(reg, k, n - LAG + 1)
  {
    ListedIff(reg, k, m, d);
    Sooner(reg, m - LAG + 1, n - LAG + 1, NewDOT(d));
    ListedIff(reg, k, n, d);
  }

  lemma CutHas(w: World, b: Build, now: Snapshot, k: Key, h: Hash)
    requires Ready(w, b, now) && k in b.lists && h in now.grants[k]
    ensures h in Cut(b, now).grants[k] && h in Cut(b, now).dots && h in now.dots && Cut(b, now).dots[h] == now.dots[h]
  {
    InHashes(Cut(b, now).grants, k, h);
    var i :| 0 <= i < |now.grants[k]| && now.grants[k][i] == h;
  }

  lemma SameGrants(w: World, ns: Key, b: Build, now: Snapshot, k: Key)
    requires Ready(w, b, now) && MissedNone(w, ns, b)
    ensures NamespaceGrants(Cut(b, now), ns, k) == NamespaceGrants(Seen(b), ns, k)
  {
    if k in b.lists {
      NewerIsElsewhere(w, ns, b, now, k);
      OlderIsSame(w, ns, b, now, k);
    }
  }

  lemma NewerIsElsewhere(w: World, ns: Key, b: Build, now: Snapshot, k: Key)
    requires Ready(w, b, now) && MissedNone(w, ns, b) && k in b.lists
    ensures NamespaceGrants(Cut(b, now), ns, k) == Filter(h => OnNamespace(Cut(b, now), ns, h), b.lists[k])
  {
    var cut := Cut(b, now);
    var on := (h: Hash) => OnNamespace(cut, ns, h);
    var a, m := b.ages[k] - LAG + 1, Current(w) - LAG + 1;
    forall g, i, d | a <= g < m && EventAt(w.registry, g, i, NewDOT(d)) && d.giver == k ensures !on(d.hash) {
      NewIsElsewhere(w, ns, b, now, g, i, d);
    }
    NothingNew(w.registry, k, a, m, on);
    assert GrantsBy(cut, k) == GrantsBefore(w.registry, k, m);
  }

  lemma OlderIsSame(w: World, ns: Key, b: Build, now: Snapshot, k: Key)
    requires Ready(w, b, now) && k in b.lists
    ensures Filter(h => OnNamespace(Cut(b, now), ns, h), b.lists[k]) == NamespaceGrants(Seen(b), ns, k)
  {
    var cut, past := Cut(b, now), Seen(b);
    var on, was := (h: Hash) => OnNamespace(cut, ns, h), (h: Hash) => OnNamespace(past, ns, h);
    forall h | h in b.lists[k] ensures on(h) == was(h) {
      SameDot(w, b, now, k, h);
    }
    FilterSame(on, was, b.lists[k]);
  }

  lemma NewIsElsewhere(w: World, ns: Key, b: Build, now: Snapshot, g: int, i: int, d: DOT)
    requires Ready(w, b, now) && MissedNone(w, ns, b) && d.giver in b.lists
    requires EventAt(w.registry, g, i, NewDOT(d)) && b.ages[d.giver] < g + LAG <= Current(w)
    ensures !OnNamespace(Cut(b, now), ns, d.hash)
  {
    var cut := Cut(b, now);
    if d.hash in cut.dots {
      OneDotPerHash(w.registry, d, now.dots[d.hash].dot);
    }
  }

  lemma CutShrunk(w: World, ns: Key, b: Build, now: Snapshot)
    requires Ready(w, b, now) && MissedNone(w, ns, b)
    ensures OnlyShrunk(ns, Seen(b), Cut(b, now))
  {
    var past, cut := Seen(b), Cut(b, now);
    PastDrawn(w, b);
    forall k, i | k in cut.grants && 0 <= i < |cut.grants[k]| ensures cut.grants[k][i] in cut.dots {
      CutHas(w, b, now, k, cut.grants[k][i]);
    }
    forall k ensures NamespaceGrants(cut, ns, k) == NamespaceGrants(past, ns, k) {
      SameGrants(w, ns, b, now, k);
    }
    forall h | OnNamespace(cut, ns, h)
      ensures h in past.dots && cut.dots[h].dot == past.dots[h].dot && (cut.dots[h].state == Valid ==> past.dots[h].state == Valid)
    {
      var k := OnPastList(w, ns, b, now, h);
      SameDot(w, b, now, k, h);
    }
  }

  lemma OnPastList(w: World, ns: Key, b: Build, now: Snapshot, h: Hash) returns (k: Key)
    requires Ready(w, b, now) && MissedNone(w, ns, b) && OnNamespace(Cut(b, now), ns, h)
    ensures k in b.lists && h in b.lists[k]
  {
    var past, cut := Seen(b), Cut(b, now);
    assert h in HashesIn(cut.grants);
    k :| k in cut.grants && h in cut.grants[k];
    SameGrants(w, ns, b, now, k);
    FilterMember(x => OnNamespace(cut, ns, x), GrantsBy(cut, k), h);
    FilterMember(x => OnNamespace(past, ns, x), GrantsBy(past, k), h);
  }

  lemma SameLinks(a: Snapshot, b: Snapshot, k: Key)
    requires k in a.grants && k in b.grants && a.grants[k] == b.grants[k]
    requires forall i :: 0 <= i < |a.grants[k]| ==>
      a.grants[k][i] in a.dots && a.grants[k][i] in b.dots && a.dots[a.grants[k][i]] == b.dots[a.grants[k][i]]
    ensures GrantedLinks(a, k) == GrantedLinks(b, k)
  {
    assert GrantedLinks(a, k).Some? && GrantedLinks(b, k).Some?;
    assert GrantedLinks(a, k).value == GrantedLinks(b, k).value;
  }

  lemma CutOptions(w: World, b: Build, now: Snapshot, k: Key)
    requires Ready(w, b, now) && k in b.lists
    ensures GetOptions(b.req, now, k) == GetOptions(b.req, Cut(b, now), k)
  {
    var cut, list := Cut(b, now), now.grants[k];
    forall i | 0 <= i < |list| ensures list[i] in cut.dots && list[i] in now.dots && cut.dots[list[i]] == now.dots[list[i]] {
      CutHas(w, b, now, k, list[i]);
    }
    SameLinks(now, cut, k);
  }

  lemma CutClosed(w: World, ns: Key, b: Build, now: Snapshot)
    requires Ready(w, b, now) && MissedNone(w, ns, b) && b.req.ns == ns && Closed(b.req, Seen(b), b.lists.Keys)
    ensures Closed(b.req, Cut(b, now), b.lists.Keys)
  {
    var cut := Cut(b, now);
    CutShrunk(w, ns, b, now);
    forall k, d | k in b.lists && d in GetOptions(b.req, cut, k) ensures IsTarget(b.req, d.receiver) || d.receiver in b.lists {
      OptionsShrunk(b.req, Seen(b), cut, k);
      FilterMember(x => ValidNow(cut, x), GetOptions(b.req, Seen(b), k), d);
    }
  }

  lemma CutFilters(w: World, ck: CacheKey, b: Build, ans: seq<Chain>, now: Snapshot)
    requires Ready(w, b, now) && BuiltFrom(ck, b, ans)
    ensures StillValid(Cut(b, now), ans) == StillValid(now, ans)
  {
    var cut := Cut(b, now);
    forall c: Chain | c in ans ensures ChainValid(cut, c) == ChainValid(now, c) {
      BuildExact(b.req, Seen(b), ck.ns, c);
      CutKeeps(w, b, ck.ns, now, c);
    }
    FilterSame((c: Chain) => ChainValid(cut, c), (c: Chain) => ChainValid(now, c), ans);
  }

  lemma CutKeeps(w: World, b: Build, ns: Key, now: Snapshot, c: Chain)
    requires Ready(w, b, now) && ns in b.lists && Closed(b.req, Seen(b), b.lists.Keys) && Granting(b.req, Seen(b), ns, c)
    ensures ChainValid(Cut(b, now), c) == ChainValid(now, c)
  {
    var cut := Cut(b, now);
    forall i | 0 <= i < |c|
      ensures c[i].hash in cut.dots && c[i].hash in now.dots && cut.dots[c[i].hash] == now.dots[c[i].hash]
    {
      StepOnList(w, b, ns, c, i);
      SameDot(w, b, now, KeyAt(ns, c, i), c[i].hash);
    }
    SameStates(cut, now, c);
  }

  lemma SameStates(a: Snapshot, b: Snapshot, c: Chain)
    requires forall i :: 0 <= i < |c| ==> c[i].hash in a.dots && c[i].hash in b.dots && a.dots[c[i].hash] == b.dots[c[i].hash]
    ensures ChainValid(a, c) == ChainValid(b, c)
  {
  }

  lemma StepOnList(w: World, b: Build, ns: Key, c: Chain, i: nat)
    requires Running(w) && Lawful(w.registry) && Recorded(w, b) && RecordJudged(w.registry, w.clock, b)
    requires ns in b.lists && Closed(b.req, Seen(b), b.lists.Keys) && Granting(b.req, Seen(b), ns, c) && i < |c|
    ensures KeyAt(ns, c, i) in b.lists && c[i].hash in b.lists[KeyAt(ns, c, i)]
  {
    PastDrawn(w, b);
    StepCarried(b.req, Seen(b), Seen(b), ns, c, i);
    OptionsIff(b.req, Seen(b), KeyAt(ns, c, i), c[i]);
    LinkedIff(Seen(b), KeyAt(ns, c, i), c[i]);
  }

  lemma AnswerIs(w: World, ck: CacheKey, b: Build, ans: seq<Chain>, now: Snapshot)
    requires Ready(w, b, now) && MissedNone(w, ck.ns, b) && BuiltFrom(ck, b, ans)
    ensures StillValid(now, ans) == BuildChains(b.req, now, ck.ns)
  {
    var cut := Cut(b, now);
    CutShrunk(w, ck.ns, b, now);
    CacheAgrees(b.req, Seen(b), cut, ck.ns);
    CutFilters(w, ck, b, ans, now);
    CutClosed(w, ck.ns, b, now);
    forall k | k in b.lists ensures GetOptions(b.req, now, k) == GetOptions(b.req, cut, k) {
      CutOptions(w, b, now, k);
    }
    ClosedSearch(b.req, cut, now, b.lists.Keys, ck.ns);
  }

  /**
   * In every run with no flush pending, if no DOT on the namespace came into sight since the last check, a cached answer
   * with what is no longer valid taken out is the very list that a search of the registry would return.
   */
  lemma AnswerIsSearch(reg: Registry, steps: seq<Step>, both: bool, ck: CacheKey, now: Snapshot)
    requires reg != []
    requires var w := Run(Start(reg), steps, both);
      w.pending == [] && Lawful(w.registry) && Lookup(w.cache, ck).Some? && Sees(w, now) && NoneSince(w, ck.ns)
    requires var w := Run(Start(reg), steps, both);
      ck in w.builds ==> w.builds[ck].lists.Keys <= now.grants.Keys
    ensures var w := Run(Start(reg), steps, both);
      && ck in w.builds && Asks(ck, w.builds[ck].req)
      && StillValid(now, Lookup(w.cache, ck).value) == BuildChains(w.builds[ck].req, now, ck.ns)
  {
    var w := Run(Start(reg), steps, both);
    RunBuilds(reg, steps, both);
    RunJudged(reg, steps, both);
    BuildMissedNone(w, ck);
    AnswerIs(w, ck, w.builds[ck], Lookup(w.cache, ck).value, now);
  }

  /** Every DOT on the namespace that can be seen from the head could be seen from the block of the last check. */
  ghost predicate NoneSince(w: World, ns: Key) {
    forall g, i, d :: EventAt(w.registry, g, i, NewDOT(d)) && d.ns == ns && g + LAG <= Current(w) ==> g + LAG <= w.lastblock
  }

  lemma BuildMissedNone(w: World, ck: CacheKey)
    requires Running(w) && w.pending == [] && ChainsFresh(w) && NoneSince(w, ck.ns) && Lookup(w.cache, ck).Some? && ck in w.builds
    ensures MissedNone(w, ck.ns, w.builds[ck])
  {
    var b := w.builds[ck];
    forall g, i, d | EventAt(w.registry, g, i, NewDOT(d)) && d.ns == ck.ns && d.giver in b.lists && g + LAG <= Current(w)
      ensures ListedSince(b.ages, d.giver, g)
    {
      assert FreshOf(w, ck, g, d);
    }
  }
}
