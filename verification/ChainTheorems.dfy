/** What building chains finds: exactly the granting paths, each once, the same with and without the cache. */
module ChainTheorems {
  import opened Options
  import opened Patterns
  import opened Restriction
  import opened Intersection
  import opened PatternOrder
  import opened Covering
  import opened Delegation
  import opened Search
  import opened ChainBuilder

  /**
   * A path of useful DOTs from the start key, each granted by the receiver of the one before, that reaches the
   * target with its last DOT and not earlier, has hops enough and restricts to some pattern.
   */
  ghost predicate Granting(req: Request, snap: Snapshot, start: Key, chain: Chain) {
    && chain != []
    && chain[0] in GetOptions(req, snap, start)
    && (forall i :: 1 <= i < |chain| ==> chain[i] in GetOptions(req, snap, chain[i - 1].receiver))
    && (forall i :: 0 <= i < |chain| - 1 ==> !IsTarget(req, chain[i].receiver))
    && IsTarget(req, chain[|chain| - 1].receiver)
    && |chain| <= 256 && (forall i :: 0 <= i < |chain| ==> chain[i].ttl >= |chain| - 1 - i)
    && FoldSuffix(chain).Some?
  }

  /** The useful DOTs among what a key has granted. */
  lemma OptionsIff(req: Request, snap: Snapshot, k: Key, d: DOT)
    ensures d in GetOptions(req, snap, k) <==>
      GrantedLinks(snap, k).Some? && Found(d, Valid) in GrantedLinks(snap, k).value && DotUseful(req, d)
  {
    if GrantedLinks(snap, k).Some? {
      UsefulDotsMember(req, GrantedLinks(snap, k).value, d);
    }
  }

  // ---- scenarios as chains ----

  predicate Proper(s: Scenario) {
    s.chain != [] && FoldSuffix(s.chain) == Some(s.suffix) && TTL(s.chain) >= 0
  }

  predicate Allowed(c: Chain) {
    c == [] || (FoldSuffix(c).Some? && TTL(c) >= 0)
  }

  function LastReceiver(c: Chain): (k: Key) {
    if c == [] then EVERYBODY else c[|c| - 1].receiver
  }

  function ChainReading(req: Request, snap: Snapshot): (r: Reading<Scenario, DOT>) {
    Reading((s: Scenario) => s.chain, Proper, (c: Chain) => GetOptions(req, snap, LastReceiver(c)),
            (c: Chain) => IsTarget(req, LastReceiver(c)), Allowed)
  }

  lemma ExtendProper(s: Scenario, d: DOT)
    requires Proper(s)
    ensures AddAndClone(s, d).Some? <==> Allowed(s.chain + [d])
    ensures AddAndClone(s, d).Some? ==>
      Proper(AddAndClone(s, d).value) && AddAndClone(s, d).value.chain == s.chain + [d]
  {
    assert (s.chain + [d])[..|s.chain|] == s.chain;
  }

  lemma AllowedBefore(c: Chain, d: DOT)
    requires Allowed(c + [d]) && c != []
    ensures Allowed(c)
  {
    assert (c + [d])[..|c|] == c;
  }

  lemma ChainSpaceReads(req: Request, snap: Snapshot)
    ensures Reads(ChainSpace(req, snap), ChainReading(req, snap))
  {
    var sp, r := ChainSpace(req, snap), ChainReading(req, snap);
    forall s, e | r.proper(s) ensures sp.extend(s, e).Some? <==> r.allowed(r.trail(s) + [e]) {
      ExtendProper(s, e);
    }
    forall s, e | r.proper(s) && sp.extend(s, e).Some?
      ensures r.proper(sp.extend(s, e).value) && r.trail(sp.extend(s, e).value) == r.trail(s) + [e]
    {
      ExtendProper(s, e);
    }
    forall c, e | r.allowed(c + [e]) ensures c == [] || r.allowed(c) {
      if c != [] {
        AllowedBefore(c, e);
      }
    }
  }

  lemma StartProper(d: DOT)
    ensures Proper(NewScenario(d)) && Allowed([d])
  {
    assert [d][..0] == [];
    assert TTL([d][..0]) == 256;
  }

  lemma StartsAreFirsts(req: Request, snap: Snapshot, ds: seq<DOT>)
    ensures Firsts(ChainReading(req, snap), Starts(ds), ds)
  {
    forall i | 0 <= i < |ds| ensures Proper(Starts(ds)[i]) && Starts(ds)[i].chain == [ds[i]] {
      StartProper(ds[i]);
    }
  }

  /** A route of the search is a granting path. */
  lemma RouteIff(req: Request, snap: Snapshot, start: Key, c: Chain)
    ensures Route(ChainReading(req, snap), GetOptions(req, snap, start), c) <==> Granting(req, snap, start, c)
  {
    TTLIff(c, 0);
    if |c| == 1 {
      assert c == [c[0]];
      StartProper(c[0]);
    } else if c != [] {
      OnwardIff(req, snap, c);
      assert c[..1] == [c[0]];
    }
  }

  ghost predicate Linked(req: Request, snap: Snapshot, c: Chain) {
    && (forall i :: 1 <= i < |c| ==> c[i] in GetOptions(req, snap, c[i - 1].receiver))
    && (forall i :: 1 <= i < |c| - 1 ==> !IsTarget(req, c[i].receiver))
  }

  lemma OnwardAt(req: Request, snap: Snapshot, c: Chain, i: nat)
    requires Onward(ChainReading(req, snap), c, 1) && 1 <= i < |c|
    ensures c[i] in GetOptions(req, snap, c[i - 1].receiver)
    ensures i < |c| - 1 ==> !IsTarget(req, c[i].receiver)
  {
    var r := ChainReading(req, snap);
    assert c[i] in r.opts(c[..i]);
    if i < |c| - 1 {
      assert !r.there(c[..i + 1]);
    }
  }

  lemma OnwardLinked(req: Request, snap: Snapshot, c: Chain)
    requires Onward(ChainReading(req, snap), c, 1)
    ensures Linked(req, snap, c)
  {
    forall i | 1 <= i < |c|
      ensures c[i] in GetOptions(req, snap, c[i - 1].receiver) && (i < |c| - 1 ==> !IsTarget(req, c[i].receiver))
    {
      OnwardAt(req, snap, c, i);
    }
  }

  lemma LinkedOnward(req: Request, snap: Snapshot, c: Chain)
    requires |c| > 1 && Allowed(c) && IsTarget(req, c[|c| - 1].receiver) && Linked(req, snap, c)
    ensures Onward(ChainReading(req, snap), c, 1)
  {
    var r := ChainReading(req, snap);
    forall i | 1 <= i < |c| ensures c[i] in r.opts(c[..i]) {
      assert c[i] in GetOptions(req, snap, c[i - 1].receiver);
    }
    forall i | 1 < i < |c| ensures !r.there(c[..i]) {
      assert !IsTarget(req, c[i - 1].receiver);
    }
  }

  lemma OnwardIff(req: Request, snap: Snapshot, c: Chain)
    requires |c| > 1
    ensures Onward(ChainReading(req, snap), c, 1) <==>
      Allowed(c) && IsTarget(req, c[|c| - 1].receiver) && Linked(req, snap, c)
  {
    if Onward(ChainReading(req, snap), c, 1) {
      OnwardLinked(req, snap, c);
    } else if Allowed(c) && IsTarget(req, c[|c| - 1].receiver) && Linked(req, snap, c) {
      LinkedOnward(req, snap, c);
    }
  }

  /** The build finds exactly the granting paths. */
  lemma BuildExact(req: Request, snap: Snapshot, start: Key, chain: Chain)
    ensures chain in BuildChains(req, snap, start) <==> Granting(req, snap, start, chain)
  {
    var sp, r, d, opts := ChainSpace(req, snap), ChainReading(req, snap), Degree(snap.grants), GetOptions(req, snap, start);
    var list := SearchFrom(req, snap, start);
    ChainSpaceFalls(req, snap);
    ChainSpaceReads(req, snap);
    StartsAreFirsts(req, snap, opts);
    RouteIff(req, snap, start, chain);
    if chain in BuildChains(req, snap, start) {
      var k :| 0 <= k < |list| && ChainsOf(list)[k] == chain;
      ReportedSound(sp, d, r, Starts(opts), opts, k);
    }
    if Granting(req, snap, start, chain) {
      var k := ReportedComplete(sp, d, r, Starts(opts), opts, chain);
      assert ChainsOf(list)[k] == chain;
    }
  }

  /** In a registry that files each DOT under its giver, the receiver of each DOT is the giver of the next. */
  lemma ChainsAreLinked(req: Request, snap: Snapshot, start: Key, chain: Chain, i: nat)
    requires chain in BuildChains(req, snap, start) && 0 < i < |chain|
    requires forall k, h :: k in snap.grants && h in snap.grants[k] && h in snap.dots && snap.dots[h].Found? ==>
      snap.dots[h].dot.giver == k
    ensures chain[i].giver == chain[i - 1].receiver
  {
    BuildExact(req, snap, start, chain);
    var k := chain[i - 1].receiver;
    OptionsIff(req, snap, k, chain[i]);
    var links := GrantedLinks(snap, k).value;
    var j :| 0 <= j < |links| && links[j] == Found(chain[i], Valid);
    assert snap.grants[k][j] in snap.grants[k];
  }

  // ---- a chain that is found and refused ----

  /** A DOT from a namespace to itself, 255 times, and then one to somebody else. */
  function Longest(loop: DOT, last: DOT): (c: Chain)
    ensures |c| == 256 && c[255] == last && forall i :: 0 <= i < 255 ==> c[i] == loop
  {
    seq(255, _ => loop) + [last]
  }

  function BothGranted(ns: Key, d: DOT, e: DOT): (snap: Snapshot) {
    Snapshot(map[ns := [d.hash, e.hash]], map[d.hash := Found(d, Valid), e.hash := Found(e, Valid)])
  }

  lemma {:induction false} FoldOfSame(c: Chain, p: seq<Cell>)
    requires c != [] && Simple(p) && forall i :: 0 <= i < |c| ==> c[i].suffix == p
    ensures FoldSuffix(c) == Some(p)
    decreases |c|
  {
    if |c| > 1 {
      FoldOfSame(c[..|c| - 1], p);
      Reflexive(p);
    }
  }

  /** The longest chain: the builder finds it, and the verifier refuses it. */
  lemma LongestChain(req: Request, loop: DOT, last: DOT)
    requires DotUseful(req, loop) && DotUseful(req, last) && loop.suffix == last.suffix && Simple(loop.suffix)
    requires loop.giver == req.ns && loop.receiver == req.ns && last.giver == req.ns && loop.hash != last.hash && loop.ttl >= 255
    requires !IsTarget(req, req.ns) && IsTarget(req, last.receiver)
    ensures Longest(loop, last) in BuildChains(req, BothGranted(req.ns, loop, last), req.ns)
    ensures !HopsAllowed(Longest(loop, last), 255)
  {
    var snap, c := BothGranted(req.ns, loop, last), Longest(loop, last);
    BothOptions(req, loop, last);
    FoldOfSame(c, loop.suffix);
    BuildExact(req, snap, req.ns, c);
    HopsAllowedIff(c, 255);
  }

  lemma BothOptions(req: Request, d: DOT, e: DOT)
    requires DotUseful(req, d) && DotUseful(req, e) && d.hash != e.hash
    ensures var opts := GetOptions(req, BothGranted(req.ns, d, e), req.ns); d in opts && e in opts
  {
    var snap := BothGranted(req.ns, d, e);
    var links := GrantedLinks(snap, req.ns).value;
    assert links[0] == Found(d, Valid) && links[1] == Found(e, Valid);
    OptionsIff(req, snap, req.ns, d);
    OptionsIff(req, snap, req.ns, e);
  }

  // ---- each chain once ----

  /** No hash granted twice by one key, and no two hashes for one DOT. */
  ghost predicate NoDuplicates(snap: Snapshot) {
    && (forall k :: k in snap.grants ==> NoRepeats(snap.grants[k]))
    && (forall h :: h in snap.dots && snap.dots[h].Found? ==> snap.dots[h].dot.hash == h)
  }

  lemma {:induction false} UsefulDotsDistinct(req: Request, links: seq<Link>)
    requires forall i, j :: 0 <= i < j < |links| && Usable(links[i]) && Usable(links[j]) ==> links[i] != links[j]
    ensures NoRepeats(UsefulDots(req, links))
    decreases |links|
  {
    if links != [] {
      var init, l := links[..|links| - 1], links[|links| - 1];
      UsefulDotsDistinct(req, init);
      if Usable(l) {
        UsefulDotsMember(req, init, l.dot);
      }
    }
  }

  lemma OptionsDistinct(req: Request, snap: Snapshot, k: Key)
    requires NoDuplicates(snap)
    ensures NoRepeats(GetOptions(req, snap, k))
  {
    if GrantedLinks(snap, k).Some? {
      var links, hashes := GrantedLinks(snap, k).value, snap.grants[k];
      forall i, j | 0 <= i < j < |links| && Usable(links[i]) && Usable(links[j]) ensures links[i] != links[j] {
        assert hashes[i] != hashes[j];
        assert links[i].dot.hash == hashes[i] && links[j].dot.hash == hashes[j];
      }
      UsefulDotsDistinct(req, links);
    }
  }

  lemma ChainTrails(req: Request, snap: Snapshot)
    ensures Trails(ChainSpace(req, snap), (s: Scenario) => s.chain)
  {
  }

  /** Without duplicate grants no chain is reported twice. */
  lemma BuildDistinct(req: Request, snap: Snapshot, start: Key)
    requires NoDuplicates(snap)
    ensures NoRepeats(BuildChains(req, snap, start))
  {
    var sp, d, opts := ChainSpace(req, snap), Degree(snap.grants), GetOptions(req, snap, start);
    var trail := (s: Scenario) => s.chain;
    ChainSpaceFalls(req, snap);
    ChainTrails(req, snap);
    forall s ensures NoRepeats(sp.options(s)) {
      OptionsDistinct(req, snap, Terminal(s));
    }
    OptionsDistinct(req, snap, start);
    ReportedDistinct(sp, d, trail, Starts(opts), opts);
  }

  // ---- the fold of the patterns ----

  function Shapes(chain: Chain): (r: seq<Shape>)
    ensures |r| == |chain|
  {
    seq(|chain|, i requires 0 <= i < |chain| => ShapeOf(chain[i].suffix))
  }

  lemma {:induction false} FoldByShape(chain: Chain)
    requires chain != []
    ensures FoldSuffix(chain).Some? <==> FoldShapes(Shapes(chain)).Some?
    ensures FoldSuffix(chain).Some? ==> ShapeOf(FoldSuffix(chain).value) == FoldShapes(Shapes(chain)).value
    decreases |chain|
  {
    if |chain| > 1 {
      var init := chain[..|chain| - 1];
      FoldByShape(init);
      assert Shapes(chain)[..|init|] == Shapes(init);
      if FoldSuffix(init).Some? {
        RestrictShape(FoldSuffix(init).value, chain[|chain| - 1].suffix);
      }
    }
  }

  lemma {:induction false} FoldCoversStarred(req: Request, chain: Chain)
    requires chain != [] && !Starless(req.suffix) && forall i :: 0 <= i < |chain| ==> DotUseful(req, chain[i])
    ensures FoldSuffix(chain).Some? && Below(req.suffix, FoldSuffix(chain).value)
    decreases |chain|
  {
    var init, d := chain[..|chain| - 1], chain[|chain| - 1];
    assert DotUseful(req, d);
    if |chain| > 1 {
      FoldCoversStarred(req, init);
      BelowBoth(req.suffix, FoldSuffix(init).value, d.suffix);
    }
  }

  lemma FoldCoversStarless(req: Request, chain: Chain)
    requires chain != [] && Starless(req.suffix) && forall i :: 0 <= i < |chain| ==> DotUseful(req, chain[i])
    ensures FoldSuffix(chain).None? <==> Leading(Shapes(chain)) < |chain| && |req.suffix| < EndsBefore(Shapes(chain))
    ensures FoldSuffix(chain).Some? && Below(req.suffix, FoldSuffix(chain).value) <==> EndsBefore(Shapes(chain)) <= |req.suffix|
  {
    var u, xs := req.suffix, Shapes(chain);
    FlatShape(u);
    forall i | 0 <= i < |xs| ensures !xs[i].Wild? && Plain(xs[i]) && Denotes(xs[i], u) {
      assert DotUseful(req, chain[i]);
      BelowIff(u, chain[i].suffix);
    }
    FoldByShape(chain);
    FoldCoversIff(u, xs);
    if FoldSuffix(chain).Some? {
      BelowIff(u, FoldSuffix(chain).value);
    }
  }

  /**
   * DOTs that each cover the requested pattern fold to one that covers it exactly if the request has a star, or is long
   * enough for the longest ends of the starred DOTs before the first one without a star. They fold to nothing exactly
   * if it is not and there is a DOT without a star to find out.
   */
  lemma FoldCovers(req: Request, chain: Chain)
    requires chain != [] && forall i :: 0 <= i < |chain| ==> DotUseful(req, chain[i])
    ensures FoldSuffix(chain).None? <==>
      Starless(req.suffix) && Leading(Shapes(chain)) < |chain| && |req.suffix| < EndsBefore(Shapes(chain))
    ensures FoldSuffix(chain).Some? && Below(req.suffix, FoldSuffix(chain).value) <==>
      !Starless(req.suffix) || EndsBefore(Shapes(chain)) <= |req.suffix|
  {
    if Starless(req.suffix) {
      FoldCoversStarless(req, chain);
    } else {
      FoldCoversStarred(req, chain);
    }
  }

  // Short names are different: [a, b, *], [*, b, c] and [a, b, c] all cover [a, b, c], and restrict to nothing in turn.
  lemma FoldRefusesShortName(a: Cell, b: Cell, c: Cell)
    requires a.Name? && b.Name? && c.Name?
    ensures Below([a, b, c], [a, b, Star]) && Below([a, b, c], [Star, b, c]) && Below([a, b, c], [a, b, c])
    ensures Restrict([a, b, Star], [Star, b, c]) == Some([a, b, Star, b, c])
    ensures Restrict([a, b, Star, b, c], [a, b, c]) == None
  {
    var t := [a, b, c];
    LostTopicOf(a, b, c);
    ShapeOfRender(Starred([a, b], []));
    ShapeOfRender(Starred([], [b, c]));
    ShapeOfRender(Starred([a, b], [b, c]));
    assert Render(Starred([a, b], [])) == [a, b, Star] && Render(Starred([], [b, c])) == [Star, b, c];
    assert Render(Starred([a, b], [b, c])) == [a, b, Star, b, c];
    FlatShape(t);
    BelowIsMatching(t, [a, b, Star]);
    BelowIsMatching(t, [Star, b, c]);
    Reflexive(t);
  }
}
