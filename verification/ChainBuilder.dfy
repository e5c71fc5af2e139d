/** Finding the chains of DOTs by which a namespace's key has granted access to a target key. */
module ChainBuilder {
  import opened Options
  import opened Patterns
  import opened Restriction
  import opened Delegation
  import opened Search
  import Names

  type Chain = seq<DOT>

  /** What is asked: permissions on a pattern of a namespace, for the target key. */
  datatype Request = Request(uri: string, ns: Key, suffix: seq<Cell>, perms: set<Perm>, target: Key)

  /** The registry as seen at one moment. A hash without an entry cannot be looked up. */
  datatype Snapshot = Snapshot(grants: map<Key, seq<Hash>>, dots: map<Hash, Link>)

  /** Grants to this key are grants to everybody; the value itself does not matter. */
  const EVERYBODY: Key := 0

  datatype Scenario = Scenario(chain: Chain, suffix: seq<Cell>)

  function Terminal(s: Scenario): (k: Key) {
    if s.chain == [] then EVERYBODY else s.chain[|s.chain| - 1].receiver
  }

  predicate IsTarget(req: Request, k: Key) {
    k == req.target || k == EVERYBODY
  }

  function NewScenario(d: DOT): (s: Scenario) {
    Scenario([d], d.suffix)
  }

  function AddAndClone(s: Scenario, d: DOT): (r: Option<Scenario>) {
    var suffix := Restrict(s.suffix, d.suffix);
    if suffix.None? then None
    else if TTL(s.chain + [d]) < 0 then None
    else Some(Scenario(s.chain + [d], suffix.value))
  }

  // ---- options ----

  predicate DotUseful(req: Request, d: DOT) {
    d.ns == req.ns && req.perms <= d.perms && Restrict(req.suffix, d.suffix) == Some(req.suffix)
  }

  /** The links of everything a key has granted, or none if one of them cannot be looked up. */
  function GrantedLinks(snap: Snapshot, k: Key): (r: Option<seq<Link>>) {
    if k !in snap.grants then None
    else if exists i :: 0 <= i < |snap.grants[k]| && snap.grants[k][i] !in snap.dots then None
    else Some(seq(|snap.grants[k]|, i requires 0 <= i < |snap.grants[k]| => snap.dots[snap.grants[k][i]]))
  }

  function UsefulDots(req: Request, links: seq<Link>): (r: seq<DOT>)
    ensures |r| <= |links|
  {
    if links == [] then []
    else
      var rest := UsefulDots(req, links[..|links| - 1]);
      var l := links[|links| - 1];
      if Usable(l) && DotUseful(req, l.dot) then rest + [l.dot] else rest
  }

  function GetOptions(req: Request, snap: Snapshot, k: Key): (r: seq<DOT>) {
    var links := GrantedLinks(snap, k);
    if links.None? then [] else UsefulDots(req, links.value)
  }

  method CollectOptions(req: Request, snap: Snapshot, k: Key) returns (rv: seq<DOT>)
    ensures rv == GetOptions(req, snap, k)
  {
    rv := [];
    var links := GrantedLinks(snap, k);
    if links.None? {
      return;
    }
    var dlz := links.value;
    for i := 0 to |dlz|
      invariant rv == UsefulDots(req, dlz[..i])
    {
      assert dlz[..i + 1][..i] == dlz[..i];
      if !Usable(dlz[i]) {
        continue;
      }
      if DotUseful(req, dlz[i].dot) {
        rv := rv + [dlz[i].dot];
      }
    }
    assert dlz[..|dlz|] == dlz;
  }

  lemma {:induction false} UsefulDotsMember(req: Request, links: seq<Link>, d: DOT)
    ensures d in UsefulDots(req, links) <==> DotUseful(req, d) && Found(d, Valid) in links
    decreases |links|
  {
    if links != [] {
      UsefulDotsMember(req, links[..|links| - 1], d);
      assert links == links[..|links| - 1] + [links[|links| - 1]];
    }
  }

  // ---- the space that is searched ----

  function Rank(s: Scenario): (r: nat) {
    if TTL(s.chain) < 0 then 0 else TTL(s.chain) + 1
  }

  function ChainSpace(req: Request, snap: Snapshot): (sp: Space<Scenario, DOT>) {
    Space((s: Scenario) => GetOptions(req, snap, Terminal(s)), AddAndClone,
          (s: Scenario) => IsTarget(req, Terminal(s)), Rank)
  }

  ghost function Degree(grants: map<Key, seq<Hash>>): (d: nat)
    ensures forall k :: k in grants ==> |grants[k]| < d
    ensures d >= 1
    decreases |grants|
  {
    if grants == map[] then 1
    else
      var k :| k in grants;
      var rest := grants - {k};
      var d := Degree(rest);
      assert forall j :: j in grants && j != k ==> j in rest && grants[j] == rest[j];
      if |grants[k]| < d then d else |grants[k]| + 1
  }

  lemma RankFalls(s: Scenario, d: DOT)
    requires AddAndClone(s, d).Some?
    ensures Rank(AddAndClone(s, d).value) < Rank(s)
  {
    TTLFalls(s.chain, d);
  }

  /** The search ends on every registry, cycles of grants included. */
  lemma ChainSpaceFalls(req: Request, snap: Snapshot)
    ensures Falls(ChainSpace(req, snap), Degree(snap.grants))
  {
    var sp := ChainSpace(req, snap);
    forall s ensures |sp.options(s)| < Degree(snap.grants) {
    }
    forall s, e | sp.extend(s, e).Some? ensures sp.rank(sp.extend(s, e).value) < sp.rank(s) {
      RankFalls(s, e);
    }
  }

  // ---- the build ----

  function Starts(ds: seq<DOT>): (r: seq<Scenario>)
    ensures |r| == |ds|
  {
    seq(|ds|, i requires 0 <= i < |ds| => NewScenario(ds[i]))
  }

  /** What the search reports, in order, when it starts from the DOTs a key has granted. */
  ghost function SearchFrom(req: Request, snap: Snapshot, start: Key): (r: seq<Scenario>) {
    ChainSpaceFalls(req, snap);
    Reported(ChainSpace(req, snap), Degree(snap.grants), Starts(GetOptions(req, snap, start)))
  }

  function ChainsOf(list: seq<Scenario>): (r: seq<Chain>)
    ensures |r| == |list|
  {
    seq(|list|, i requires 0 <= i < |list| => list[i].chain)
  }

  ghost function BuildChains(req: Request, snap: Snapshot, start: Key): (r: seq<Chain>) {
    ChainsOf(SearchFrom(req, snap, start))
  }

  method SortInitial(sp: Space<Scenario, DOT>, initial: seq<DOT>) returns (valid: seq<Scenario>, evals: seq<Scenario>)
    ensures valid == Arrived(sp, Starts(initial)) && evals == Waiting(sp, Starts(initial))
  {
    valid, evals := [], [];
    for i := 0 to |initial|
      invariant valid == Arrived(sp, Starts(initial[..i])) && evals == Waiting(sp, Starts(initial[..i]))
    {
      var s := NewScenario(initial[i]);
      assert Starts(initial[..i + 1]) == Starts(initial[..i]) + [s];
      assert Starts(initial[..i + 1])[..i] == Starts(initial[..i]);
      if sp.arrives(s) {
        valid := valid + [s];
      } else {
        evals := evals + [s];
      }
    }
    assert initial[..|initial|] == initial;
  }

  /** Every chain is kept: the map of chains already seen is never filled. */
  method CollectChains(list: seq<Scenario>) returns (rv: seq<Chain>)
    ensures rv == ChainsOf(list)
  {
    var seen: set<Chain> := {};
    rv := [];
    for i := 0 to |list|
      invariant seen == {} && rv == ChainsOf(list[..i])
    {
      var chn := list[i].chain;
      if chn !in seen {
        rv := rv + [chn];
      }
    }
    assert list[..|list|] == list;
  }

  datatype BuildError = InvalidURI | UnresolvedKey
  datatype Outcome = Chains(chains: seq<Chain>) | Failed(error: BuildError)

  /** The two parts of a URI at its first slash. */
  function SplitURI(uri: string): (r: Option<(string, string)>) {
    if uri == "" then None
    else if uri[0] == '/' then Some(("", uri[1..]))
    else
      var rest := SplitURI(uri[1..]);
      if rest.None? then None else Some(([uri[0]] + rest.value.0, rest.value.1))
  }

  lemma {:induction false} SplitURIParts(uri: string)
    ensures SplitURI(uri).None? <==> '/' !in uri
    ensures SplitURI(uri).Some? ==>
      var (ns, suffix) := SplitURI(uri).value; '/' !in ns && uri == ns + "/" + suffix
  {
    if uri != "" && uri[0] != '/' {
      SplitURIParts(uri[1..]);
      assert uri == [uri[0]] + uri[1..];
    }
  }

  // ---- cached chains ----

  predicate ChainValid(snap: Snapshot, chain: Chain) {
    forall i :: 0 <= i < |chain| ==> chain[i].hash in snap.dots && snap.dots[chain[i].hash].state == Valid
  }

  predicate Resolvable(snap: Snapshot, chains: seq<Chain>) {
    forall c, i :: 0 <= c < |chains| && 0 <= i < |chains[c]| ==> chains[c][i].hash in snap.dots
  }

  /** The state of a cached chain: that of its first DOT that is not valid. */
  method ChainState(snap: Snapshot, chain: Chain) returns (s: State)
    requires forall i :: 0 <= i < |chain| ==> chain[i].hash in snap.dots
    ensures s == Valid <==> ChainValid(snap, chain)
    ensures s != Valid ==> exists i :: 0 <= i < |chain| && s == snap.dots[chain[i].hash].state && ChainValid(snap, chain[..i])
  {
    for i := 0 to |chain|
      invariant ChainValid(snap, chain[..i])
    {
      var ds := snap.dots[chain[i].hash].state;
      if ds != Valid {
        return ds;
      }
    }
    assert chain[..|chain|] == chain;
    return Valid;
  }

  function StillValid(snap: Snapshot, chains: seq<Chain>): (r: seq<Chain>) {
    Filter((c: Chain) => ChainValid(snap, c), chains)
  }

  method DropInvalid(snap: Snapshot, cached: seq<Chain>) returns (rv: seq<Chain>)
    requires Resolvable(snap, cached)
    ensures rv == StillValid(snap, cached)
  {
    rv := [];
    for i := 0 to |cached|
      invariant rv == StillValid(snap, cached[..i])
    {
      assert cached[..i + 1][..i] == cached[..i];
      var s := ChainState(snap, cached[i]);
      if s == Valid {
        rv := rv + [cached[i]];
      }
    }
    assert cached[..|cached|] == cached;
  }

  /** What a build says that finds nothing in the cache. */
  ghost function Searched(req: Request, snap: Snapshot, resolveKey: string -> Option<Key>): (r: Outcome) {
    var parts := SplitURI(req.uri);
    if parts.None? || !Names.Accepted(Names.Split(parts.value.1)) then Failed(InvalidURI)
    else if resolveKey(parts.value.0).None? then Failed(UnresolvedKey)
    else Chains(BuildChains(req, snap, resolveKey(parts.value.0).value))
  }

  /** The whole build: from the cache if it has chains, and otherwise by searching. */
  method Build(req: Request, snap: Snapshot, cached: Option<seq<Chain>>, resolveKey: string -> Option<Key>)
    returns (r: Outcome)
    requires cached.Some? ==> Resolvable(snap, cached.value)
    ensures cached.Some? ==> r == Chains(StillValid(snap, cached.value))
    ensures cached.None? ==> r == Searched(req, snap, resolveKey)
  {
    if cached.Some? {
      var rv := DropInvalid(snap, cached.value);
      return Chains(rv);
    }
    var parts := SplitURI(req.uri);
    if parts.None? {
      return Failed(InvalidURI);
    }
    var valid, _, _, _, n := Names.AnalyzeSuffix(parts.value.1);
    if !valid {
      return Failed(InvalidURI);
    }
    var mvk := resolveKey(parts.value.0);
    if mvk.None? {
      return Failed(UnresolvedKey);
    }
    var initial := CollectOptions(req, snap, mvk.value);
    var sp := ChainSpace(req, snap);
    var found, evals := SortInitial(sp, initial);
    ChainSpaceFalls(req, snap);
    found := Explore(sp, Degree(snap.grants), evals, found);
    var rv := CollectChains(found);
    return Chains(rv);
  }
}
