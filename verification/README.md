# BOSSWAVE: delegation chains, patterns, Ed25519, frames and contract calls

A Dafny model of the parts of BOSSWAVE that do the most work per line, with proofs about them. BOSSWAVE is a
publish/subscribe system in which a key may act on a resource only through a chain of delegations (DOTs) that is
published in a registry on a block chain.

1. **Chain search and its caches** (`api/chainbuilder.go`, `api/new_resolution.go`, `bc/builtin_registry.go`,
   `contracts/registry.sol`). The breadth-first search over paths of DOTs is proved to end on every grant graph and to find
   exactly the granting paths. The caches are a class; every method is tied to a value of the cache, and what the caches
   promise is proved over every sequence of steps of a state machine whose steps are the locked sections of the code: which
   chains a cached answer has at any moment, and when it is the very list that a new search of the registry returns. The
   contract behind the registry is a class as well, with an invariant over every sequence of calls.
2. **Patterns** (`util/util.go`, `api/view.go`, `api/utils.go`). The two-ended merge that restricts one wildcard
   pattern by another is compared with the set of topics each pattern stands for.
3. **Ed25519** (`crypto/`, portable 64-bit code): arithmetic modulo the group order and modulo 2^255 - 19 on limbs, the
   recodings of a scalar, multiplication and the Bos-Coster loop over an abstract abelian group, the point formulas,
   the encoding of points, hashing in pieces, signing and verifying. That 2^255 - 19 is prime is proved, by a chain of
   certificates.
4. **Frames** (`objects/frame.go`, `objects/common.go`): printer, parser, and the running length.
5. **Contract calls** (`bc/ufi.go`): the head and tail layout of arguments, its decoder, and function descriptors.

How the files build on one another:

| topic | files |
|---|---|
| shared | `Options`, `Words`, `Text` |
| scalars | `ScalarField`, `ScalarBytes`, `Recoding`, `WindowFour`, `Groups`, `ScalarMult`, `Divisors`, `BatchHeap` |
| field and points | `Field`, `FieldBytes`, `Residues`, `Inversion`, `Points`, `CurveClosure`, `Packing`, `Decoding` |
| primes | `Remainders`, `Primes`, `PrimeField`, `FieldLaws` |
| signatures | `Hashing`, `Signing` |
| patterns | `Patterns`, `Restriction`, `Intersection`, `PatternOrder`, `Maximals`, `Canonical`, `Covering`, `Names` |
| chains | `Delegation`, `Search`, `ChainBuilder`, `ChainTheorems`, `CacheAgreement` |
| registry | `RegistryLog`, `Contract` |
| caches | `Resolution`, `Indexes`, `Lookups`, `Staleness`, `CachedAnswers`, `StaleRuns` |
| wire formats | `Decimal`, `Frames`, `FrameParser`, `Abi` |

`dafny verify dfyconfig.toml` checks everything.

## Where the code differs from what one would expect

The model follows the code. Where a name is given, a lemma states the difference or the exact condition under which the
expected property holds:

- Restricting one starred pattern by another can lose topics: `a/b/*` with `*/b/c` gives `a/b/*/b/c`, which no longer
  matches `a/b/c` (`Intersection.LostTopic`). `Intersection.LosslessIff` says for which pairs of patterns nothing is lost.
- For the same reason a chain of DOTs can each cover a short name and still restrict to nothing in turn
  (`ChainTheorems.FoldRefusesShortName`). `ChainTheorems.FoldCovers` says exactly when: a request with a star is always
  covered, and a name without one exactly if it is as long as the longest prefix and the longest suffix of the starred
  DOTs before the first one without a star.
- `MatchTopic` never matches a pattern that ends in a star (`PatternOrder.TopicMatchesIff`).
- `cacheDOT` looks only at the giver's list before it files a DOT under giver and receiver. The receiver's list can miss a
  cached DOT (`Indexes.ReceiverFlushMisses`), and then the DOT stays valid after its receiver was revoked
  (`StaleRuns.RevokedReceiverMissed`, a whole run). `Indexes.CacheDotKeepsReceiver` says exactly which calls keep the list
  complete, and with both lists looked at nothing is missed (`Indexes.CacheDotInBothKeeps`,
  `Staleness.RevokedReceiverIsInvalid`).
- The holdoff of a namespace does not help a search that reads old cached lists of grants, which is possible while the next
  check is late: a chain that a search of the registry would find is not in the answer that is cached
  (`StaleRuns.HoldoffMissed`, a whole run). `CachedAnswers.AnswerIff` says exactly which chains an answer has at any moment,
  `Staleness.SeenIff` which DOTs a build has seen, and `CachedAnswers.AnswerIsSearch` when nothing is missed.
- The age of the caches is compared the wrong way round, so that they are dropped after a jump of the chain but never because
  of their age (`Resolution.ResolutionData.CheckChainChange`).
- The `seen` map of the chain builder is never filled, so it filters nothing; that no chain is reported twice is proved
  from the search itself (`ChainTheorems.BuildDistinct`).
- The builder counts hops from 256 and the verifier from 255: they disagree on chains of exactly 256 DOTs
  (`Delegation.SearchAgainstVerifier`; such a chain is in `ChainTheorems.LongestChain`).
- The last step of the multi-scalar multiplication starts from the point and then processes the top bit again, and looks at
  the low 224 bits of the scalar alone. It is right for the scalars 0 and 1. For others let n be the number of bits of the
  low part: it is right exactly when 2^n times the point is the multiple that the low part leaves out, and if the low
  part is zero it has no result (`BatchHeap.LastScalar`; `BatchHeap.LastScalarMisses` is an input where it is wrong).
- The loop before it may end without the second half of the scalars ever having joined. It joins exactly when two of the
  first half are not zero and all of them have no common divisor of 2^128 or more (`BatchHeap.Batch.BosCoster`), and without
  it the result is the whole sum exactly when the second half adds up to zero; `BatchHeap.LoopMisses` is an input where
  it does not.
- A header that was read loses the text of its length, so writing the frame again gives the same bytes exactly when it
  has no headers (`FrameParser.RewriteIff`).
- A routing object that cannot be loaded makes the frame parser return neither a frame nor an error
  (`FrameParser.NothingIff`: exactly then; `FrameParser.UnknownNumber` is a frame).

Comments in the source that the code contradicts: the comment on `curve25519_square_times` speaks of 2 * count where the
exponent is 2^count, and the comment above the token constants in `bc/ufi.go` swaps static and dynamic bytes.

## Model

| member | source | states |
|---|---|---|
| `Delegation.ComputeTTL` | api/chainbuilder.go:42-51 | the hops left of a chain, as a fold from 256 that each DOT can cut down to its own limit |
| `Delegation.TTLIff` | api/chainbuilder.go:42-51 | at least k hops are left exactly when the chain has at most 256 - k DOTs and every DOT's limit covers the DOTs after it and k more |
| `Delegation.CheckHops` | objects/routing.go:371-381 | the verifier's loop computes the recursive hop count from 255 |
| `Delegation.HopsAllowedIff` | objects/routing.go:371-381 | the count passes exactly when the chain fits the budget and every DOT's limit covers the DOTs after it |
| `Delegation.SearchAgainstVerifier` | api/chainbuilder.go:42-51 | builder and verifier agree on every chain but those of exactly 256 DOTs |
| `Search.Explore` | api/chainbuilder.go:207-225 | the queue loop ends, and reports what was found before followed by the breadth-first walk, in order |
| `Search.WalkSound` | api/chainbuilder.go:207-225 | every state reported is the end of a path of options from a queued state, with no earlier arrival on it |
| `Search.WalkComplete` | api/chainbuilder.go:207-225 | the end of every such path is reported |
| `Search.WalkDistinct` | api/chainbuilder.go:207-237 | if options do not repeat and no queued path continues another, no path is reported twice |
| `Search.WalkPart` | api/chainbuilder.go:207-225 | searching a space with options removed reports what the full search reports, with the removed paths left out, in the same order |
| `Search.WalkInside` | api/chainbuilder.go:207-225 | two spaces that agree on the states that can wait are searched alike |
| `Search.ReportedSound` | api/chainbuilder.go:192-225 | the states reported on arrival or found by the walk stand for routes |
| `Search.ReportedComplete` | api/chainbuilder.go:192-225 | every route is reported |
| `Search.ReportedDistinct` | api/chainbuilder.go:192-237 | different first steps and unrepeated options give pairwise different routes |
| `Search.ReportedPart` | api/chainbuilder.go:192-225 | the order-preserving comparison for the whole report, first states included |
| `ChainBuilder.CollectOptions` | api/chainbuilder.go:132-155 | the loop over the granted links collects the usable DOTs that are useful for the request, in order, and nothing when the grants cannot be read |
| `ChainBuilder.ChainSpaceFalls` | api/chainbuilder.go:64-80 | every extension of a chain lowers its hops, by the bound the search needs to end on any grant graph, cycles included |
| `ChainBuilder.SortInitial` | api/chainbuilder.go:192-206 | the first DOTs are split into chains that have arrived and chains to be extended |
| `ChainBuilder.CollectChains` | api/chainbuilder.go:226-237 | all chains are returned, in order, repeats included |
| `ChainBuilder.ChainState` | api/new_resolution.go:546-563 | valid exactly when all DOTs are, and otherwise the state of the first one that is not |
| `ChainBuilder.DropInvalid` | api/chainbuilder.go:166-176 | of the cached chains exactly the valid ones are kept, in order |
| `ChainBuilder.Build` | api/chainbuilder.go:157-241 | filtered cached chains on a hit; on a miss the two errors in their order, or the chains the search reports |
| `ChainBuilder.SplitURIParts` | api/chainbuilder.go:180-183 | splitting fails exactly without a slash, and otherwise the parts rejoin to the name with no slash in the first |
| `ChainTheorems.OptionsIff` | api/chainbuilder.go:132-155 | a DOT is an option of a key exactly when the key's grants can be read, hold it as valid, and it is useful |
| `ChainTheorems.BuildExact` | api/chainbuilder.go:64-240 | a chain is built exactly when it is a path of useful valid grants from the namespace key whose first arrival is its end, with no hop limit exceeded and no prefix whose patterns restrict to nothing |
| `ChainTheorems.BuildDistinct` | api/chainbuilder.go:192-240 | without duplicate grants no chain is built twice |
| `ChainTheorems.ChainsAreLinked` | api/chainbuilder.go:64-155 | if the registry files DOTs under their givers, each DOT's receiver gives the next |
| `ChainTheorems.LongestChain` | objects/routing.go:371-381 | 255 times a DOT from the namespace to itself and one to the target: a chain the builder returns and the verifier refuses |
| `ChainTheorems.FoldCovers` | api/chainbuilder.go:67-80 | DOTs that each cover the request restrict to a pattern that covers it exactly if the request has a star or is as long as the longest ends of the starred DOTs before the first starless one; they restrict to nothing exactly if it is shorter and there is a starless one |
| `Covering.FoldCoversIff` | api/chainbuilder.go:67-80 | the same of any list of patterns that cover a name: what the fold matches and when it fails, from the longest prefix and suffix alone |
| `ChainTheorems.FoldRefusesShortName` | api/chainbuilder.go:67-80 | for all names a, b, c: three patterns that each cover a/b/c and restrict to nothing in turn |
| `CacheAgreement.OptionsShrunk` | api/chainbuilder.go:132-155 | when validity on a namespace has only shrunk, the options now are the former ones still valid, in order |
| `CacheAgreement.CacheAgrees` | api/chainbuilder.go:157-241 | when validity has only shrunk and no new DOT on the namespace is visible, the filtered cached chains are the very sequence a new search returns |
| `CacheAgreement.ClosedSearch` | api/chainbuilder.go:192-237 | what is granted by keys the search does not ask for plays no part in what it returns |
| `RegistryLog.ResolveDOTsFromVK` | bc/builtin_registry.go:351-366 | a prefix of the key's grants as of five blocks ago, up to the first zero hash |
| `RegistryLog.GrantsBeforeAll` | bc/builtin_registry.go:351-366 | every grant below a block is among the grants read as of that block |
| `RegistryLog.GrantsBeforeOnly` | bc/builtin_registry.go:351-366 | and every hash read as of a block comes from a grant of that key below it |
| `RegistryLog.LaggedStateIff` | bc/builtin_registry.go:207-301 | a DOT or an entity is reported valid exactly when it was published five blocks ago and no revocation is in any block, the latest included |
| `Contract.DoSound` | contracts/registry.sol:162-383 | every call keeps the invariant: the log is lawful, and says of every key and DOT what the contract does |
| `Contract.CallsSound` | contracts/registry.sol:162-383 | after every sequence of calls no DOT has been published twice, nor before its giver and its receiver, and the lists of grants, the published keys and DOTs and the revoked ones are those of the log |
| `Contract.EntityStateLogged` | contracts/registry.sol:212-248 | what the log says of a key is its state in the contract, expiry aside |
| `Contract.DotStateLogged` | contracts/registry.sol:162-260 | the same of a DOT, which its hash stands for alone |
| `Contract.RegistryContract.constructor` | contracts/registry.sol:386-390 | nothing published |
| `Contract.RegistryContract.Expire` | contracts/registry.sol:241-248 | a valid key past its expiry becomes expired, and nothing else changes |
| `Contract.RegistryContract.ExpireDot` | contracts/registry.sol:253-260 | the same of a DOT |
| `Contract.RegistryContract.PublishEntity` | contracts/registry.sol:212-238 | the new state and log; nothing when the key is known or expired |
| `Contract.RegistryContract.PublishDot` | contracts/registry.sol:162-210 | the new state and log, with the soonest of three expiries; nothing but expiry when a key is not valid, the DOT is known or it is expired |
| `Contract.RegistryContract.Revoke` | contracts/registry.sol:311-341 | the new state and log; nothing but expiry without the right to revoke |
| `Contract.RegistryContract.RevokeTheDot` | contracts/registry.sol:342-383 | the same of a DOT |
| `RegistryLog.ReplayAll` | api/new_resolution.go:294-322 | replaying a window of blocks calls for every flush of every event in it |
| `Resolution.ResolutionData.constructor` | api/new_resolution.go:101-114 | empty caches at the given block |
| `Resolution.ResolutionData.DropAll` | api/new_resolution.go:116-128 | all caches empty, the block of the last check unchanged |
| `Resolution.ResolutionData.CheckChainChange` | api/new_resolution.go:279-323 | nothing when the head has not moved; otherwise all flushes of the window from the replay margin before the last check to the head, applied in order. A drop of all caches is started exactly after a jump of more than a hundred blocks, unless the clock goes back |
| `Resolution.ResolutionData.DropEntity` | api/new_resolution.go:374-391 | the entity, its two lists, and every DOT on either of them leave the caches; all else stays |
| `Resolution.ResolutionData.DropDot` | api/new_resolution.go:394-408 | only the DOT leaves; the lists keep its hash |
| `Resolution.ResolutionData.DropGranted` | api/new_resolution.go:411-416 | only the complete list of the key leaves |
| `Resolution.ResolutionData.DropChains` | api/new_resolution.go:419-425 | the namespace's chains leave, and it is held off until six blocks after the head |
| `Resolution.ResolutionData.StoreEntity` | api/new_resolution.go:446-451 | the new cache value, other maps unchanged |
| `Resolution.ResolutionData.StoreDot` | api/new_resolution.go:492-512 | the DOT is stored, and filed under giver and receiver unless the giver's list has it |
| `Resolution.ResolutionData.FindChains` | api/new_resolution.go:534-545 | the cached chains of a key, or none |
| `Resolution.ResolutionData.StoreChains` | api/new_resolution.go:565-590 | stored unless the namespace is held off or there are none; a holdoff that is over is lifted either way |
| `Resolution.ResolutionData.Build` | api/chainbuilder.go:157-241 | a build with the cache around it: a cached answer is filtered and left alone, and what is searched for is stored as in the row before; nothing is stored on an error |
| `Resolution.ResolutionData.StoreGranted` | api/new_resolution.go:603-608 | the new complete list, other maps unchanged |
| `Indexes.CacheDotKeepsGiver` | api/new_resolution.go:492-512 | caching any DOT keeps every cached DOT listed under its giver |
| `Indexes.FlushedGiver` | api/new_resolution.go:374-391 | flushing an entity leaves no cached DOT it gave |
| `Indexes.CacheDotReceiver` | api/new_resolution.go:492-512 | the DOT ends up listed under its receiver exactly when it was, or was not listed under its giver |
| `Indexes.CacheDotKeepsReceiver` | api/new_resolution.go:492-512 | the receivers' lists stay complete exactly then |
| `Indexes.ReceiverFlushMisses` | api/new_resolution.go:374-391 | for every DOT between different keys: cached, flushed with its receiver and cached again, it survives flushing its receiver |
| `Indexes.CacheDotInBothKeeps` | api/new_resolution.go:492-512 | looking at both lists keeps both indexes |
| `Lookups.ReadEntityAdds` | api/new_resolution.go:328-339 | a lookup changes the entity cache alone, adds no entity as valid whose revocation is in the registry, and an answer of valid is cached |
| `Lookups.ReadDotAdds` | api/new_resolution.go:464-491 | a DOT is read as valid only if it is not revoked and both its entities are cached as valid afterwards |
| `Lookups.LookUpDotAdds` | api/new_resolution.go:341-352 | a lookup of a DOT leaves chains, lists of grants and holdoffs alone, and caches nothing as valid that was revoked |
| `Lookups.LookUpDotJudged` | api/new_resolution.go:464-512 | a lookup caches nothing as unknown, nothing that is not published, and nothing as other than valid unless it is revoked or expired, which is for good |
| `Staleness.NextSafe` | api/new_resolution.go:279-608 | every step keeps the invariant: indexes, age of lists and chains, holdoff, and what is still to be replayed |
| `Staleness.RunSafe` | api/new_resolution.go:279-608 | the invariant holds after every sequence of steps from the start |
| `Staleness.BoundedStaleness` | api/new_resolution.go:279-366 | after every sequence of steps with no replay pending, a cached list of grants has every grant made five blocks or more before the last check |
| `Staleness.ChainStaleness` | api/new_resolution.go:534-590 | likewise, the lists of grants that cached chains were built from have every DOT of that age on their namespace |
| `Staleness.SeenIff` | api/new_resolution.go:354-363 | after every sequence of steps, in the middle of a check too, a build saw a DOT published once exactly if the list of its giver was read five blocks after the DOT or later |
| `Staleness.HoldoffSuffices` | api/new_resolution.go:419-425 | even in the middle of a check: no chains are cached for a namespace held off, and a build that read its lists no more than two blocks before it saw every DOT whose flush was carried out |
| `StaleRuns.HoldoffMissed` | api/new_resolution.go:354-363 | for every two ways from a namespace to a target, a run of a lawful registry after which the answer cached is without the second, although its flush was carried out, the holdoff is over and a search of the registry finds it |
| `CachedAnswers.RunJudged` | api/new_resolution.go:464-590 | after every sequence of steps on a lawful registry, what a build found not to be valid is revoked or expired |
| `CachedAnswers.AnswerIff` | api/new_resolution.go:534-590 | at any point of any run on a lawful registry: a cached answer with the invalid taken out has exactly those chains a search of the registry finds whose DOTs could all be seen when the lists of their givers were read |
| `CachedAnswers.AnswerIsSearch` | api/new_resolution.go:534-590 | with no flush pending, and no DOT on the namespace come into sight since the last check, that is the very list the search returns, in the same order |
| `Staleness.FlushLeavesNone` | api/new_resolution.go:374-391 | after every sequence of steps, flushing an entity leaves no cached DOT it gave, nor one it received if both lists are looked at |
| `Staleness.RevokedIsInvalid` | api/new_resolution.go:294-322 | after every sequence of steps with no replay pending, no DOT is cached as valid that was revoked by the last check, or whose giver was |
| `Staleness.RevokedReceiverIsInvalid` | api/new_resolution.go:294-322 | nor one whose receiver was, with both lists looked at |
| `StaleRuns.RevokedReceiverMissed` | api/new_resolution.go:492-512 | for every DOT between different keys, a run of a lawful registry with publications, checks, replays and lookups after which it is cached as valid although the revocation of its receiver was replayed |
| `Staleness.ReplayPending` | api/new_resolution.go:279-323 | replaying flush by flush, uninterrupted, is applying all pending flushes in order |
| `Patterns.SimpleMeaning` | util/util.go:114-117 | what a pattern with at most one star matches, cell by cell, agrees with its prefix and suffix |
| `Restriction.EmitFront` | util/util.go:135-145 | the front loop goes as far as the patterns are compatible and emits the meet of their cells |
| `Restriction.EmitBack` | util/util.go:146-156 | the back loop likewise from the end, no further than the front loop came, emitting in reverse |
| `Restriction.SwallowUp` | util/util.go:157-167 | the cells facing a star at the front are emitted up to the next star or the end |
| `Restriction.SwallowDown` | util/util.go:168-178 | the cells facing a star at the back are emitted down to the next star or the front |
| `Restriction.Settle` | util/util.go:179-196 | success exactly when nothing but one star on either side is left, and the pieces joined |
| `Restriction.MergeIsRestrict` | util/util.go:117-196 | whatever the patterns, the five phases yield the meet of their shapes, or fail when they have none |
| `Restriction.RestrictBy` | util/util.go:117-196 | the merge as written returns the restriction, for every pair of patterns |
| `Restriction.RestrictCommutes` | util/util.go:117-196 | it does not matter which pattern restricts which |
| `Restriction.SuccessIsSimple` | util/util.go:117-196 | the merge never succeeds on a pattern with two stars or more |
| `Intersection.RestrictSound` | util/util.go:117-196 | every topic the result matches is matched by both patterns, and the result has at most one star |
| `Intersection.RestrictExact` | util/util.go:117-196 | failure means no common topic; success means exactly the common topics, those shorter than the longest prefix and suffix of two starred patterns aside |
| `Intersection.RestrictMatchesIff` | util/util.go:117-196 | for patterns with at most one star each, what the result matches: exactly the common topics that are long enough for the ends of two starred patterns |
| `Intersection.LosslessIff` | util/util.go:117-196 | no common topic is lost exactly when the ends of two starred patterns do not cross |
| `Intersection.CrossingLoses` | util/util.go:117-196 | for every crossing pair, a concrete topic that is lost |
| `Intersection.LostTopic` | util/util.go:117-196 | a/b/* with \*/b/c loses a/b/c |
| `PatternOrder.Reflexive` | api/view.go:279-324 | "restricting a by b gives a" relates a pattern to itself exactly when it has at most one star |
| `PatternOrder.Antisymmetric` | api/view.go:279-324 | patterns that restrict to one another are the same |
| `PatternOrder.Transitive` | api/view.go:279-324 | the relation is transitive |
| `PatternOrder.BelowMatchesFewer` | api/view.go:279-324 | what is below matches no more topics |
| `PatternOrder.BelowBoth` | util/util.go:117-196 | what is below two patterns is below their restriction, short starless names aside |
| `PatternOrder.BelowIsMatching` | util/util.go:117-196 | for a starless name, restricting to the name itself is matching it |
| `PatternOrder.MatchTopic` | api/utils.go:17-35 | the matcher with its loop over what the star takes decides matching, but for patterns ending in a star |
| `PatternOrder.TopicMatchesIff` | api/utils.go:17-35 | it accepts exactly the matching topics of patterns that do not end in a star |
| `PatternOrder.MatchersAgree` | api/utils.go:17-35 | for those patterns it agrees with "restriction returns the topic" |
| `Canonical.RestrictPairs` | api/view.go:285-294 | all restrictions of a left by a right pattern that succeed, in order |
| `Canonical.Deduplicate` | api/view.go:298-322 | the nested loops with their exceptions compute the list of maximal patterns |
| `Canonical.DedupKeepsMaximal` | api/view.go:298-322 | exactly one copy of each maximal pattern is left, and nothing else |
| `Canonical.DedupMatchesSame` | api/view.go:298-322 | what the list matches does not change |
| `Canonical.DedupAntichain` | api/view.go:298-322 | no pattern left is below another |
| `Canonical.FoldAndCanonicalSuffixes` | api/view.go:279-324 | the recursion over the lists computes the fold the next two rows are about |
| `Canonical.FoldSound` | api/view.go:279-324 | the fold matches only topics that every list matches |
| `Canonical.FoldExact` | api/view.go:279-324 | on topics long enough for the patterns it matches exactly those |
| `Canonical.RoundIff` | api/view.go:285-322 | one round of the fold matches exactly the topics for which some pair of patterns, one from each list, matches and has room, short topics included |
| `Names.RestrictByText` | util/util.go:117-196 | the restriction on slash-separated text |
| `Names.RestrictTextReads` | util/util.go:117-196 | the printed result reads back as the restriction of the cells, and equality of the texts is equality of the cells |
| `Names.AnalyzeSuffix` | util/util.go:49-108 | valid exactly for accepted names; the flags describe the cells up to the first that is refused |
| `Names.AcceptedSimple` | util/util.go:49-108 | an accepted name has at most one star |
| `ScalarField.Reduce` | crypto/modm-donna-64bit.h:42-63 | the order is subtracted once exactly when the value is not below it, with the borrow and mask of the code |
| `ScalarField.BarrettQuotient` | crypto/modm-donna-64bit.h:65-91 | the quotient estimate misses the exact product by a bounded error, although low partial products are dropped; nothing overflows |
| `ScalarField.BarrettBound` | crypto/modm-donna-64bit.h:65-107 | the remainder left by the estimate is below three times the order |
| `ScalarField.Barrett` | crypto/modm-donna-64bit.h:65-107 | for every x below 2^512, x mod L |
| `ScalarField.Add` | crypto/modm-donna-64bit.h:110-121 | the sum of two reduced scalars mod L, also in place |
| `ScalarField.Mul` | crypto/modm-donna-64bit.h:123-150 | the product mod L of any two 256-bit scalars, also in place |
| `ScalarBytes.Expand` | crypto/modm-donna-64bit.h:152-187 | up to 64 little-endian bytes mod L |
| `ScalarBytes.Contract` | crypto/modm-donna-64bit.h:205-211 | 32 bytes with the scalar's value |
| `ScalarBytes.LeRoundTrip` | crypto/modm-donna-64bit.h:205-211 | bytes written for a number that fits read back as it |
| `ScalarBytes.LeUnique` | crypto/modm-donna-64bit.h:152-211 | bytes are determined by their number and their value |
| `Recoding.SlidingWindow` | crypto/modm-donna-64bit.h:240-280 | for all scalars up to 2^255: the digits sum to the scalar, nonzero digits are odd, small enough for the table and followed by w - 1 zeros, and the carry stays inside the array |
| `WindowFour.WindowDigits` | crypto/modm-donna-64bit.h:213-238 | 64 digits that sum to the scalar, from -8 to 7, the last at most 8 for scalars below 2^255 |
| `ScalarMult.BuildTable` | crypto/ed25519-donna-impl-base.h:263-266 | the eight odd multiples of the point |
| `ScalarMult.AddDigit` | crypto/ed25519-donna-impl-base.h:280-288 | a nonzero digit indexes the table in range and adds its signed multiple |
| `ScalarMult.DoubleScalarMult` | crypto/ed25519-donna-impl-base.h:251-292 | s1 p + s2 B in any abelian group, for all scalars up to 2^255 |
| `ScalarMult.Choose` | crypto/ed25519-donna-impl-base.h:303-328 | the scan over the row selects the multiple a digit from -8 to 8 stands for |
| `ScalarMult.ScalarMultBase` | crypto/ed25519-donna-impl-base.h:334-363 | s B in any abelian group, for all scalars below 2^255 |
| `BatchHeap.Batch.constructor` | crypto/ed25519-donna-batchverify.h:13-19 | an empty heap over the given points and scalars |
| `BatchHeap.SiftUpStep` | crypto/ed25519-donna-batchverify.h:30-48 | swapping a node with a smaller parent keeps a permutation and moves the one violation up |
| `BatchHeap.Batch.InsertNext` | crypto/ed25519-donna-batchverify.h:30-48 | the next index joins and the heap stays a permutation in order |
| `BatchHeap.SinkStep` | crypto/ed25519-donna-batchverify.h:50-77 | pulling up the larger child keeps a permutation and moves the hole down |
| `BatchHeap.Batch.UpdatedRoot` | crypto/ed25519-donna-batchverify.h:50-77 | after the root's scalar became smaller, a heap again, for every odd size |
| `BatchHeap.Batch.Extend` | crypto/ed25519-donna-batchverify.h:79-93 | the heap of the first `count` scalars |
| `BatchHeap.Batch.TopTwo` | crypto/ed25519-donna-batchverify.h:95-103 | a largest scalar and a largest of the others |
| `BatchHeap.RoundKeepsSum` | crypto/ed25519-donna-batchverify.h:182-184 | one round keeps the sum of scalar times point in any abelian group and takes the smaller scalar off the total |
| `BatchHeap.Batch.GiveAway` | crypto/ed25519-donna-batchverify.h:182-184 | the same in place, nothing else changed |
| `BatchHeap.Batch.Round` | crypto/ed25519-donna-batchverify.h:182-184 | a round leaves a heap, the sum over the points, and all that is outside the heap |
| `BatchHeap.Batch.BosCoster` | crypto/ed25519-donna-batchverify.h:150-188 | the loop ends with at most one nonzero scalar in the heap and the sum over all points unchanged; the second half joins exactly when two of the first half are not zero and no number from 2^128 up divides them all; the multiple left is the whole sum exactly when it joins or adds up to zero |
| `BatchHeap.LoopAnswer` | crypto/ed25519-donna-batchverify.h:150-188 | the whole sum is the multiple left plus the sum over what never joined |
| `Divisors.SameDivisors` | crypto/ed25519-donna-batchverify.h:182-184 | taking one scalar off another keeps the common divisors of all |
| `Divisors.TurnReduces` | crypto/ed25519-donna-batchverify.h:170-186 | a turn at scalars not yet below 2^128 keeps the common divisors, and two nonzero scalars unless a number from 2^128 up divides them all |
| `Divisors.JoinsNow` | crypto/ed25519-donna-batchverify.h:170-186 | when the larger of two nonzero scalars is below 2^128 the scalars at the start had no common divisor that large |
| `Divisors.NeverJoins` | crypto/ed25519-donna-batchverify.h:170-186 | when one scalar is left before that, they had one, or no two of them were nonzero |
| `BatchHeap.LoopMisses` | crypto/ed25519-donna-batchverify.h:150-188 | of the five scalars 0, 0, 0, 1, 0 the second half never joins and does not add up to zero |
| `BatchHeap.DoubleAndAdd` | crypto/ed25519-donna-batchverify.h:124-147 | from the point itself, the loop over the bits gives 2^n + scalar copies of the point, n its number of bits |
| `BatchHeap.LastScalar` | crypto/ed25519-donna-batchverify.h:107-148 | what the last step computes for every scalar: right for 0 and 1, no result exactly when the scalar is above one and its low 224 bits are zero, and otherwise right exactly when 2^n times the point is the multiple left out by the low bits, n their number |
| `BatchHeap.LastScalarExact` | crypto/ed25519-donna-batchverify.h:107-148 | with some copies too many and some left out, the result is right exactly when the two are the same multiple |
| `BatchHeap.LastScalarMisses` | crypto/ed25519-donna-batchverify.h:107-148 | with the scalar 2 over the integers the two differ |
| `Field.Add` | crypto/curve25519-donna-64bit.h:25-33 | the sum of the values, limb by limb |
| `Field.Sub` | crypto/curve25519-donna-64bit.h:62-70 | the difference plus 2p, no limb below zero |
| `Field.SubAfterBasic` | crypto/curve25519-donna-64bit.h:72-80 | the difference plus 4p, no limb below zero |
| `Field.AddReduce` | crypto/curve25519-donna-64bit.h:45-54 | the sum modulo p with limbs below 2^52 |
| `Field.SubReduce` | crypto/curve25519-donna-64bit.h:82-91 | the difference modulo p with limbs below 2^52, for every subtrahend that 4p covers limb by limb |
| `Field.Neg` | crypto/curve25519-donna-64bit.h:93-103 | the negative modulo p |
| `Field.Mul` | crypto/curve25519-donna-64bit.h:105-171 | for all limbs below 2^54 nothing overflows and the result is the product modulo p, limbs below 2^52 |
| `Field.Square` | crypto/curve25519-donna-64bit.h:236-284 | the same of the square |
| `FieldBytes.Expand` | crypto/curve25519-donna-64bit.h:286-319 | the low 255 bits of 32 bytes, limbs of 51 bits |
| `FieldBytes.Canonical` | crypto/curve25519-donna-64bit.h:321-363 | the limbs of the representative below p |
| `FieldBytes.Contract` | crypto/curve25519-donna-64bit.h:321-373 | the bytes of the one representative below p, for all limbs below 2^54 |
| `FieldBytes.ExpandContract` | crypto/curve25519-donna-64bit.h:286-373 | contracting what was expanded gives the same bytes exactly when they were below p |
| `FieldBytes.ContractExpand` | crypto/curve25519-donna-64bit.h:286-373 | expanding what was contracted gives the representative back |
| `Inversion.SquareTimes` | crypto/curve25519-donna-64bit.h:178-234 | count squarings raise to the power 2^count |
| `Inversion.PowOnes5To250` | crypto/curve25519-donna-helpers.h:12-31 | from z^(2^5 - 1) to z^(2^250 - 1) |
| `Inversion.Recip` | crypto/curve25519-donna-helpers.h:36-49 | z^(p - 2), through the squarings and products of the code |
| `Inversion.PowTwo252m3` | crypto/curve25519-donna-helpers.h:54-67 | z^(2^252 - 3) |
| `Primes.Fermat` | crypto/curve25519-donna-helpers.h:33-49 | Fermat's theorem, for every prime |
| `Primes.Certified` | crypto/curve25519-donna-helpers.h:33-49 | a criterion: n is prime if some prime q has 2q dividing n - 1, a power of a is 1 with exponent n - 1 and that with exponent (n - 1)/q less one has an inverse, and n leaves no room for two factors |
| `PrimeField.FieldPrime` | crypto/curve25519-donna-helpers.h:33-49 | 2^255 - 19 is prime |
| `FieldLaws.PowerInverts` | crypto/curve25519-donna-helpers.h:33-49 | z^(p - 2) is the inverse of every z that is not zero |
| `Points.CurveConstants` | crypto/ed25519-donna-64bit-tables.h:8-14 | d is -121665/121666 and the stored constant twice d |
| `Points.ToPartial` | crypto/ed25519-donna-impl-base.h:5-10 | three coordinates of the completed point, all operands in bounds |
| `Points.ToFull` | crypto/ed25519-donna-impl-base.h:12-18 | four coordinates of the completed point |
| `Points.FullToPniels` | crypto/ed25519-donna-impl-base.h:20-26 | the prepared form of the point |
| `Points.AddP1P1` | crypto/ed25519-donna-impl-base.h:32-50 | the sum formulas, every operand of a product below 2^54 and no subtraction below zero |
| `Points.DoubleP1P1` | crypto/ed25519-donna-impl-base.h:53-67 | the double formulas, in bounds |
| `Points.NielsAddP1P1` | crypto/ed25519-donna-impl-base.h:69-86 | the sum with a prepared point or its negative |
| `Points.PnielsAddP1P1` | crypto/ed25519-donna-impl-base.h:88-106 | the same in projective form |
| `Points.DoublePartial` | crypto/ed25519-donna-impl-base.h:108-113 | the double, fourth coordinate left alone |
| `Points.DoublePoint` | crypto/ed25519-donna-impl-base.h:115-120 | the double in full |
| `Points.AddPoints` | crypto/ed25519-donna-impl-base.h:122-127 | the sum in full |
| `Points.NielsAdd2` | crypto/ed25519-donna-impl-base.h:129-147 | the sum with a prepared point in place |
| `Points.PnielsAdd` | crypto/ed25519-donna-impl-base.h:149-172 | the sum in prepared form |
| `Points.FullExtended` | crypto/ed25519-donna-impl-base.h:12-18 | what is completed satisfies xy = zt |
| `Points.SumLaw` | crypto/ed25519-donna-impl-base.h:32-50 | for all points in extended coordinates the formulas give the sum of section 5.1.4 of RFC 8032, cleared of denominators |
| `Points.DoubleLaw` | crypto/ed25519-donna-impl-base.h:53-67 | for points of the curve the shorter formulas give the same law |
| `CurveClosure.SumOnCurve` | crypto/ed25519-donna-impl-base.h:32-50 | the sum of two points of the curve satisfies its equation in extended coordinates |
| `CurveClosure.DoubleOnCurve` | crypto/ed25519-donna-impl-base.h:53-67 | so does the double of one |
| `CurveClosure.ExtendedIsOnCurve` | crypto/ed25519-donna-impl-base.h:12-18 | that equation is the one for x/z and y/z times z^2 |
| `CurveClosure.OnCurveIsExtended` | crypto/ed25519-donna-impl-base.h:12-18 | where z has an inverse the two are the same |
| `CurveClosure.ZeroDenominator` | crypto/ed25519-donna-impl-base.h:32-50 | with z zero the equation for x/z and y/z can hold of what is no point, and is not kept by a sum |
| `Packing.Pack` | crypto/ed25519-donna-impl-base.h:179-189 | y over z reduced below p, with the parity of x over z in the top bit, for every z that is not zero |
| `Packing.RootConstants` | crypto/ed25519-donna-64bit-tables.h:8-18 | the stored constants are d and a square root of -1 |
| `Packing.CandidateRoot` | crypto/ed25519-donna-impl-base.h:206-217 | the candidate root n m^3 (n m^7)^((p-5)/8) |
| `Packing.TryRoot` | crypto/ed25519-donna-impl-base.h:219-230 | the candidate or its product with the root of -1, accepted exactly when one of them is a root |
| `Packing.FindRoot` | crypto/ed25519-donna-impl-base.h:206-230 | accepted exactly when the candidate root of section 5.1.3 of RFC 8032 squares to n/m or to its negative; what is returned is a root of n/m |
| `Packing.OppositeParity` | crypto/ed25519-donna-impl-base.h:232-236 | the root or its negative, zero or of the opposite parity |
| `Decoding.RootFound` | crypto/ed25519-donna-impl-base.h:206-230 | if n/m has a square root, the candidate is one of n/m or of its negative |
| `Decoding.DecodesExactly` | crypto/ed25519-donna-impl-base.h:206-230 | so the steps find an x for y exactly if the curve has a point with that y |
| `Decoding.UnpackNegative` | crypto/ed25519-donna-impl-base.h:191-239 | accepted exactly if the curve has a point with the given y; what is returned is a point of the curve with that y, in extended coordinates, x zero or of the parity not asked for |
| `Decoding.Unpacked` | crypto/ed25519-donna-impl-base.h:179-239 | for every point of the curve: the bytes of its packed form are accepted, and any point they are unpacked to is its negative |
| `Decoding.PackThenUnpack` | crypto/ed25519-donna-impl-base.h:179-239 | packing and then unpacking gives the negative of the point |
| `Hashing.Sha512.constructor` | crypto/ed25519-hash.h:108-121 | nothing taken in |
| `Hashing.Sha512.Blocks` | crypto/ed25519-hash.h:90-106 | the chaining value after n blocks and the bit count, over two words with carry |
| `Hashing.Sha512.Update` | crypto/ed25519-hash.h:123-151 | whatever was taken in before, the state of that followed by the new data, however it is split |
| `Hashing.Sha512.UpdateAll` | crypto/ed25519.c:70-82 | the parts taken in one by one are the joined message |
| `Hashing.OneBlock` | crypto/ed25519-hash.h:153-178 | padding that fits into the block begun |
| `Hashing.TwoBlocks` | crypto/ed25519-hash.h:153-178 | padding that spills into a second block |
| `Hashing.Sha512.Final` | crypto/ed25519-hash.h:153-178 | the digest of all that was taken in, defined on the whole padded message |
| `Signing.Hram` | crypto/ed25519.c:60-68 | the hash of the three parts joined |
| `Signing.HramVector` | crypto/ed25519.c:70-82 | the same with the message in parts |
| `Signing.PublicKey` | crypto/ed25519.c:84-95 | the packed multiple of the base by the clamped secret |
| `Signing.Sign` | crypto/ed25519.c:98-131 | the packed nonce point and the bytes of (h a + r) mod L |
| `Signing.SignVector` | crypto/ed25519.c:134-171 | the signature of the joined message |
| `Signing.SignatureUnique` | crypto/ed25519.c:98-171 | there is one signature, so both ways of signing agree byte for byte |
| `Signing.SignOpen` | crypto/ed25519.c:174-197 | accepted exactly when the top bits are clear, the key unpacks, and the recomputed point packs to the first half |
| `Signing.SignOpenVector` | crypto/ed25519.c:199-222 | the same of the joined message |
| `Signing.SignedIsAccepted` | crypto/ed25519.c:98-197 | for every message and secret key, what was signed is accepted under the public key |
| `Decimal.ParsePrint` | objects/frame.go:116-121 | a number printed in decimal reads back |
| `Decimal.ParsePadded` | objects/frame.go:215-217 | a zero-padded number reads back |
| `Decimal.PaddedIsTen` | objects/frame.go:215-217 | ten digits for every 32-bit number |
| `Decimal.ParseDotFormPrint` | objects/common.go:59-76 | every 32-bit number reads back from its dotted form |
| `Decimal.FromDotForm` | objects/common.go:62-76 | the loop over the four parts computes the value of the dotted form, or fails |
| `Frames.Frame.constructor` | objects/frame.go:107-115 | an empty frame whose length counts its last line |
| `Frames.Frame.AddHeader` | objects/frame.go:116-121 | the header is appended and the length still counts the bytes after the first line |
| `Frames.Frame.AddRoutingObject` | objects/frame.go:193-202 | the same for a routing object |
| `Frames.Frame.AddPayloadObject` | objects/frame.go:203-213 | the same for a payload object |
| `Frames.Frame.WriteToStream` | objects/frame.go:215-236 | first line, headers, objects and last line, in order |
| `Frames.FirstLineLength` | objects/frame.go:215-217 | 27 bytes |
| `FrameParser.LoadFrameFromStream` | objects/frame.go:249-394 | the loop over the entries computes the recursive reader, errors included |
| `FrameParser.HeaderReads` | objects/frame.go:292-309 | a written header is read as one entry, leaving the rest |
| `FrameParser.ROReads` | objects/frame.go:310-333 | a written routing object is read as one entry if it loads, and otherwise reading stops without a frame or an error |
| `FrameParser.POReads` | objects/frame.go:334-389 | the same of a payload object, whose dotted and plain numbers agree |
| `FrameParser.LoadWritten` | objects/frame.go:215-394 | what reading a written frame followed by anything gives, whatever the loader: the frame with its objects as they load and the rest left in the stream, or neither frame nor error |
| `FrameParser.NothingIff` | objects/frame.go:310-333 | neither exactly when some routing object does not load |
| `FrameParser.UnknownNumber` | objects/frame.go:310-333 | a frame with one object of a number the loader does not know |
| `FrameParser.RoundTrip` | objects/frame.go:215-394 | when the loader gives every object back, the written frame is read back and what follows is left in the stream |
| `FrameParser.RewriteIff` | objects/frame.go:292-309 | a frame written with its headers as they are read gives the same bytes exactly when it has none |
| `Abi.EncodeABICall` | bc/ufi.go:64-144 | fails exactly on a wrong number of arguments; otherwise the selector and the layout of the arguments |
| `Abi.HeadInPlace` | bc/ufi.go:64-144 | word i holds the value of argument i, or the offset of its tail |
| `Abi.DynamicInPlace` | bc/ufi.go:64-144 | every offset is a multiple of 32 and points at its own length word, which the bytes follow |
| `Abi.DecodeABIReturn` | bc/ufi.go:146-183 | the loop computes the recursive decoder: too short, a slice out of range, or the values |
| `Abi.AbiRoundTrip` | bc/ufi.go:64-183 | decoding what was encoded gives every value back, static bytes padded or cut to 32 |
| `Abi.DecodeUFI` | bc/ufi.go:185-230 | arguments up to the first zero nibble, return values up to the next, failure exactly at an unsupported type |

## Left out

- Command line, configuration, peer sockets, subscriptions, the block-chain connector, keystore, aliases and affinities: input and output around the code modelled here.
- `ed25519_sign_open_batch`: only its heap and multi-scalar loop are modelled.
- SSE2, inline assembly and 32-bit variants: the same mathematics in another radix.
- `box/custom.go` and the byte formats of DOTs, DOT chains and entities: routing objects are loaded by an opaque function with an opaque inverse.
- The verifier's conditions in `CheckAccessGrants` other than its hop count: signatures, expiry and permission sets.
- Permissions are a set of flags compared by inclusion; their text form is not modelled.
- Field elements and points are values: an output that overlaps an input is not modelled for them (it is for the scalars, which are arrays).
- Bit-or of words that share no bit is a sum, shifts and masks are quotients and remainders.
- Batch scalars are natural numbers: the limb count that shrinks as the loop goes on, and the batch compare and subtract it drives, are not modelled.
- The tables of multiples are assumed to hold what their comments say; the packed niels form of the base table is an element of the group.
- Points.SumLaw: gives the addition law of the curve, and CurveClosure.SumOnCurve that it stays on the curve; that the law is associative, and that no denominator is zero, is not proved, so the multiplications are stated over an abstract abelian group.
- Signing.Sign: compression, point packing and the group are parameters; a packed point is assumed to unpack to its negative, which Decoding.PackThenUnpack shows of the points of the curve, and the base to have order L.
- Hash strength, hardness of discrete logarithms, and constant time.
- Reading from the chain and writing the cache is one step, and so is a build: goroutines interleave between locked sections only, and a build reads the lists of all its keys at one time.
- ChainBuilder.Build: the search alone; Resolution.ResolutionData.Build has the cache around it.
- The registry only grows: no reorganisation. Blocks before the fifth, where the lagged read of the source wraps around, read an empty registry.
- The wall clock is the set of keys and DOTs expired so far; it may grow at any step, and the flushes of what has expired and the dropping of all caches are steps that may happen at any time.
- Resolution.ResolutionData.CheckChainChange: the drop of all caches that it starts runs as a goroutine of its own; it is Resolution.ResolutionData.DropAll, and the step Drop in Staleness.
- Staleness.BoundedStaleness: takes the grants as read in full; RegistryLog.ResolveDOTsFromVK says that the reader stops early at a zero hash and nowhere else.
- Keys and hashes are natural numbers; resolving a key from its text is a parameter.
- The contract's bounties, DOT chains and patents, and the signatures it has the chain check: unpacked objects and the right to revoke are parameters.
- CachedAnswers.AnswerIff: what the answer is compared with is a search that sees every DOT in the state it has in the registry; the states cached when the answer is given are those of Staleness.RevokedIsInvalid.
- Names and frames are sequences of characters, one for each byte.
- FrameParser.LoadWritten: for frames whose command has four bytes, whose keys have no space or newline and whose numbers are below 2^32.
- Abi.EncodeABICall: arguments match their types. Arguments as hexadecimal text, strings, which nothing decodes, and signed integers, whose conversion is in a library that is not part of the repository, are not modelled.
- Abi.DecodeABIReturn: slices are bounded by the length of the data, where Go bounds them by the capacity of the buffer behind it; signed integers are not modelled.
- `MakeUFI` and the parsing of a descriptor from text.
