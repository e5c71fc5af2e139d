/**
 * Delegations of trust. A DOT grants permissions on a namespace, under a resource pattern, from a giver's key
 * to a receiver's key, and lets them be passed on a limited number of times.
 */
module Delegation {
  import opened Options
  import opened Patterns
  import opened Restriction

  type Key = nat
  type Hash = nat

  datatype Perm = Publish | Consume | ConsumePlus | ConsumeStar | Tap | TapPlus | TapStar | List

  datatype DOT = DOT(hash: Hash, giver: Key, receiver: Key, ns: Key, suffix: seq<Cell>, perms: set<Perm>, ttl: nat)

  /** What a lookup of a DOT by its hash says of it. */
  datatype State = Unknown | Valid | Expired | Revoked | Error
  datatype Link = Found(dot: DOT, state: State) | Absent(state: State)

  predicate Usable(l: Link) {
    l.Found? && l.state == Valid
  }

  // ---- how far trust may be passed on ----

  function TTL(chain: seq<DOT>): (r: int) {
    if chain == [] then 256
    else
      var before := TTL(chain[..|chain| - 1]) - 1;
      var own := chain[|chain| - 1].ttl;
      if own < before then own else before
  }

  method ComputeTTL(chain: seq<DOT>) returns (ttl: int)
    ensures ttl == TTL(chain)
  {
    ttl := 256;
    for i := 0 to |chain|
      invariant ttl == TTL(chain[..i])
    {
      assert chain[..i + 1][..i] == chain[..i];
      ttl := ttl - 1;
      if chain[i].ttl < ttl {
        ttl := chain[i].ttl;
      }
    }
    assert chain[..|chain|] == chain;
  }

  /** At least k more hops are left exactly when every DOT, and the overall limit, has k hops to spare. */
  lemma {:induction false} TTLIff(chain: seq<DOT>, k: int)
    ensures TTL(chain) >= k <==>
      |chain| + k <= 256 && forall i :: 0 <= i < |chain| ==> chain[i].ttl >= |chain| - 1 - i + k
    decreases |chain|
  {
    if chain != [] {
      TTLIff(chain[..|chain| - 1], k + 1);
      assert chain[|chain| - 1].ttl >= k <==> chain[|chain| - 1].ttl >= |chain| - 1 - (|chain| - 1) + k;
    }
  }

  lemma TTLFalls(chain: seq<DOT>, d: DOT)
    ensures TTL(chain + [d]) <= TTL(chain) - 1
  {
    assert (chain + [d])[..|chain|] == chain;
  }

  /** The verifier's own count of the hops, which starts one lower. */
  predicate HopsAllowed(chain: seq<DOT>, ttl: nat)
    decreases |chain|
  {
    chain == [] ||
    (ttl != 0 && HopsAllowed(chain[1..], if chain[0].ttl < ttl - 1 then chain[0].ttl else ttl - 1))
  }

  method CheckHops(chain: seq<DOT>) returns (ok: bool)
    ensures ok == HopsAllowed(chain, 255)
  {
    var ttl: nat := 255;
    for i := 0 to |chain|
      invariant HopsAllowed(chain, 255) == HopsAllowed(chain[i..], ttl)
    {
      if ttl == 0 {
        return false;
      }
      assert chain[i..][1..] == chain[i + 1..];
      ttl := ttl - 1;
      if chain[i].ttl < ttl {
        ttl := chain[i].ttl;
      }
    }
    return true;
  }

  lemma {:induction false} HopsAllowedIff(chain: seq<DOT>, ttl: nat)
    ensures HopsAllowed(chain, ttl) <==>
      |chain| <= ttl && forall i :: 0 <= i < |chain| ==> chain[i].ttl >= |chain| - 1 - i
    decreases |chain|
  {
    if chain != [] && ttl != 0 {
      var next := if chain[0].ttl < ttl - 1 then chain[0].ttl else ttl - 1;
      HopsAllowedIff(chain[1..], next);
      if HopsAllowed(chain, ttl) {
        forall i | 0 <= i < |chain| ensures chain[i].ttl >= |chain| - 1 - i {
          assert i > 0 ==> chain[i] == chain[1..][i - 1];
        }
      } else if |chain| <= ttl && chain[0].ttl >= |chain| - 1 {
        var i :| 0 <= i < |chain[1..]| && chain[1..][i].ttl < |chain[1..]| - 1 - i;
        assert chain[i + 1].ttl < |chain| - 1 - (i + 1);
      }
    }
  }

  /** A chain found by the search passes the verifier's count, unless it has all of 256 DOTs. */
  lemma SearchAgainstVerifier(chain: seq<DOT>)
    ensures TTL(chain) >= 0 && |chain| != 256 <==> HopsAllowed(chain, 255)
  {
    TTLIff(chain, 0);
    HopsAllowedIff(chain, 255);
  }

  // ---- what a chain grants ----

  /** The pattern of the first DOT restricted by all the others in turn. */
  function FoldSuffix(chain: seq<DOT>): (r: Option<seq<Cell>>)
    requires chain != []
  {
    if |chain| == 1 then Some(chain[0].suffix)
    else
      var before := FoldSuffix(chain[..|chain| - 1]);
      if before.None? then None else Restrict(before.value, chain[|chain| - 1].suffix)
  }
}
