/**
 When the second half of the scalars joins the Bos-Coster loop. Taking the second largest scalar
 off the largest keeps their common divisors, so the largest gets below 2^128 while there is
 still something to take off exactly when two scalars are nonzero and no number of more than 128
 bits divides them all.
 */
module Divisors {
  import opened Words

  const B128: nat := 0x1_0000_0000_0000_0000_0000_0000_0000_0000

  ghost predicate CommonDivisor(k: nat, s: seq<nat>) {
    k > 0 && forall i :: 0 <= i < |s| ==> s[i] % k == 0
  }

  ghost predicate TwoNonzero(s: seq<nat>) {
    exists i, j :: 0 <= i < j < |s| && s[i] != 0 && s[j] != 0
  }

  ghost predicate LargeDivisor(s: seq<nat>) {
    exists k :: k >= B128 && CommonDivisor(k, s)
  }

  ghost predicate Joins(s: seq<nat>) {
    TwoNonzero(s) && !LargeDivisor(s)
  }

  lemma DifferenceMultiple(x: nat, y: nat, k: nat)
    requires k > 0 && y <= x && y % k == 0
    ensures (x - y) % k == 0 <==> x % k == 0
  {
    var p, q, r := x / k, y / k, x % k;
    assert x == k * p + r && y == k * q;
    assert k * (p - q) == k * p - k * q;
    QuotRem(x - y, k, p - q, r);
  }

  lemma SameDivisors(s: seq<nat>, a: nat, b: nat, k: nat)
    requires a < |s| && b < |s| && a != b && s[b] <= s[a]
    ensures CommonDivisor(k, s[a := s[a] - s[b]]) <==> CommonDivisor(k, s)
  {
    var t := s[a := s[a] - s[b]];
    if CommonDivisor(k, s) {
      DifferenceMultiple(s[a], s[b], k);
    }
    if CommonDivisor(k, t) {
      assert t[b] % k == 0 && t[a] % k == 0;
      DifferenceMultiple(s[a], s[b], k);
      forall i | 0 <= i < |s| ensures s[i] % k == 0 {
        assert i != a ==> t[i] == s[i];
      }
    }
  }

  /** What turns before the second half joins make of the scalars. */
  ghost predicate Reduced(orig: seq<nat>, s: seq<nat>) {
    && |s| == |orig| && (forall i :: 0 <= i < |s| && s[i] != 0 ==> orig[i] != 0)
    && (forall k :: CommonDivisor(k, s) <==> CommonDivisor(k, orig))
    && (TwoNonzero(orig) ==> TwoNonzero(s) || LargeDivisor(orig))
  }

  lemma StillTwo(orig: seq<nat>, s: seq<nat>, a: nat, b: nat)
    requires Reduced(orig, s) && a < |s| && b < |s| && a != b && 0 < s[b] <= s[a] && s[a] >= B128
    ensures TwoNonzero(s[a := s[a] - s[b]]) || LargeDivisor(orig)
  {
    var t := s[a := s[a] - s[b]];
    if !TwoNonzero(t) {
      forall i | 0 <= i < |s| ensures s[i] % s[b] == 0 {
        if i != b {
          assert t[b] != 0;
          assert t[if i < b then i else b] == 0 || t[if i < b then b else i] == 0;
          assert t[i] == 0;
        }
      }
      assert CommonDivisor(s[b], s) && t[a] == 0;
    }
  }

  lemma TurnReduces(orig: seq<nat>, s: seq<nat>, a: nat, b: nat)
    requires Reduced(orig, s) && a < |s| && b < |s| && a != b && 0 < s[b] <= s[a] && s[a] >= B128
    ensures Reduced(orig, s[a := s[a] - s[b]])
  {
    forall k ensures CommonDivisor(k, s[a := s[a] - s[b]]) <==> CommonDivisor(k, orig) {
      SameDivisors(s, a, b, k);
    }
    StillTwo(orig, s, a, b);
  }

  /** Two scalars left, the larger below 2^128. */
  lemma JoinsNow(orig: seq<nat>, s: seq<nat>, a: nat, b: nat)
    requires Reduced(orig, s) && a < |s| && b < |s| && a != b && 0 < s[b] <= s[a] < B128
    ensures Joins(orig)
  {
    assert orig[a] != 0 && orig[b] != 0;
    assert TwoNonzero(orig) by {
      var i, j := if a < b then a else b, if a < b then b else a;
      assert orig[i] != 0 && orig[j] != 0;
    }
    if LargeDivisor(orig) {
      var k :| k >= B128 && CommonDivisor(k, orig);
      assert CommonDivisor(k, s);
      QuotRem(s[a], k, 0, s[a]);
      assert false;
    }
  }

  /** One scalar left. */
  lemma NeverJoins(orig: seq<nat>, s: seq<nat>, m: nat)
    requires Reduced(orig, s) && forall i :: 0 <= i < |s| && i != m ==> s[i] == 0
    ensures !Joins(orig)
  {
  }
}
