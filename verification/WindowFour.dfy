/** The fixed signed 4-bit window recoding used for base-point multiplication. */
module WindowFour {
  import opened Words
  import opened ScalarField

  function P16(n: nat): (p: nat)
    ensures p > 0
  {
    if n == 0 then 1 else 16 * P16(n - 1)
  }

  /** The number hexadecimal digits (of any size and sign) stand for, least significant first. */
  function Eval16(s: seq<int>): int {
    if s == [] then 0 else s[0] + 16 * Eval16(s[1..])
  }

  ghost predicate Nibbles(s: seq<int>) {
    forall i :: 0 <= i < |s| ==> 0 <= s[i] < 16
  }

  lemma {:induction false} P16Add(m: nat, n: nat)
    ensures P16(m + n) == P16(m) * P16(n)
  {
    if m > 0 {
      P16Add(m - 1, n);
      Times16(P16(m - 1), P16(n));
    }
  }

  lemma Times16(p: int, v: int)
    ensures 16 * (p * v) == (16 * p) * v
  {
  }

  lemma {:induction false} Eval16Append(s: seq<int>, t: seq<int>)
    ensures Eval16(s + t) == Eval16(s) + P16(|s|) * Eval16(t)
  {
    if s == [] {
      assert s + t == t;
    } else {
      assert (s + t)[1..] == s[1..] + t;
      Eval16Append(s[1..], t);
      Times16(P16(|s| - 1), Eval16(t));
    }
  }

  lemma {:induction false} Eval16Update(s: seq<int>, i: nat, x: int)
    requires i < |s|
    ensures Eval16(s[i := x]) == Eval16(s) + P16(i) * (x - s[i])
  {
    if i == 0 {
      assert s[0 := x][1..] == s[1..];
    } else {
      assert s[i := x][1..] == s[1..][i - 1 := x];
      Eval16Update(s[1..], i - 1, x);
      Times16(P16(i - 1), x - s[i]);
    }
  }

  lemma {:induction false} NibblesBelow(s: seq<int>)
    requires Nibbles(s)
    ensures 0 <= Eval16(s) < P16(|s|)
  {
    if s != [] {
      NibblesBelow(s[1..]);
    }
  }

  lemma NextNibble(p: int, u: int)
    ensures p * u == p * (u % 16) + (16 * p) * (u / 16)
  {
    assert u == u % 16 + 16 * (u / 16);
    assert p * (u % 16 + 16 * (u / 16)) == p * (u % 16) + p * (16 * (u / 16));
  }

  /** Writes the low `n` nibbles of `v` after the `at` digits already there. */
  method PutNibbles(r: array<int>, at: nat, v: nat, n: nat)
    requires at + n <= r.Length && Nibbles(r[..at]) && v < P16(n)
    modifies r
    ensures Nibbles(r[..at + n]) && Eval16(r[..at + n]) == old(Eval16(r[..at])) + P16(at) * v
  {
    var u, j := v, 0;
    ghost var low := r[..at];
    ghost var mine: seq<int> := [];
    while j < n
      invariant 0 <= j <= n && 0 <= u
      invariant r[..at + j] == low + mine && |mine| == j
      invariant Nibbles(mine) && v == Eval16(mine) + P16(j) * u
    {
      r[at + j] := u % 16;
      assert r[..at + (j + 1)] == low + (mine + [u % 16]);
      Eval16Append(mine, [u % 16]);
      NextNibble(P16(j), u);
      mine := mine + [u % 16];
      u := u / 16;
      j := j + 1;
    }
    NibblesBelow(mine);
    QuotRem(v, P16(n), u, Eval16(mine));
    QuotRem(v, P16(n), 0, v);
    Eval16Append(low, mine);
  }

  /** The number the first `n` limbs stand for. */
  function LimbPrefix(s: seq<int>, n: nat): int
    requires n <= |s|
  {
    if n == 0 then 0 else LimbPrefix(s, n - 1) + P16(14 * (n - 1)) * s[n - 1]
  }

  lemma Powers()
    ensures P16(8) == 0x100000000 && P16(14) == 0x100000000000000
    ensures P16(28) == 0x10000000000000000000000000000
    ensures P16(42) == 0x1000000000000000000000000000000000000000000
    ensures P16(56) == 0x100000000000000000000000000000000000000000000000000000000
  {
    P16Add(6, 8);
    P16Add(14, 14);
    P16Add(28, 14);
    P16Add(28, 28);
  }

  lemma AllLimbs(s: seq<int>)
    requires |s| == 5
    ensures LimbPrefix(s, 5) == Value(s)
  {
    Powers();
    assert LimbPrefix(s, 1) == s[0];
    assert LimbPrefix(s, 2) == s[0] + P16(14) * s[1];
    assert LimbPrefix(s, 3) == LimbPrefix(s, 2) + P16(28) * s[2];
    assert LimbPrefix(s, 4) == LimbPrefix(s, 3) + P16(42) * s[3];
    assert LimbPrefix(s, 5) == LimbPrefix(s, 4) + P16(56) * s[4];
  }

  lemma LimbFits(s: seq<u64>, i: nat, m: nat)
    requires Fits(s, 0x1_0000_0000) && i < 5 && m == if i == 4 then 8 else 14
    ensures s[i] < P16(m)
  {
    Powers();
  }

  method HexExpansion(r: array<int>, s: array<u64>)
    requires r.Length == 64 && Fits(s[..], 0x1_0000_0000)
    modifies r
    ensures Nibbles(r[..]) && Eval16(r[..]) == Value(s[..])
  {
    var i, quads := 0, 0;
    while i < 5
      invariant 0 <= i <= 5 && quads == if i == 5 then 64 else 14 * i
      invariant Nibbles(r[..quads]) && Eval16(r[..quads]) == LimbPrefix(s[..], i)
    {
      var m := if i == 4 then 8 else 14;
      LimbFits(s[..], i, m);
      PutNibbles(r, quads, s[i], m);
      quads := quads + m;
      i := i + 1;
    }
    assert r[..] == r[..64];
    AllLimbs(s[..]);
  }

  /** The digits below i are signed, the digit at i may hold one more, and the sum is still v. */
  ghost predicate Signed(s: seq<int>, i: nat, carry: int, v: int) {
    && |s| == 64 && i < 64 && 0 <= carry <= 1
    && (forall k :: 0 <= k < i ==> -8 <= s[k] < 8)
    && (forall k :: i < k < 64 ==> 0 <= s[k] < 16)
    && 0 <= s[i] && s[i] + carry <= 16
    && Eval16(s) + P16(i) * carry == v
  }

  lemma SignStep(s: seq<int>, i: nat, carry: int, v: int, x: int, t: seq<int>, c: int)
    requires Signed(s, i, carry, v) && i < 63
    requires x == s[i] + carry && c == (x % 16) / 8
    requires t == s[i := x % 16 - 16 * c][i + 1 := s[i + 1] + x / 16]
    ensures Signed(t, i + 1, c, v)
  {
    var u := s[i := x % 16 - 16 * c];
    Eval16Update(s, i, x % 16 - 16 * c);
    Eval16Update(u, i + 1, s[i + 1] + x / 16);
    Balance(P16(i), x, c, s[i], carry);
  }

  lemma Balance(p: int, x: int, c: int, d: int, carry: int)
    requires x == d + carry
    ensures p * (x % 16 - 16 * c - d) + (16 * p) * (x / 16) + (16 * p) * c == p * carry
  {
    var q, m := x / 16, x % 16;
    assert x == 16 * q + m;
    assert p * (m - 16 * c - d) + (16 * p) * q + (16 * p) * c == p * (m - 16 * c - d + 16 * q + 16 * c);
  }

  /**
   The signed window of every scalar below 2^255: 64 digits that add up to the scalar,
   each between -8 and 8 (below 8, except the last).
   */
  method WindowDigits(r: array<int>, s: array<u64>)
    requires r.Length == 64 && Fits(s[..], 0x1_0000_0000)
    modifies r
    ensures Eval16(r[..]) == Value(s[..])
    ensures forall k :: 0 <= k < 63 ==> -8 <= r[k] < 8
    ensures 0 <= r[63] <= if Value(s[..]) < B255 then 8 else 16
  {
    HexExpansion(r, s);
    ghost var v := Value(s[..]);
    TopNibble(r[..], v);
    ghost var top := r[63];
    var carry, i := 0, 0;
    while i < 63
      invariant 0 <= i <= 63 && Signed(r[..], i, carry, v)
      invariant if i < 63 then r[63] == top else r[63] + carry <= top + 1
    {
      carry := SignDigit(r, i, carry, v);
      i := i + 1;
    }
    ghost var last := r[..];
    LastDigit(r[..], carry, v);
    r[63] := r[63] + carry;
    assert r[..] == last[63 := last[63] + carry];
  }

  /** One turn of the loop that makes the digits signed. */
  method SignDigit(r: array<int>, i: nat, carry: int, ghost v: int) returns (c: int)
    requires r.Length == 64 && i < 63 && Signed(r[..], i, carry, v)
    modifies r
    ensures Signed(r[..], i + 1, c, v)
    ensures i + 1 < 63 ==> r[63] == old(r[63])
    ensures i + 1 == 63 ==> r[63] + c <= old(r[63]) + 1
  {
    ghost var before := r[..];
    r[i] := r[i] + carry;
    ghost var x := r[i];
    r[i + 1] := r[i + 1] + r[i] / 16;
    r[i] := r[i] % 16;
    c := r[i] / 8;
    r[i] := r[i] - 16 * c;
    assert r[..] == before[i := x % 16 - 16 * c][i + 1 := before[i + 1] + x / 16];
    SignStep(before, i, carry, v, x, r[..], c);
  }

  lemma LastDigit(s: seq<int>, carry: int, v: int)
    requires Signed(s, 63, carry, v)
    ensures Eval16(s[63 := s[63] + carry]) == v
  {
    Eval16Update(s, 63, s[63] + carry);
  }

  lemma P63()
    ensures P16(63) * 8 == B255
  {
    Powers();
    P16Add(7, 56);
  }

  lemma TopNibble(s: seq<int>, v: int)
    requires |s| == 64 && Nibbles(s) && Eval16(s) == v
    ensures v < B255 ==> s[63] < 8
  {
    P63();
    assert s == s[..63] + [s[63]];
    Eval16Append(s[..63], [s[63]]);
    NibblesBelow(s[..63]);
    if s[63] >= 8 {
      MulBelow(P16(63), 8, P16(63), s[63]);
    }
  }
}
