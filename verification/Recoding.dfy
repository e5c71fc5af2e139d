/**
 Signed-digit recodings of a scalar: the sliding window and the fixed 4-bit window of
 crypto/modm-donna-64bit.h.
 */
module Recoding {
  import opened Words
  import opened ScalarField

  function P2(n: nat): (p: nat)
    ensures p > 0
  {
    if n == 0 then 1 else 2 * P2(n - 1)
  }

  /** The number binary digits (of any size and sign) stand for, least significant first. */
  function Eval(s: seq<int>): int {
    if s == [] then 0 else s[0] + 2 * Eval(s[1..])
  }

  ghost predicate Bits(s: seq<int>) {
    forall i :: 0 <= i < |s| ==> s[i] == 0 || s[i] == 1
  }

  lemma {:induction false} P2Add(m: nat, n: nat)
    ensures P2(m + n) == P2(m) * P2(n)
  {
    if m > 0 {
      P2Add(m - 1, n);
      Double(P2(m - 1), P2(n));
    }
  }

  lemma Double(p: int, v: int)
    ensures 2 * (p * v) == (2 * p) * v
  {
  }

  lemma {:induction false} EvalAppend(s: seq<int>, t: seq<int>)
    ensures Eval(s + t) == Eval(s) + P2(|s|) * Eval(t)
  {
    if s == [] {
      assert s + t == t;
    } else {
      assert (s + t)[1..] == s[1..] + t;
      EvalAppend(s[1..], t);
      Double(P2(|s| - 1), Eval(t));
    }
  }

  lemma {:induction false} EvalUpdate(s: seq<int>, i: nat, x: int)
    requires i < |s|
    ensures Eval(s[i := x]) == Eval(s) + (x - s[i]) * P2(i)
  {
    if i == 0 {
      assert s[0 := x][1..] == s[1..];
    } else {
      assert s[i := x][1..] == s[1..][i - 1 := x];
      EvalUpdate(s[1..], i - 1, x);
      Double(P2(i - 1), x - s[i]);
      assert (x - s[i]) * P2(i - 1) == P2(i - 1) * (x - s[i]);
      assert (x - s[i]) * P2(i) == P2(i) * (x - s[i]);
    }
  }

  lemma {:induction false} EvalZeros(s: seq<int>)
    requires forall i :: 0 <= i < |s| ==> s[i] == 0
    ensures Eval(s) == 0
  {
    if s != [] {
      EvalZeros(s[1..]);
    }
  }

  lemma {:induction false} BitsBelow(s: seq<int>)
    requires Bits(s)
    ensures 0 <= Eval(s) < P2(|s|)
  {
    if s != [] {
      BitsBelow(s[1..]);
    }
  }

  // ----- the binary expansion -----

  /** Writes the low `n` bits of `v` into r[at..at + n]. */
  method PutBits(r: array<int>, at: nat, v: nat, n: nat)
    requires at + n <= r.Length
    modifies r
    ensures Bits(r[at..at + n]) && Eval(r[at..at + n]) == v % P2(n)
    ensures forall i :: 0 <= i < r.Length && !(at <= i < at + n) ==> r[i] == old(r[i])
  {
    var u, j := v, 0;
    while j < n
      invariant 0 <= j <= n && 0 <= u
      invariant Bits(r[at..at + j]) && v == Eval(r[at..at + j]) + P2(j) * u
      invariant forall i :: 0 <= i < r.Length && !(at <= i < at + j) ==> r[i] == old(r[i])
    {
      ghost var done := r[at..at + j];
      r[at + j] := u % 2;
      assert r[at..at + (j + 1)] == done + [u % 2];
      EvalAppend(done, [u % 2]);
      NextBit(P2(j), u);
      u := u / 2;
      j := j + 1;
    }
    BitsBelow(r[at..at + n]);
    QuotRem(v, P2(n), u, Eval(r[at..at + n]));
  }

  lemma NextBit(p: int, u: int)
    ensures p * u == p * (u % 2) + (2 * p) * (u / 2)
  {
    assert u == u % 2 + 2 * (u / 2);
    assert p * (u % 2 + 2 * (u / 2)) == p * (u % 2) + p * (2 * (u / 2));
  }

  /** The number the first `n` limbs stand for. */
  function LimbPrefix(s: seq<int>, n: nat): int
    requires n <= |s|
  {
    if n == 0 then 0 else LimbPrefix(s, n - 1) + P2(56 * (n - 1)) * s[n - 1]
  }

  lemma AllLimbs(s: seq<int>)
    requires |s| == 5
    ensures LimbPrefix(s, 4) + P2(224) * s[4] == Value(s)
  {
    P56();
    P224();
    assert LimbPrefix(s, 1) == s[0];
    assert LimbPrefix(s, 2) == s[0] + P2(56) * s[1];
    assert LimbPrefix(s, 3) == LimbPrefix(s, 2) + P2(112) * s[2];
    assert LimbPrefix(s, 4) == LimbPrefix(s, 3) + P2(168) * s[3];
  }

  lemma P56()
    ensures P2(32) == 0x100000000 && P2(56) == 0x100000000000000
  {
    assert P2(8) == 0x100;
    P2Add(8, 8);
    P2Add(16, 16);
    P2Add(8, 16);
    P2Add(24, 32);
  }

  lemma P224()
    ensures P2(112) == 0x10000000000000000000000000000
    ensures P2(168) == 0x1000000000000000000000000000000000000000000
    ensures P2(224) == 0x100000000000000000000000000000000000000000000000000000000
  {
    P56();
    P2Sum(56, 56, 112);
    P2Sum(112, 56, 168);
    P2Sum(112, 112, 224);
  }

  lemma P2Sum(m: nat, n: nat, k: nat)
    requires k == m + n
    ensures P2(k) == P2(m) * P2(n)
  {
    P2Add(m, n);
  }

  /** The binary expansion of a 256-bit scalar. */
  method BinaryExpansion(r: array<int>, s: array<u64>)
    requires r.Length == 256 && Fits(s[..], 0x1_0000_0000)
    modifies r
    ensures Bits(r[..]) && Eval(r[..]) == Value(s[..])
  {
    var i := 0;
    while i < 4
      invariant 0 <= i <= 4
      invariant Bits(r[..56 * i]) && Eval(r[..56 * i]) == LimbPrefix(s[..], i)
    {
      PutLimb(r, 56 * i, s[i], 56);
      i := i + 1;
    }
    PutLimb(r, 224, s[4], 32);
    assert r[..] == r[..224 + 32];
    AllLimbs(s[..]);
  }

  method PutLimb(r: array<int>, at: nat, v: nat, n: nat)
    requires at + n <= r.Length && Bits(r[..at])
    requires (n == 56 && v < 0x100000000000000) || (n == 32 && v < 0x100000000)
    modifies r
    ensures Bits(r[..at + n]) && Eval(r[..at + n]) == old(Eval(r[..at])) + P2(at) * v
  {
    ghost var before := r[..at];
    PutBits(r, at, v, n);
    assert r[..at + n] == before + r[at..at + n];
    EvalAppend(before, r[at..at + n]);
    P56();
    QuotRem(v, P2(n), 0, v);
  }

  // ----- the sliding window -----

  /** Adds one to the binary number in r[c..]: the carry loop of the recoding. */
  method AddCarry(r: array<int>, c: nat)
    requires c <= r.Length && Bits(r[c..])
    requires Eval(r[c..]) + 1 < P2(r.Length - c)
    modifies r
    ensures Bits(r[c..]) && Eval(r[c..]) == old(Eval(r[c..])) + 1
    ensures forall i :: 0 <= i < c ==> r[i] == old(r[i])
  {
    var k := c;
    while k < r.Length
      invariant c <= k <= r.Length && Bits(r[c..])
      invariant forall i :: c <= i < k ==> r[i] == 0
      invariant Eval(r[c..]) + P2(k - c) == old(Eval(r[c..])) + 1
      invariant forall i :: 0 <= i < c ==> r[i] == old(r[i])
    {
      ghost var before := r[c..];
      if r[k] == 0 {
        r[k] := 1;
        assert r[c..] == before[k - c := 1];
        EvalUpdate(before, k - c, 1);
        return;
      }
      r[k] := 0;
      assert r[c..] == before[k - c := 0];
      EvalUpdate(before, k - c, 0);
      k := k + 1;
    }
    EvalZeros(r[c..]);
  }

  /** A legal digit of a width-w window: odd, and below 2^(w-1) in absolute value. */
  ghost predicate Digit(d: int, w: nat)
    requires w > 0
  {
    d % 2 == 1 && -d < P2(w - 1) && d < P2(w - 1)
  }

  ghost predicate Gap(s: seq<int>, from: nat, to: nat) {
    forall k :: from <= k < to && k < |s| ==> s[k] == 0
  }

  lemma GapTail(s: seq<int>, n: nat)
    requires n <= |s| && Gap(s, n, |s|)
    ensures Eval(s[n..]) == 0
  {
    EvalZeros(s[n..]);
  }

  lemma {:induction false} P2Monotone(m: nat, n: nat)
    requires m <= n
    ensures P2(m) <= P2(n)
  {
    if m < n {
      P2Monotone(m, n - 1);
    }
  }

  lemma {:induction false} EvalGap(s: seq<int>, b: nat)
    requires 1 <= b <= |s| && Gap(s, 1, b)
    ensures Eval(s) == s[0] + P2(b) * Eval(s[b..])
    ensures Eval(s[1..]) == P2(b - 1) * Eval(s[b..])
  {
    assert s[1..] == s[1..b] + s[b..];
    EvalZeros(s[1..b]);
    EvalAppend(s[1..b], s[b..]);
    Double(P2(b - 1), Eval(s[b..]));
  }

  lemma Scaled(p: int, x: int, y: int)
    requires 0 < p && p * x < p * y
    ensures x < y
  {
    if y <= x {
      MulBelow(p, 0, p, x - y);
      assert false;
    }
  }

  /** The rest of the number leaves room for a carry at distance b from a positive digit. */
  lemma RoomForCarry(v: int, d: int, e: int, n: nat, b: nat)
    requires b <= n && v == d + P2(b) * e && 0 < d && v <= P2(n)
    ensures e + 1 <= P2(n - b)
  {
    P2Add(b, n - b);
    Scaled(P2(b), e, P2(n - b));
  }

  /** After looking at distances below b, the digit at j and the bits beyond still make up v. */
  ghost predicate Sliding(s: seq<int>, j: nat, b: nat, w: nat, v: int) {
    && |s| == 256 && 1 <= b && j + b <= 256 && 2 <= w <= 7
    && Digit(s[j], w) && Gap(s, j + 1, j + b) && Bits(s[j + 1..])
    && v == s[j] + P2(b) * Eval(s[j + b..]) <= P2(255 - j)
    && (j + b < 256 ==> Eval(s[j + b..]) <= P2(255 - j - b))
  }

  lemma HalfRoom(e: int, bit: int, rest: int, n: nat)
    requires e == bit + 2 * rest && e <= P2(n) && 0 <= bit && 0 < n
    ensures rest <= P2(n - 1)
  {
  }

  lemma OddShift(d: int, p: int)
    requires d % 2 == 1
    ensures (d + 2 * p) % 2 == 1 && (d - 2 * p) % 2 == 1
  {
  }

  lemma MoveTwo(p: int, v: int)
    ensures p * (2 * v) == 2 * (p * v)
  {
  }

  lemma NextDistance(j: nat, b: nat, w: nat, v: int, t: seq<int>, rest: int)
    requires 1 <= b && j + b < 256 && 2 <= w <= 7 && v <= P2(255 - j)
    requires |t| == 256 && Digit(t[j], w) && Gap(t, j + 1, j + b + 1) && Bits(t[j + 1..])
    requires rest == Eval(t[j + b + 1..]) && 2 * rest <= P2(255 - j - b)
    requires v == t[j] + P2(b) * (2 * rest)
    ensures Sliding(t, j, b + 1, w, v)
  {
    Double(P2(b), rest);
    MoveTwo(P2(b), rest);
    if j + b + 1 < 256 {
      HalfRoom(2 * rest, 0, rest, 255 - j - b);
    }
  }

  lemma AddedDigit(d: int, bit: int, b: nat, w: nat)
    requires w >= 1 && b >= 1 && Digit(d, w) && 0 <= bit <= 1 && d + bit * P2(b) < P2(w - 1)
    ensures Digit(d + bit * P2(b), w)
  {
    OddShift(d, bit * P2(b - 1));
  }

  lemma AddStep(s: seq<int>, j: nat, b: nat, w: nat, v: int, t: seq<int>)
    requires Sliding(s, j, b, w, v) && j + b < 256
    requires s[j] + s[j + b] * P2(b) < P2(w - 1)
    requires t == s[j := s[j] + s[j + b] * P2(b)][j + b := 0]
    ensures Sliding(t, j, b + 1, w, v)
  {
    var bit := s[j..][b];
    assert bit == s[j + 1..][b - 1];
    assert s[j + b..][1..] == s[j + b + 1..] == t[j + b..][1..];
    AddedDigit(s[j], bit, b, w);
    var rest := Eval(s[j + b + 1..]);
    Distribute(P2(b), bit, rest);
    assert t[j + 1..] == s[j + 1..][b - 1 := 0];
    NextDistance(j, b, w, v, t, rest);
  }

  lemma Distribute(p: int, bit: int, rest: int)
    ensures p * (bit + 2 * rest) == bit * p + p * (2 * rest)
  {
  }

  lemma PlusOne(p: int, e: int)
    ensures p * (e + 1) == p * e + p
  {
  }

  /** Borrowing: the digit goes down by 2^b and one is carried into the bits from j + b on. */
  lemma BorrowStep(s: seq<int>, j: nat, b: nat, w: nat, v: int, t: seq<int>)
    requires Sliding(s, j, b, w, v) && j + b < 256 && s[j + b] == 1
    requires P2(b) - s[j] < P2(w - 1)
    requires |t| == 256 && t[j] == s[j] - P2(b) && t[j + 1..j + b] == s[j + 1..j + b]
    requires Bits(t[j + b..]) && Eval(t[j + b..]) == Eval(s[j + b..]) + 1 <= P2(255 - j - b)
    ensures Sliding(t, j, b + 1, w, v)
  {
    assert s[j + b..][1..] == s[j + b + 1..];
    assert t[j + b..][1..] == t[j + b + 1..];
    OddShift(s[j], P2(b - 1));
    var e, rest := Eval(s[j + b..]), Eval(t[j + b + 1..]);
    assert t[j + b] == t[j + b..][0];
    assert t[j + b] == 0 && 2 * rest == e + 1;
    PlusOne(P2(b), e);
    forall k | j + 1 <= k < j + b
      ensures t[k] == 0
    {
      assert t[k] == t[j + 1..j + b][k - j - 1] == s[j + 1..j + b][k - j - 1];
    }
    var tail := t[j + 1..];
    forall k | 0 <= k < |tail|
      ensures tail[k] == 0 || tail[k] == 1
    {
      if k >= b - 1 {
        assert tail[k] == t[j + b..][k - (b - 1)];
      }
    }
    NextDistance(j, b, w, v, t, rest);
  }

  /** Inside the window one of the two steps always applies. */
  lemma OutsideWindow(d: int, b: nat, w: nat)
    requires 2 <= w && Digit(d, w)
    requires d + P2(b) >= P2(w - 1) && P2(b) - d >= P2(w - 1)
    ensures w <= b
  {
    if b < w {
      P2Monotone(b, w - 1);
      assert false;
    }
  }

  lemma ShiftedBit(bit: int, p: int)
    requires bit == 0 || bit == 1
    ensures bit * p == if bit == 0 then 0 else p
  {
  }

  /**
   One turn of the sliding window, at a set bit: digits are gathered into r[j], later bits are
   cleared or carried, and the number in r[j..] stays the same.
   */
  method Slide(r: array<int>, j: nat, w: nat)
    requires r.Length == 256 && j < 256 && 2 <= w <= 7
    requires Bits(r[j..]) && r[j] == 1 && Eval(r[j..]) <= P2(255 - j)
    modifies r
    ensures forall i :: 0 <= i < j ==> r[i] == old(r[i])
    ensures Eval(r[j..]) == old(Eval(r[j..]))
    ensures Digit(r[j], w) && Gap(r[..], j + 1, j + w)
    ensures Bits(r[j + 1..])
    ensures j < 255 ==> Eval(r[j + 1..]) <= P2(254 - j)
  {
    var m := P2(w - 1) - 1;
    ghost var v := Eval(r[j..]);
    FirstBit(r[..], j, w);
    var b := 1;
    while b < 256 - j && b <= 6
      invariant 1 <= b <= 7
      invariant forall i :: 0 <= i < j ==> r[i] == old(r[i])
      invariant Sliding(r[..], j, b, w, v)
    {
      assert r[j + b] == r[j + 1..][b - 1];
      var shifted := r[j + b] * P2(b);
      ShiftedBit(r[j + b], P2(b));
      if r[j] + shifted <= m {
        AddAt(r, j, b, w, v);
      } else if r[j] - shifted >= -m {
        BorrowAt(r, j, b, w, v);
      } else if r[j + b] != 0 {
        OutsideWindow(r[j], b, w);
        break;
      }
      b := b + 1;
    }
    SlideDone(r[..], j, b, w, v);
  }

  method AddAt(r: array<int>, j: nat, b: nat, w: nat, ghost v: int)
    requires r.Length == 256 && j + b < 256 && Sliding(r[..], j, b, w, v)
    requires r[j] + r[j + b] * P2(b) < P2(w - 1)
    modifies r
    ensures Sliding(r[..], j, b + 1, w, v)
    ensures forall i :: 0 <= i < j ==> r[i] == old(r[i])
  {
    ghost var s := r[..];
    r[j] := r[j] + r[j + b] * P2(b);
    r[j + b] := 0;
    AddStep(s, j, b, w, v, r[..]);
  }

  method BorrowAt(r: array<int>, j: nat, b: nat, w: nat, ghost v: int)
    requires r.Length == 256 && j + b < 256 && Sliding(r[..], j, b, w, v)
    requires r[j + b] == 1 && r[j] > 0 && P2(b) - r[j] < P2(w - 1)
    modifies r
    ensures Sliding(r[..], j, b + 1, w, v)
    ensures forall i :: 0 <= i < j ==> r[i] == old(r[i])
  {
    ghost var s := r[..];
    RoomForCarry(v, r[j], Eval(s[j + b..]), 255 - j, b);
    r[j] := r[j] - P2(b);
    assert r[j + b..] == s[j + b..];
    AddCarry(r, j + b);
    assert r[j + 1..j + b] == s[j + 1..j + b];
    BorrowStep(s, j, b, w, v, r[..]);
  }

  lemma SlideDone(s: seq<int>, j: nat, b: nat, w: nat, v: int)
    requires Sliding(s, j, b, w, v)
    ensures Eval(s[j..]) == v
    ensures j < 255 ==> Eval(s[j + 1..]) <= P2(254 - j)
  {
    EvalGap(s[j..], b);
    assert s[j..][b..] == s[j + b..] && s[j..][1..] == s[j + 1..];
    if j + b < 256 {
      P2Add(b - 1, 255 - j - b);
      BitsBelow(s[j + b..]);
      MulBelow(P2(b - 1), Eval(s[j + b..]), P2(b - 1), P2(255 - j - b));
    }
  }

  lemma FirstBit(s: seq<int>, j: nat, w: nat)
    requires |s| == 256 && j < 256 && 2 <= w <= 7
    requires Bits(s[j..]) && s[j] == 1 && Eval(s[j..]) <= P2(255 - j)
    ensures Sliding(s, j, 1, w, Eval(s[j..]))
  {
    assert s[j..][1..] == s[j + 1..];
    P2Monotone(1, w - 1);
    if j < 255 {
      HalfRoom(Eval(s[j..]), 1, Eval(s[j + 1..]), 255 - j);
    }
  }

  /** The first n digits are zero or legal, and every one of them is followed by w - 1 zeros. */
  ghost predicate Recoded(s: seq<int>, n: nat, w: nat) {
    w > 0 && n <= |s| && forall i :: 0 <= i < n && s[i] != 0 ==> Digit(s[i], w) && Gap(s, i + 1, i + w)
  }

  /**
   The sliding-window recoding of every scalar up to 2^255: the digits still add up to the
   scalar, the nonzero ones are odd, small and at least w apart, and no carry runs off the end.
   */
  method SlidingWindow(r: array<int>, s: array<u64>, w: nat)
    requires r.Length == 256 && 2 <= w <= 7
    requires Fits(s[..], 0x1_0000_0000) && Value(s[..]) <= B255
    modifies r
    ensures Eval(r[..]) == Value(s[..])
    ensures Recoded(r[..], 256, w)
  {
    BinaryExpansion(r, s);
    AllBits(r[..], w);
    var j := 0;
    while j < 256
      invariant 0 <= j <= 256 && Partly(r[..], j, w, Value(s[..]))
    {
      RecodeAt(r, j, w, Value(s[..]));
      j := j + 1;
    }
  }

  /** The digits below j are recoded, those from j on are still bits, and the sum is still v. */
  ghost predicate Partly(s: seq<int>, j: nat, w: nat, v: int) {
    && |s| == 256 && j <= 256 && Eval(s) == v && Recoded(s, j, w)
    && Bits(s[j..]) && (j < 256 ==> Eval(s[j..]) <= P2(255 - j))
  }

  lemma AllBits(s: seq<int>, w: nat)
    requires |s| == 256 && Bits(s) && Eval(s) <= B255 && w > 0
    ensures Partly(s, 0, w, Eval(s))
  {
    assert s[0..] == s;
    P255();
  }

  /** The body of the loop over the positions. */
  method RecodeAt(r: array<int>, j: nat, w: nat, ghost v: int)
    requires r.Length == 256 && j < 256 && 2 <= w <= 7 && Partly(r[..], j, w, v)
    modifies r
    ensures Partly(r[..], j + 1, w, v)
  {
    ghost var before := r[..];
    assert r[j] == r[j..][0] && r[j..][1..] == r[j + 1..];
    if r[j] != 0 {
      Slide(r, j, w);
      KeepLow(before, r[..], j);
      KeepRecoded(before, r[..], j, w);
    } else if j < 255 {
      HalfRoom(Eval(r[j..]), 0, Eval(r[j + 1..]), 255 - j);
    }
  }

  lemma P255()
    ensures P2(255) == B255
  {
    P224();
    P2Add(31, 224);
    P2Add(31, 1);
    P56();
  }

  lemma KeepLow(s: seq<int>, t: seq<int>, j: nat)
    requires |s| == |t| && j <= |s| && s[..j] == t[..j] && Eval(s[j..]) == Eval(t[j..])
    ensures Eval(s) == Eval(t)
  {
    assert s == s[..j] + s[j..] && t == t[..j] + t[j..];
    EvalAppend(s[..j], s[j..]);
    EvalAppend(t[..j], t[j..]);
  }

  lemma KeepRecoded(s: seq<int>, t: seq<int>, j: nat, w: nat)
    requires |s| == |t| && j < |s| && Recoded(s, j, w) && s[..j] == t[..j] && s[j] != 0
    requires Digit(t[j], w) && Gap(t, j + 1, j + w)
    ensures Recoded(t, j + 1, w)
  {
    forall i | 0 <= i < j && t[i] != 0
      ensures Digit(t[i], w) && Gap(t, i + 1, i + w)
    {
      assert t[i] == t[..j][i] == s[i];
      assert i + w <= j;
      forall k | i + 1 <= k < i + w
        ensures t[k] == 0
      {
        assert t[k] == t[..j][k] == s[k];
      }
    }
  }
}
