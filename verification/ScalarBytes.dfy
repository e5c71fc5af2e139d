/** Scalars as little-endian bytes: expand256_modm, expand_raw256_modm and contract256_modm. */
module ScalarBytes {
  import opened Words
  import opened ScalarField

  /** The number little-endian bytes stand for. */
  function LeValue(s: seq<byte>): nat {
    if s == [] then 0 else s[0] + 0x100 * LeValue(s[1..])
  }

  function Zeros(n: nat): seq<byte> {
    seq(n, _ => 0)
  }

  function Power256(n: nat): nat {
    if n == 0 then 1 else 0x100 * Power256(n - 1)
  }

  lemma {:induction false} LeAppend(s: seq<byte>, t: seq<byte>)
    ensures LeValue(s + t) == LeValue(s) + Power256(|s|) * LeValue(t)
  {
    if s == [] {
      assert s + t == t;
    } else {
      assert (s + t)[1..] == s[1..] + t;
      LeAppend(s[1..], t);
      ShiftBoth(LeValue(s[1..]), Power256(|s| - 1), LeValue(t));
    }
  }

  lemma ShiftBoth(a: int, p: int, v: int)
    ensures 0x100 * (a + p * v) == 0x100 * a + (0x100 * p) * v
  {
    Shift(p, v);
  }

  lemma Shift(p: int, v: int)
    ensures 0x100 * (p * v) == (0x100 * p) * v
  {
  }

  lemma {:induction false} LeZeros(n: nat)
    ensures LeValue(Zeros(n)) == 0
  {
    if n > 0 {
      assert Zeros(n)[1..] == Zeros(n - 1);
      LeZeros(n - 1);
    }
  }

  lemma Padded(s: seq<byte>, n: nat)
    ensures LeValue(s + Zeros(n)) == LeValue(s)
  {
    LeAppend(s, Zeros(n));
    LeZeros(n);
  }

  lemma {:induction false} LeBelow(s: seq<byte>)
    ensures 0 <= LeValue(s) < Power256(|s|)
  {
    if s != [] {
      LeBelow(s[1..]);
    }
  }

  /** U8TO64_LE on the bytes from position 8 * i. */
  function Word(s: seq<byte>, i: nat): u64
    requires 8 * i + 8 <= |s|
  {
    LeBelow(s[8 * i..8 * i + 8]);
    LeValue(s[8 * i..8 * i + 8])
  }

  /** The numbers four and eight 64-bit words stand for. */
  function W4(x0: int, x1: int, x2: int, x3: int): int {
    x0 + 0x1_0000_0000_0000_0000 * x1 + 0x1_0000_0000_0000_0000_0000_0000_0000_0000 * x2
    + 0x1_0000_0000_0000_0000_0000_0000_0000_0000_0000_0000_0000_0000 * x3
  }

  function W8(x0: int, x1: int, x2: int, x3: int, x4: int, x5: int, x6: int, x7: int): int {
    W4(x0, x1, x2, x3) + 0x1_0000000000000000000000000000000000000000000000000000000000000000 * W4(x4, x5, x6, x7)
  }

  /**
   The limb that straddles two words, ((lo >> s) | (hi << (64 - s))) & (mask - 1): `d` is 2^s and
   `u` is 2^(64 - s), so the two parts share no bit and the bit-or is a sum.
   */
  method Straddle(lo: u64, hi: u64, d: int, u: int, w: int, mask: int) returns (r: u64)
    requires 0 < d && 0 < u && 0 < w && d * u == 0x1_0000_0000_0000_0000 && w * u == mask && d % w == 0
    requires mask <= 0x1_0000_0000_0000_0000
    ensures r == lo / d + u * (hi % w) && r < mask
  {
    StraddleValue(lo, hi, d, u, w, mask);
    r := (lo / d + Wrap64(hi * u)) % mask;
  }

  lemma StraddleValue(lo: int, hi: int, d: int, u: int, w: int, mask: int)
    requires 0 <= lo < 0x1_0000_0000_0000_0000
    requires 0 < d && 0 < u && 0 < w && d * u == 0x1_0000_0000_0000_0000 && w * u == mask && d % w == 0
    ensures 0 < mask && 0 <= lo / d < u && lo / d + Wrap64(hi * u) < 0x1_0000_0000_0000_0000
    ensures (lo / d + Wrap64(hi * u)) % mask == lo / d + u * (hi % w) < mask
  {
    DivBelow(lo, d, u);
    ShiftedOut(hi, d, u);
    var r := hi % d;
    ScaledBelow(u, r, d);
    Masked(lo / d, r, u, w, mask);
    var f := d / w;
    assert d == f * w;
    Regroup(hi, w, f, hi / d, r / w, r % w);
    QuotRem(hi, w, f * (hi / d) + r / w, r % w);
  }

  /** Shifting left by 64 - s keeps the low s bits. */
  lemma ShiftedOut(hi: int, d: int, u: int)
    requires 0 < d && 0 < u && d * u == 0x1_0000_0000_0000_0000
    ensures Wrap64(hi * u) == u * (hi % d)
  {
    var h, r := hi / d, hi % d;
    Spread(hi, d, u, h, r);
    ScaledBelow(u, r, d);
    assert d * u == u * d;
    QuotRem(hi * u, 0x1_0000_0000_0000_0000, h, u * r);
  }

  /** Masking drops the high part of the upper word. */
  lemma Masked(low: int, r: int, u: int, w: int, mask: int)
    requires 0 <= low < u && 0 < w && w * u == mask
    ensures 0 < mask && (low + u * r) % mask == low + u * (r % w) < mask
  {
    var a, b := r / w, r % w;
    Spread(r, w, u, a, b);
    assert w * u == u * w;
    ScaledBelow(u, b, w);
    assert r * u == u * r;
    QuotRem(low + u * r, mask, a, low + u * b);
  }

  lemma DivBelow(n: int, d: int, u: int)
    requires 0 < d && 0 <= n < d * u
    ensures 0 <= n / d < u
  {
    var q := n / d;
    assert n == d * q + n % d;
    if u <= q {
      MulBelow(d, u, d, q);
      assert false;
    }
  }

  lemma Spread(n: int, d: int, u: int, h: int, r: int)
    requires n == d * h + r
    ensures n * u == (d * u) * h + u * r
  {
    calc {
      n * u;
      (d * h + r) * u;
      (d * h) * u + r * u;
      (d * u) * h + u * r;
    }
  }

  lemma Regroup(n: int, w: int, f: int, h: int, a: int, b: int)
    requires n == (f * w) * h + (w * a + b)
    ensures n == w * (f * h + a) + b
  {
    assert (f * w) * h == w * (f * h);
  }

  /** u * b + u <= u * w when b < w. */
  lemma ScaledBelow(u: int, b: int, w: int)
    requires 0 < u && 0 <= b < w
    ensures 0 <= u * b && u * b + u <= u * w
  {
    MulBelow(u, b + 1, u, w);
    assert u * (b + 1) == u * b + u;
  }

  /** The 64 bytes of `work` as words. */
  lemma WorkValue(s: seq<byte>)
    requires |s| == 64
    ensures LeValue(s) == W8(Word(s, 0), Word(s, 1), Word(s, 2), Word(s, 3), Word(s, 4), Word(s, 5), Word(s, 6), Word(s, 7))
  {
    HalfValue(s[..32]);
    HalfValue(s[32..]);
    Halves(s);
    HalfWord(s, 0);
    HalfWord(s, 1);
    HalfWord(s, 2);
    HalfWord(s, 3);
  }

  lemma Halves(s: seq<byte>)
    requires |s| == 64
    ensures LeValue(s) ==
            LeValue(s[..32]) + 0x1_0000000000000000000000000000000000000000000000000000000000000000 * LeValue(s[32..])
  {
    assert s == s[..32] + s[32..];
    LeAppend(s[..32], s[32..]);
    PowerAt(|s[..32]|);
  }

  lemma HalfWord(s: seq<byte>, i: nat)
    requires |s| == 64 && i < 4
    ensures Word(s[..32], i) == Word(s, i) && Word(s[32..], i) == Word(s, i + 4)
  {
    assert s[..32][8 * i..8 * i + 8] == s[8 * i..8 * i + 8];
    assert s[32..][8 * i..8 * i + 8] == s[8 * (i + 4)..8 * (i + 4) + 8];
  }

  lemma Powers()
    ensures Power256(8) == 0x1_0000_0000_0000_0000
    ensures Power256(32) == 0x1_0000000000000000000000000000000000000000000000000000000000000000
    ensures Power256(64) == B512
  {
    PowerAdd(32, 32);
    PowerAdd(8, 8);
    PowerAdd(16, 16);
  }

  /** The same for a length, which does not unfold as a literal does. */
  lemma PowerAt(n: nat)
    ensures n == 8 ==> Power256(n) == 0x1_0000_0000_0000_0000
    ensures n == 32 ==> Power256(n) == 0x1_0000000000000000000000000000000000000000000000000000000000000000
    ensures n == 64 ==> Power256(n) == B512
  {
    Powers();
  }

  lemma {:induction false} PowerAdd(m: nat, n: nat)
    ensures Power256(m + n) == Power256(m) * Power256(n)
  {
    if m > 0 {
      PowerAdd(m - 1, n);
      Shift(Power256(m - 1), Power256(n));
    }
  }

  lemma HalfValue(s: seq<byte>)
    requires |s| == 32
    ensures LeValue(s) == W4(Word(s, 0), Word(s, 1), Word(s, 2), Word(s, 3))
  {
    assert s == s[0..8] + s[8..];
    assert s[8..] == s[8..16] + s[16..];
    assert s[16..] == s[16..24] + s[24..32];
    LeAppend(s[0..8], s[8..]);
    LeAppend(s[8..16], s[16..]);
    LeAppend(s[16..24], s[24..32]);
    PowerAt(|s[0..8]|);
  }

  lemma ExpandValue(x0: int, x1: int, x2: int, x3: int, x4: int, x5: int, x6: int, x7: int,
                    o0: int, o1: int, o2: int, o3: int, o4: int, q0: int, q1: int, q2: int, q3: int, q4: int)
    requires o0 == x0 % B56
    requires o1 == x0 / 0x100000000000000 + 0x100 * (x1 % 0x1000000000000)
    requires o2 == x1 / 0x1000000000000 + 0x10000 * (x2 % 0x10000000000)
    requires o3 == x2 / 0x10000000000 + 0x1000000 * (x3 % 0x100000000)
    requires o4 == x3 / 0x100000000 + 0x100000000 * (x4 % 0x100)
    requires q0 == x3 / 0x100000000000000 + 0x100 * (x4 % 0x1000000000000)
    requires q1 == x4 / 0x1000000000000 + 0x10000 * (x5 % 0x10000000000)
    requires q2 == x5 / 0x10000000000 + 0x1000000 * (x6 % 0x100000000)
    requires q3 == x6 / 0x100000000 + 0x100000000 * (x7 % 0x1000000)
    requires q4 == x7 / 0x1000000
    requires 0 <= x0 && 0 <= x1 && 0 <= x2 && 0 <= x3 < 0x1_0000_0000_0000_0000
    requires 0 <= x0 < 0x1_0000_0000_0000_0000 && 0 <= x1 < 0x1_0000_0000_0000_0000 && 0 <= x2 < 0x1_0000_0000_0000_0000
    ensures var v := W8(x0, x1, x2, x3, x4, x5, x6, x7);
            V5(o0, o1, o2, o3, o4) == v % B264 && V5(q0, q1, q2, q3, q4) == v / B248
  {
    var v := W8(x0, x1, x2, x3, x4, x5, x6, x7);
    assert V5(o0, o1, o2, o3, o4) == W4(x0, x1, x2, x3) + 0x1_0000000000000000000000000000000000000000000000000000000000000000 * (x4 % 0x100);
    QuotRem(v, B264, x4 / 0x100 + 0x100000000000000 * W4(x5, x6, x7, 0), V5(o0, o1, o2, o3, o4));
    assert V5(q0, q1, q2, q3, q4) == x3 / 0x100000000000000 + 0x100 * W4(x4, x5, x6, x7);
    QuotRem(v, B248, V5(q0, q1, q2, q3, q4), W4(x0, x1, x2, x3 % 0x100000000000000));
  }

  /** Barrett's r1 and q1 for eight words. */
  method ExpandLimbs(x0: u64, x1: u64, x2: u64, x3: u64, x4: u64, x5: u64, x6: u64, x7: u64)
    returns (o0: u64, o1: u64, o2: u64, o3: u64, o4: u64, q0: u64, q1: u64, q2: u64, q3: u64, q4: u64)
    ensures Fit(o0, o1, o2, o3, o4, B40) && Fit(q0, q1, q2, q3, q4, B40)
    ensures var v := W8(x0, x1, x2, x3, x4, x5, x6, x7);
            V5(o0, o1, o2, o3, o4) == v % B264 && V5(q0, q1, q2, q3, q4) == v / B248
  {
    o0 := x0 % B56;
    o1 := Straddle(x0, x1, 0x100000000000000, 0x100, 0x1000000000000, B56);
    o2 := Straddle(x1, x2, 0x1000000000000, 0x10000, 0x10000000000, B56);
    o3 := Straddle(x2, x3, 0x10000000000, 0x1000000, 0x100000000, B56);
    o4 := Straddle(x3, x4, 0x100000000, 0x100000000, 0x1000000, B56);
    TopLimb(x3 / 0x100000000, x4);
    o4 := o4 % B40;
    q0 := Straddle(x3, x4, 0x100000000000000, 0x100, 0x1000000000000, B56);
    q1 := Straddle(x4, x5, 0x1000000000000, 0x10000, 0x10000000000, B56);
    q2 := Straddle(x5, x6, 0x10000000000, 0x1000000, 0x100000000, B56);
    q3 := Straddle(x6, x7, 0x100000000, 0x100000000, 0x1000000, B56);
    q4 := x7 / 0x1000000;
    ExpandValue(x0, x1, x2, x3, x4, x5, x6, x7, o0, o1, o2, o3, o4, q0, q1, q2, q3, q4);
  }

  lemma PaddedWork(s: seq<byte>, work: seq<byte>)
    requires |s| <= 64 && work == s + Zeros(64 - |s|)
    ensures LeValue(work) == LeValue(s) < B512
  {
    Padded(s, 64 - |s|);
    LeBelow(work);
    PowerAt(|work|);
  }

  /** The zero-padded input as eight words. */
  method LoadWork(input: seq<byte>)
    returns (x0: u64, x1: u64, x2: u64, x3: u64, x4: u64, x5: u64, x6: u64, x7: u64)
    requires |input| <= 64
    ensures W8(x0, x1, x2, x3, x4, x5, x6, x7) == LeValue(input) < B512
  {
    var work := input + Zeros(64 - |input|);
    PaddedWork(input, work);
    WorkValue(work);
    x0, x1, x2, x3 := Word(work, 0), Word(work, 1), Word(work, 2), Word(work, 3);
    x4, x5, x6, x7 := Word(work, 4), Word(work, 5), Word(work, 6), Word(work, 7);
  }

  /** Reads up to 64 little-endian bytes and reduces them modulo L. */
  method Expand(out: array<u64>, input: seq<byte>)
    requires out.Length == 5 && |input| <= 64
    modifies out
    ensures Fits(out[..], B40) && Value(out[..]) == LeValue(input) % L
  {
    var x0, x1, x2, x3, x4, x5, x6, x7 := LoadWork(input);
    ghost var v := LeValue(input);
    var o0, o1, o2, o3, o4, q0, q1, q2, q3, q4 := ExpandLimbs(x0, x1, x2, x3, x4, x5, x6, x7);
    out[0], out[1], out[2], out[3], out[4] := o0, o1, o2, o3, o4;
    assert Value(out[..]) == v % B264;
    // short inputs are below the order already
    if |input| < 32 {
      ShortValue(input);
      return;
    }
    var high := new u64[][q0, q1, q2, q3, q4];
    Barrett(out, high, out, v);
  }

  /** Masking the top limb to 40 bits keeps eight bits of the fifth word. */
  lemma TopLimb(t: int, x4: int)
    requires 0 <= t < 0x100000000
    ensures (t + 0x100000000 * (x4 % 0x1000000)) % B40 == t + 0x100000000 * (x4 % 0x100)
  {
    var m := x4 % 0x1000000;
    QuotRem(x4, 0x100, 0x10000 * (x4 / 0x1000000) + m / 0x100, m % 0x100);
    QuotRem(t + 0x100000000 * m, B40, m / 0x100, t + 0x100000000 * (m % 0x100));
  }

  /** Fewer than 32 bytes are already below L. */
  lemma ShortValue(s: seq<byte>)
    requires |s| < 32
    ensures LeValue(s) % B264 == LeValue(s) == LeValue(s) % L
  {
    LeBelow(s);
    PowerMonotone(|s|, 31);
    Powers();
    QuotRem(LeValue(s), L, 0, LeValue(s));
  }

  lemma {:induction false} PowerMonotone(m: nat, n: nat)
    requires m <= n
    ensures Power256(m) <= Power256(n)
  {
    if m < n {
      PowerMonotone(m, n - 1);
    }
  }

  /** The `n` low bytes of a number, least significant first (U64TO8_LE when n is 8). */
  function LeBytes(v: nat, n: nat): (s: seq<byte>)
    ensures |s| == n
  {
    if n == 0 then [] else [v % 0x100] + LeBytes(v / 0x100, n - 1)
  }

  lemma {:induction false} LeRoundTrip(v: nat, n: nat)
    requires v < Power256(n)
    ensures LeValue(LeBytes(v, n)) == v
  {
    if n > 0 {
      LeRoundTrip(v / 0x100, n - 1);
    }
  }

  /** Bytes are determined by their value and their number. */
  lemma {:induction false} LeUnique(s: seq<byte>)
    ensures LeBytes(LeValue(s), |s|) == s
  {
    if s != [] {
      QuotRem(LeValue(s), 0x100, LeValue(s[1..]), s[0]);
      LeUnique(s[1..]);
    }
  }

  method PackWords(a: u64, b: u64, c: u64, d: u64, e: u64) returns (w0: u64, w1: u64, w2: u64, w3: u64)
    requires Fit(a, b, c, d, e, 0x1_0000_0000)
    ensures W4(w0, w1, w2, w3) == V5(a, b, c, d, e)
  {
    ShiftedOut(b, 0x100, 0x100000000000000);
    w0 := a + Wrap64(b * 0x100000000000000);
    ShiftedOut(c, 0x10000, 0x1000000000000);
    w1 := b / 0x100 + Wrap64(c * 0x1000000000000);
    ShiftedOut(d, 0x1000000, 0x10000000000);
    w2 := c / 0x10000 + Wrap64(d * 0x10000000000);
    ShiftedOut(e, 0x100000000, 0x100000000);
    w3 := d / 0x1000000 + Wrap64(e * 0x100000000);
  }

  /** The 32 little-endian bytes of a 256-bit scalar. */
  method Contract(input: array<u64>) returns (out: seq<byte>)
    requires Fits(input[..], 0x1_0000_0000)
    ensures |out| == 32 && LeValue(out) == Value(input[..])
  {
    var w0, w1, w2, w3 := PackWords(input[0], input[1], input[2], input[3], input[4]);
    out := LeBytes(w0, 8) + LeBytes(w1, 8) + LeBytes(w2, 8) + LeBytes(w3, 8);
    WordsToBytes(w0, w1, w2, w3);
  }

  lemma WordsToBytes(w0: u64, w1: u64, w2: u64, w3: u64)
    ensures LeValue(LeBytes(w0, 8) + LeBytes(w1, 8) + LeBytes(w2, 8) + LeBytes(w3, 8)) == W4(w0, w1, w2, w3)
  {
    var out := LeBytes(w0, 8) + LeBytes(w1, 8) + LeBytes(w2, 8) + LeBytes(w3, 8);
    HalfValue(out);
    Powers();
    LeRoundTrip(w0, 8);
    LeRoundTrip(w1, 8);
    LeRoundTrip(w2, 8);
    LeRoundTrip(w3, 8);
    assert out[0..8] == LeBytes(w0, 8) && out[8..16] == LeBytes(w1, 8);
    assert out[16..24] == LeBytes(w2, 8) && out[24..32] == LeBytes(w3, 8);
  }
}
