/** Field elements as 32 little-endian bytes: curve25519_expand and curve25519_contract. */
module FieldBytes {
  import opened Words
  import opened Field
  import opened ScalarBytes

  const T255 := 0x8000000000000000000000000000000000000000000000000000000000000000

  lemma ExpandedValue(x0: int, x1: int, x2: int, x3: int, o0: int, o1: int, o2: int, o3: int, o4: int)
    requires o0 == x0 % B51
    requires o1 == x0 / 0x8000000000000 + 0x2000 * (x1 % 0x4000000000)
    requires o2 == x1 / 0x4000000000 + 0x4000000 * (x2 % 0x2000000)
    requires o3 == x2 / 0x2000000 + 0x8000000000 * (x3 % 0x1000)
    requires o4 == (x3 / 0x1000) % B51
    requires 0 <= x0 < 0x1_0000_0000_0000_0000 && 0 <= x1 < 0x1_0000_0000_0000_0000
    requires 0 <= x2 < 0x1_0000_0000_0000_0000 && 0 <= x3 < 0x1_0000_0000_0000_0000
    ensures V51(o0, o1, o2, o3, o4) == W4(x0, x1, x2, x3) % T255
  {
    var h := x3 / 0x1000;
    assert V51(o0, o1, o2, o3, h) == W4(x0, x1, x2, x3);
    QuotRem(W4(x0, x1, x2, x3), T255, h / B51, V51(o0, o1, o2, o3, o4));
  }

  /** The low 255 bits of 32 bytes, as five limbs. */
  method Expand(input: seq<byte>) returns (r: Fe)
    requires |input| == 32
    ensures Below(r, B51) && Val(r) == LeValue(input) % T255
  {
    HalfValue(input);
    var x0, x1, x2, x3 := Word(input, 0), Word(input, 1), Word(input, 2), Word(input, 3);
    var o0: u64 := x0 % B51;
    var o1 := Straddle(x0, x1, 0x8000000000000, 0x2000, 0x4000000000, B51);
    var o2 := Straddle(x1, x2, 0x4000000000, 0x4000000, 0x2000000, B51);
    var o3 := Straddle(x2, x3, 0x2000000, 0x8000000000, 0x1000, B51);
    var o4: u64 := (x3 / 0x1000) % B51;
    ExpandedValue(x0, x1, x2, x3, o0, o1, o2, o3, o4);
    r := Fe(o0, o1, o2, o3, o4);
  }

  /** One pass of carries: everything above 2^255 comes out at the top. */
  method CarryPass(t0: int, t1: int, t2: int, t3: int, t4: int) returns (r: Fe, top: u64)
    requires Limbs(t0, t1, t2, t3, t4, 0x8000_0000_0000_0000)
    ensures Below(r, B51) && V51(t0, t1, t2, t3, t4) == Val(r) + T255 * top
  {
    var s1: u64 := t1 + t0 / B51;
    var s2: u64 := t2 + s1 / B51;
    var s3: u64 := t3 + s2 / B51;
    var s4: u64 := t4 + s3 / B51;
    r := Fe(t0 % B51, s1 % B51, s2 % B51, s3 % B51, s4 % B51);
    top := s4 / B51;
  }

  /** A pass of carries whose overflow comes back, times 19, at the bottom. */
  method CarryFull(t0: int, t1: int, t2: int, t3: int, t4: int) returns (r: Fe, ghost top: int)
    requires Limbs(t0, t1, t2, t3, t4, 0x80_0000_0000_0000)
    ensures 0 <= top < 32 && Below(r, B51 + 19 * 32) && Val(r) >= 19 * top
    ensures V51(t0, t1, t2, t3, t4) == Val(r) + P * top && Val(r) - 19 * top < T255
  {
    var s, c := CarryPass(t0, t1, t2, t3, t4);
    r := Fe(s.a + 19 * c, s.b, s.c, s.d, s.e);
    top := c;
  }

  /** Two passes leave a number below 2^255. */
  lemma TwoPasses(v: int, v1: int, c1: int, v2: int, c2: int)
    requires v == v1 + P * c1 && 19 * c1 <= v1 < T255 + 19 * c1 && 0 <= c1 < 32
    requires v1 == v2 + P * c2 && 19 * c2 <= v2 < T255 + 19 * c2 && 0 <= c2
    ensures v == v2 + P * (c1 + c2) && 0 <= v2 < T255
  {
  }

  /** The third pass, after adding 19, takes p off exactly when there is a p to take off. */
  lemma ThirdPass(v2: int, v3: int, c3: int)
    requires 0 <= v2 < T255 && v2 + 19 == v3 + P * c3 && 19 * c3 <= v3 < T255 + 19 * c3 && 0 <= c3
    ensures v3 == if v2 < P then v2 + 19 else v2 - P + 19
  {
  }

  /** The canonical limbs of an element: the number itself, below p. */
  method Canonical(x: Fe) returns (r: Fe)
    requires Loose(x)
    ensures Below(r, B51) && Val(r) == Val(x) % P
  {
    var t1, c1 := CarryFull(x.a, x.b, x.c, x.d, x.e);
    var t2, c2 := CarryFull(t1.a, t1.b, t1.c, t1.d, t1.e);
    // now t2 is between 0 and 2^255 - 1
    TwoPasses(Val(x), Val(t1), c1, Val(t2), c2);
    var t3, c3 := CarryFull(t2.a as int + 19, t2.b, t2.c, t2.d, t2.e);
    // now offset by 19
    ThirdPass(Val(t2), Val(t3), c3);
    var c4;
    r, c4 := CarryPass(t3.a as int + (B51 - 19), t3.b as int + (B51 - 1), t3.c as int + (B51 - 1),
                       t3.d as int + (B51 - 1), t3.e as int + (B51 - 1));
    Representative(Val(x), Val(t2), c1 + c2, Val(t3), Val(r), c4);
  }

  lemma Representative(x: int, v2: int, k: int, v3: int, r: int, top: int)
    requires x == v2 + P * k && 0 <= v2 < T255
    requires v3 == if v2 < P then v2 + 19 else v2 - P + 19
    requires v3 + T255 - 19 == r + T255 * top && 0 <= r < T255
    ensures r == x % P
  {
    if v2 < P {
      QuotRem(x, P, k, v2);
    } else {
      QuotRem(x, P, k + 1, v2 - P);
    }
  }

  /** The four 64-bit words of canonical limbs. */
  method PackLimbs(x: Fe) returns (w0: u64, w1: u64, w2: u64, w3: u64)
    requires Below(x, B51)
    ensures W4(w0, w1, w2, w3) == Val(x)
  {
    ShiftedOut(x.b, 0x2000, 0x8000000000000);
    w0 := x.a + Wrap64(x.b as int * 0x8000000000000);
    ShiftedOut(x.c, 0x4000000, 0x4000000000);
    w1 := x.b / 0x2000 + Wrap64(x.c as int * 0x4000000000);
    ShiftedOut(x.d, 0x8000000000, 0x2000000);
    w2 := x.c / 0x4000000 + Wrap64(x.d as int * 0x2000000);
    ShiftedOut(x.e, 0x10000000000000, 0x1000);
    w3 := x.d / 0x8000000000 + Wrap64(x.e as int * 0x1000);
  }

  /** The 32 bytes of the one representative below p, for all limbs below 2^54. */
  method Contract(x: Fe) returns (out: seq<byte>)
    requires Loose(x)
    ensures |out| == 32 && LeValue(out) == Val(x) % P
  {
    var t := Canonical(x);
    var w0, w1, w2, w3 := PackLimbs(t);
    out := LeBytes(w0, 8) + LeBytes(w1, 8) + LeBytes(w2, 8) + LeBytes(w3, 8);
    WordsToBytes(w0, w1, w2, w3);
  }

  /** Contracting what was expanded gives the same bytes exactly when they were already canonical. */
  lemma ExpandContract(input: seq<byte>, x: int, out: seq<byte>)
    requires |input| == |out| == 32 && x == LeValue(input) % T255 && LeValue(out) == x % P
    ensures out == input <==> LeValue(input) < P
  {
    var v := LeValue(input);
    LeUnique(input);
    LeUnique(out);
    if v < P {
      QuotRem(v, T255, 0, v);
      QuotRem(v, P, 0, v);
    }
  }

  /** Expanding what was contracted gives back the canonical representative. */
  lemma ContractExpand(x: int, out: seq<byte>, y: int)
    requires LeValue(out) == x % P && y == LeValue(out) % T255
    ensures y == x % P && Congruent(x, y)
  {
    QuotRem(LeValue(out), T255, 0, x % P);
    QuotRem(y, P, 0, y);
    CongruentIff(x, y);
  }
}
