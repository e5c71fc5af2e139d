/**
 * SHA-512 (FIPS 180-4) over a message that arrives in pieces. The compression of one block is a parameter; what
 * is modelled is the buffering, the bit count and the padding.
 */
module Hashing {
  import opened Words

  const BLOCK: nat := 128
  const B64 := 0x1_0000_0000_0000_0000
  const B128 := 0x1_0000_0000_0000_0000_0000_0000_0000_0000

  /** A chaining value: eight words. */
  type State = h: seq<u64> | |h| == 8 witness [0, 0, 0, 0, 0, 0, 0, 0]

  const IV: State := [
    0x6a09e667f3bcc908, 0xbb67ae8584caa73b, 0x3c6ef372fe94f82b, 0xa54ff53a5f1d36f1,
    0x510e527fade682d1, 0x9b05688c2b3e6c1f, 0x1f83d9abfb41bd6b, 0x5be0cd19137e2179]

  /** Takes the chaining value and a block to the next chaining value. */
  type Compression = (State, seq<byte>) -> State

  // ---- the function ----

  /** The chaining value after n blocks of data. */
  function Chain(f: Compression, h: State, data: seq<byte>, n: nat): (r: State)
    requires BLOCK * n <= |data|
  {
    if n == 0 then h else f(Chain(f, h, data, n - 1), data[BLOCK * (n - 1)..BLOCK * n])
  }

  function Zeros(n: nat): (r: seq<byte>)
    ensures |r| == n
  {
    seq(n, _ => 0)
  }

  /** Eight bytes, most significant first. */
  function Store64(v: u64): (r: seq<byte>)
    ensures |r| == 8
  {
    [v / 0x100_0000_0000_0000 % 0x100, v / 0x1_0000_0000_0000 % 0x100, v / 0x100_0000_0000 % 0x100,
     v / 0x1_0000_0000 % 0x100, v / 0x100_0000 % 0x100, v / 0x1_0000 % 0x100, v / 0x100 % 0x100, v % 0x100]
  }

  /** The length in bits, as sixteen bytes. */
  function LengthBytes(len: nat): (r: seq<byte>)
    ensures |r| == 16
  {
    Store64((8 * len) / B64 % B64) + Store64((8 * len) % B64)
  }

  /** A one bit, zero bits up to the last sixteen bytes of a block, and those sixteen. */
  function Padding(len: nat, tail: seq<byte>): (r: seq<byte>) {
    [0x80] + Zeros(if len % BLOCK <= 111 then 111 - len % BLOCK else 239 - len % BLOCK) + tail
  }

  lemma PaddedLength(m: seq<byte>, tail: seq<byte>)
    requires |tail| == 16
    ensures |m + Padding(|m|, tail)| == BLOCK * (|m| / BLOCK + if |m| % BLOCK <= 111 then 1 else 2)
  {
  }

  function DigestWith(f: Compression, m: seq<byte>, tail: seq<byte>): (r: State)
    requires |tail| == 16
  {
    PaddedLength(m, tail);
    Chain(f, IV, m + Padding(|m|, tail), |m| / BLOCK + if |m| % BLOCK <= 111 then 1 else 2)
  }

  /** The final chaining value of a message. */
  function Digest(f: Compression, m: seq<byte>): (r: State) {
    DigestWith(f, m, LengthBytes(|m|))
  }

  lemma {:induction false} ChainPrefix(f: Compression, h: State, data: seq<byte>, more: seq<byte>, n: nat)
    requires BLOCK * n <= |data|
    ensures Chain(f, h, data + more, n) == Chain(f, h, data, n)
  {
    if n > 0 {
      ChainPrefix(f, h, data, more, n - 1);
      assert (data + more)[BLOCK * (n - 1)..BLOCK * n] == data[BLOCK * (n - 1)..BLOCK * n];
    }
  }

  lemma {:induction false} ChainOn(f: Compression, h: State, data: seq<byte>, q: nat, n: nat)
    requires BLOCK * (q + n) <= |data|
    ensures Chain(f, h, data, q + n) == Chain(f, Chain(f, h, data, q), data[BLOCK * q..], n)
    decreases n
  {
    if n > 0 {
      ChainOn(f, h, data, q, n - 1);
      assert data[BLOCK * q..][BLOCK * (n - 1)..BLOCK * n] == data[BLOCK * (q + n - 1)..BLOCK * (q + n)];
    }
  }

  // ---- the bit count ----

  /** Adding one block to the two words of the count, with the carry taken when the low word comes to zero. */
  lemma CountBlock(t0: u64, t1: u64)
    requires t0 % 1024 == 0
    ensures var n0 := Wrap64(t0 + 1024);
      var n1 := Wrap64(t1 + if n0 == 0 then 1 else 0);
      n0 % 1024 == 0 && n0 + B64 * n1 == (t0 + B64 * t1 + 1024) % B128
  {
    if t0 as int + 1024 < B64 {
      NoCarry(t0, t1);
    } else {
      WithCarry(t1);
    }
  }

  lemma NoCarry(t0: int, t1: int)
    requires 0 <= t0 && t0 + 1024 < B64 && 0 <= t1 < B64
    ensures (t0 + 1024) % B64 == t0 + 1024 && t1 % B64 == t1 && (t0 + B64 * t1 + 1024) % B128 == t0 + B64 * t1 + 1024
  {
    QuotRem(t0 + 1024, B64, 0, t0 + 1024);
    QuotRem(t1, B64, 0, t1);
    QuotRem(t0 + B64 * t1 + 1024, B128, 0, t0 + B64 * t1 + 1024);
  }

  lemma WithCarry(t1: int)
    requires 0 <= t1 < B64
    ensures (B64 - 1024 + 1024) % B64 == 0 && B64 * ((t1 + 1) % B64) == (B64 - 1024 + B64 * t1 + 1024) % B128
  {
    if t1 + 1 < B64 {
      QuotRem(t1 + 1, B64, 0, t1 + 1);
      QuotRem(B64 * (t1 + 1), B128, 0, B64 * (t1 + 1));
    } else {
      QuotRem(t1 + 1, B64, 1, 0);
      QuotRem(B64 * (t1 + 1), B128, 1, 0);
    }
  }

  // `Seen` says nothing: it only lets a proof choose where the arithmetic behind `Counted` comes into sight.
  ghost predicate Seen(t0: u64, t1: u64, k: nat, i: int) { true }

  /** The two words hold the bits of k blocks, modulo 2^128. */
  ghost predicate Counted(t0: u64, t1: u64, k: nat) {
    forall i: int {:trigger Seen(t0, t1, k, i)} :: Seen(t0, t1, k, i) ==>
      t0 % 1024 == 0 && t0 + B64 * t1 == (1024 * k) % B128
  }

  lemma CountedIff(t0: u64, t1: u64, k: nat)
    ensures Counted(t0, t1, k) <==> t0 % 1024 == 0 && t0 + B64 * t1 == (1024 * k) % B128
  {
    assert Seen(t0, t1, k, 0);
  }

  lemma CountMore(k: nat)
    ensures ((1024 * k) % B128 + 1024) % B128 == (1024 * (k + 1)) % B128
  {
    var s := (1024 * k) % B128 + 1024;
    QuotRem(1024 * (k + 1), B128, (1024 * k) / B128 + s / B128, s % B128);
  }

  lemma CountedStep(t0: u64, t1: u64, k: nat)
    requires Counted(t0, t1, k)
    ensures var n0 := Wrap64(t0 + 1024); Counted(n0, Wrap64(t1 + if n0 == 0 then 1 else 0), k + 1)
  {
    CountedIff(t0, t1, k);
    CountBlock(t0, t1);
    CountMore(k);
    var n0 := Wrap64(t0 + 1024);
    CountedIff(n0, Wrap64(t1 + if n0 == 0 then 1 else 0), k + 1);
  }

  /** Blocks that follow whole blocks. */
  lemma ChainAfter(f: Compression, m: seq<byte>, input: seq<byte>, n: nat)
    requires |m| % BLOCK == 0 && BLOCK * n <= |input|
    ensures BLOCK * (|m| / BLOCK + n) <= |m + input|
    ensures Chain(f, IV, m + input, |m| / BLOCK + n) == Chain(f, Chain(f, IV, m, |m| / BLOCK), input, n)
  {
    var q := |m| / BLOCK;
    ChainOn(f, IV, m + input, q, n);
    ChainPrefix(f, IV, m, input, q);
    assert (m + input)[BLOCK * q..] == input;
  }

  /** What was held back and the data that fills it up make the next block. */
  lemma FilledBlock(f: Compression, m: seq<byte>, x: seq<byte>)
    requires |m| % BLOCK + |x| == BLOCK
    ensures var q, r := |m| / BLOCK, |m| % BLOCK;
      |m + x| % BLOCK == 0 && |m + x| / BLOCK == q + 1 &&
      Chain(f, IV, m + x, q + 1) == Chain(f, Chain(f, IV, m, q), m[|m| - r..] + x, 1)
  {
    var q, r := |m| / BLOCK, |m| % BLOCK;
    QuotRem(|m + x|, BLOCK, q + 1, 0);
    ChainPrefix(f, IV, m, x, q);
    var block := m[|m| - r..] + x;
    assert (m + x)[BLOCK * q..BLOCK * (q + 1)] == block;
    assert block[BLOCK * 0..BLOCK * 1] == block;
    assert Chain(f, Chain(f, IV, m, q), block, 0) == Chain(f, IV, m, q);
  }

  /** Data that does not fill the block is held back with what was there. */
  lemma StillHeld(m: seq<byte>, x: seq<byte>)
    requires |m| % BLOCK + |x| < BLOCK
    ensures |m + x| / BLOCK == |m| / BLOCK && |m + x| % BLOCK == |m| % BLOCK + |x|
    ensures (m + x)[|m + x| - (|m| % BLOCK + |x|)..] == m[|m| - |m| % BLOCK..] + x
    ensures forall f: Compression :: Chain(f, IV, m + x, |m| / BLOCK) == Chain(f, IV, m, |m| / BLOCK)
  {
    QuotRem(|m + x|, BLOCK, |m| / BLOCK, |m| % BLOCK + |x|);
    forall f: Compression ensures Chain(f, IV, m + x, |m| / BLOCK) == Chain(f, IV, m, |m| / BLOCK) {
      ChainPrefix(f, IV, m, x, |m| / BLOCK);
    }
  }

  /** The words of a chaining value, most significant byte first. */
  function BytesOf(h: State): (r: seq<byte>)
    ensures |r| == 64
  {
    Store64(h[0]) + Store64(h[1]) + Store64(h[2]) + Store64(h[3]) + Store64(h[4]) + Store64(h[5]) + Store64(h[6]) + Store64(h[7])
  }

  lemma BitsInWords(t0: u64, t1: u64, len: nat)
    requires Counted(t0, t1, len / BLOCK)
    ensures (8 * len) % B64 == t0 + 8 * (len % BLOCK) && (8 * len) / B64 % B64 == t1
  {
    CountedIff(t0, t1, len / BLOCK);
    var r, k := len % BLOCK, (1024 * (len / BLOCK)) / B128;
    QuotRem(8 * len, B64, B64 * k + t1, t0 + 8 * r);
    QuotRem(B64 * k + t1, B64, k, t1);
  }

  /** The two words of the block count and the bytes left over give the length in bits. */
  lemma BitLength(t0: u64, t1: u64, len: nat)
    requires Counted(t0, t1, len / BLOCK)
    ensures t0 as int + 8 * (len % BLOCK) < B64
    ensures LengthBytes(len) == Store64(t1) + Store64(t0 + 8 * (len % BLOCK))
  {
    BitsInWords(t0, t1, len);
  }

  /** Padding that fits into the block begun. */
  lemma OneBlock(f: Compression, m: seq<byte>, tail: seq<byte>, block: seq<byte>)
    requires |m| % BLOCK <= 111 && |tail| == 16 && block == m[|m| - |m| % BLOCK..] + Padding(|m|, tail)
    ensures |block| == BLOCK && DigestWith(f, m, tail) == Chain(f, Chain(f, IV, m, |m| / BLOCK), block, 1)
  {
    FilledBlock(f, m, Padding(|m|, tail));
  }

  lemma Regrouped(a: seq<byte>, b: seq<byte>, c: seq<byte>, d: seq<byte>)
    ensures a + (b + c + d) == a + b + c + d
  {
  }

  lemma PaddingSplit(m: seq<byte>, tail: seq<byte>)
    requires |m| % BLOCK > 111
    ensures m + Padding(|m|, tail) == m + ([0x80] + Zeros(127 - |m| % BLOCK)) + (Zeros(112) + tail)
  {
    var r := |m| % BLOCK;
    assert Zeros(239 - r) == Zeros(127 - r) + Zeros(112);
  }

  /** Padding that spills into a second block. */
  lemma TwoBlocks(f: Compression, m: seq<byte>, tail: seq<byte>)
    requires |m| % BLOCK > 111 && |tail| == 16
    ensures |m + ([0x80] + Zeros(127 - |m| % BLOCK))| == BLOCK * (|m| / BLOCK + 1)
    ensures DigestWith(f, m, tail) ==
      Chain(f, Chain(f, IV, m + ([0x80] + Zeros(127 - |m| % BLOCK)), |m| / BLOCK + 1), Zeros(112) + tail, 1)
  {
    var first := m + ([0x80] + Zeros(127 - |m| % BLOCK));
    QuotRem(|first|, BLOCK, |m| / BLOCK + 1, 0);
    ChainAfter(f, first, Zeros(112) + tail, 1);
    PaddingSplit(m, tail);
  }

  /** A message from its parts. */
  function Joined(parts: seq<seq<byte>>): (r: seq<byte>) {
    if parts == [] then [] else Joined(parts[..|parts| - 1]) + parts[|parts| - 1]
  }

  lemma CutAt(m: seq<byte>, x: seq<byte>, n: nat)
    requires n <= |x|
    ensures m + x[..n] + x[n..] == m + x
  {
    assert x[..n] + x[n..] == x;
  }

  lemma JoinedStep(m: seq<byte>, parts: seq<seq<byte>>, i: nat)
    requires i < |parts|
    ensures m + Joined(parts[..i]) + parts[i] == m + Joined(parts[..i + 1])
  {
    assert parts[..i + 1][..i] == parts[..i];
  }

  /** The state of a hash in progress. */
  class Sha512 {
    const compress: Compression
    var H: State
    var T0: u64
    var T1: u64
    var leftover: nat
    const buffer: array<byte>

    /** The bytes of m have been taken in: whole blocks are compressed and counted, the rest is in the buffer. */
    ghost predicate Absorbed(m: seq<byte>)
      reads this, buffer
    {
      && buffer.Length == BLOCK && leftover == |m| % BLOCK && buffer[..leftover] == m[|m| - leftover..]
      && H == Chain(compress, IV, m, |m| / BLOCK)
      && Counted(T0, T1, |m| / BLOCK)
    }

    constructor (f: Compression)
      ensures Absorbed([]) && compress == f && fresh(buffer)
    {
      compress := f;
      H := IV;
      T0, T1, leftover := 0, 0, 0;
      buffer := new byte[BLOCK];
      CountedIff(0, 0, 0);
    }

    method Blocks(input: seq<byte>, n: nat, ghost k: nat)
      requires BLOCK * n <= |input| && Counted(T0, T1, k)
      modifies this`H, this`T0, this`T1
      ensures H == Chain(compress, old(H), input, n) && Counted(T0, T1, k + n)
    {
      var i := 0;
      while i < n
        invariant 0 <= i <= n && H == Chain(compress, old(H), input, i) && Counted(T0, T1, k + i)
      {
        H := compress(H, input[BLOCK * i..BLOCK * (i + 1)]);
        CountedStep(T0, T1, k + i);
        T0 := Wrap64(T0 + 1024);
        T1 := Wrap64(T1 + if T0 == 0 then 1 else 0);
        i := i + 1;
      }
    }

    /** Copies data into the buffer. */
    method Fill(start: nat, data: seq<byte>)
      requires buffer.Length == BLOCK && start + |data| <= BLOCK
      modifies buffer
      ensures buffer[..start] == old(buffer[..start]) && buffer[start..start + |data|] == data
      ensures buffer[start + |data|..] == old(buffer[start + |data|..])
    {
      for i := 0 to |data|
        invariant buffer[..start] == old(buffer[..start]) && buffer[start..start + i] == data[..i]
        invariant buffer[start + |data|..] == old(buffer[start + |data|..])
      {
        buffer[start + i] := data[i];
      }
    }

    /** Whole blocks only, and nothing said about the buffer. */
    ghost predicate Whole(m: seq<byte>)
      reads this
    {
      && buffer.Length == BLOCK && |m| % BLOCK == 0 && H == Chain(compress, IV, m, |m| / BLOCK)
      && Counted(T0, T1, |m| / BLOCK)
    }

    /** Data after whole blocks: all its blocks are compressed and the rest goes to the buffer. */
    method TakeIn(input: seq<byte>, ghost m: seq<byte>)
      requires Whole(m)
      modifies this, buffer
      ensures Absorbed(m + input)
    {
      var n := |input| / BLOCK;
      leftover := |input| - BLOCK * n;
      ghost var q := |m| / BLOCK;
      ChainAfter(compress, m, input, n);
      if n > 0 {
        Blocks(input, n, q);
      }
      if leftover > 0 {
        Fill(0, input[BLOCK * n..]);
      }
      QuotRem(|m + input|, BLOCK, q + n, leftover);
      assert (m + input)[|m + input| - leftover..] == input[BLOCK * n..];
    }

    /** More data, in any amount. */
    method Update(input: seq<byte>, ghost m: seq<byte>)
      requires Absorbed(m)
      modifies this, buffer
      ensures Absorbed(m + input)
    {
      var rest := input;
      ghost var done := m;
      if leftover > 0 {
        var want := BLOCK - leftover;
        want := if want < |rest| then want else |rest|;
        ghost var held := buffer[..leftover];
        Fill(leftover, rest[..want]);
        assert buffer[..leftover + want] == held + rest[..want];
        leftover := leftover + want;
        if leftover < BLOCK {
          StillHeld(m, input);
          return;
        }
        rest := rest[want..];
        done := m + input[..want];
        FilledBlock(compress, m, input[..want]);
        assert buffer[..] == held + input[..want];
        Blocks(buffer[..], 1, |m| / BLOCK);
        CutAt(m, input, want);
      }
      TakeIn(rest, done);
    }

    /** What is left to do: compress the first 112 bytes of the buffer and the last sixteen of the padding. */
    ghost predicate AllButLast(m: seq<byte>, tail: seq<byte>, k: nat)
      requires |tail| == 16
      reads this, buffer
    {
      && buffer.Length == BLOCK && Counted(T0, T1, k)
      && DigestWith(compress, m, tail) == Chain(compress, H, buffer[..112] + tail, 1)
    }

    method PadOne(ghost m: seq<byte>, ghost tail: seq<byte>)
      requires Absorbed(m) && leftover <= 111 && |tail| == 16
      modifies buffer
      ensures AllButLast(m, tail, |m| / BLOCK)
    {
      ghost var held := buffer[..leftover];
      buffer[leftover] := 0x80;
      Fill(leftover + 1, Zeros(111 - leftover));
      assert buffer[..112] == held + [0x80] + Zeros(111 - leftover);
      Regrouped(held, [0x80], Zeros(111 - leftover), tail);
      OneBlock(compress, m, tail, buffer[..112] + tail);
    }

    /** The block begun, with the one bit and zero bits after it. */
    method PadFirst(ghost m: seq<byte>)
      requires Absorbed(m) && leftover > 111
      modifies this, buffer
      ensures Whole(m + ([0x80] + Zeros(127 - |m| % BLOCK)))
    {
      ghost var held, first := buffer[..leftover], [0x80] + Zeros(127 - leftover);
      buffer[leftover] := 0x80;
      Fill(leftover + 1, Zeros(127 - leftover));
      assert buffer[..] == held + first;
      FilledBlock(compress, m, first);
      ghost var q := |m| / BLOCK;
      Blocks(buffer[..], 1, q);
      assert |m + first| / BLOCK == q + 1;
    }

    method PadTwo(ghost m: seq<byte>, ghost tail: seq<byte>)
      requires Absorbed(m) && leftover > 111 && |tail| == 16
      modifies this, buffer
      ensures AllButLast(m, tail, |m| / BLOCK + 1)
    {
      PadFirst(m);
      Fill(0, Zeros(112));
      TwoBlocks(compress, m, tail);
    }

    /** The last sixteen bytes are put in, and the block is compressed. */
    method LastBlock(high: seq<byte>, low: seq<byte>, ghost k: nat)
      requires buffer.Length == BLOCK && Counted(T0, T1, k) && |high| == |low| == 8
      modifies this, buffer
      ensures H == Chain(compress, old(H), old(buffer[..112]) + (high + low), 1)
    {
      Fill(112, high);
      Fill(120, low);
      assert buffer[..] == old(buffer[..112]) + (high + low);
      Blocks(buffer[..], 1, k);
    }

    /** The padded last block or two, ending in the given sixteen bytes. */
    method Finish(high: seq<byte>, low: seq<byte>, ghost m: seq<byte>)
      requires Absorbed(m) && |high| == |low| == 8
      modifies this, buffer
      ensures H == DigestWith(compress, m, high + low)
    {
      if leftover <= 111 {
        PadOne(m, high + low);
        LastBlock(high, low, |m| / BLOCK);
      } else {
        PadTwo(m, high + low);
        LastBlock(high, low, |m| / BLOCK + 1);
      }
    }

    /** The digest of all that was taken in. */
    method Final(ghost m: seq<byte>) returns (hash: seq<byte>)
      requires Absorbed(m)
      modifies this, buffer
      ensures hash == BytesOf(Digest(compress, m))
    {
      BitLength(T0, T1, |m|);
      Finish(Store64(T1), Store64(T0 + 8 * leftover), m);
      hash := BytesOf(H);
    }

    /** All the parts of a message in turn. */
    method UpdateAll(parts: seq<seq<byte>>, ghost m: seq<byte>)
      requires Absorbed(m)
      modifies this, buffer
      ensures Absorbed(m + Joined(parts))
    {
      assert m + Joined([]) == m;
      for i := 0 to |parts|
        invariant Absorbed(m + Joined(parts[..i]))
      {
        JoinedStep(m, parts, i);
        Update(parts[i], m + Joined(parts[..i]));
      }
      assert parts[..|parts|] == parts;
    }
  }
}
