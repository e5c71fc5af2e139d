/**
 * Signing and verifying, sections 5.1.5 to 5.1.7 of RFC 8032, over an abstract abelian group in which the order of
 * the base divides L. How a point is written as bytes and read back is a parameter, and so is the compression of
 * the hash; the scalar arithmetic, the recodings and the buffering of the hash are those of the other modules.
 */
module Signing {
  import opened Words
  import opened Options
  import opened ScalarField
  import opened ScalarBytes
  import opened Groups
  import opened ScalarMult
  import opened Hashing

  type Hash512 = b: seq<byte> | |b| == 64 witness seq(64, _ => 0)

  datatype Suite<!G> = Suite(
    g: Group<G>, base: G, windows: seq<G>, multiples: seq<G>,
    pack: G -> seq<byte>, unpackNegative: seq<byte> -> Option<G>,
    compress: Compression, hash: seq<byte> -> Hash512)

  // `Hashed` says nothing: it only lets a proof choose where the definition of the hash comes into sight.
  ghost predicate Hashed(m: seq<byte>) { true }

  ghost predicate HashesWith(hash: seq<byte> -> Hash512, f: Compression) {
    forall m {:trigger Hashed(m)} :: Hashed(m) ==> hash(m) == BytesOf(Digest(f, m))
  }

  /**
   * The tables hold the stated multiples of the base, a packed point reads back as its negative, and the hash is
   * SHA-512 with the given compression.
   */
  ghost predicate Sound<G(!new)>(s: Suite<G>) {
    && Abelian(s.g) && WindowTable(s.g, s.windows, s.base)
    && |s.multiples| == 32 && OddMultiples(s.g, s.multiples, s.base)
    && Times(s.g, L, s.base) == s.g.zero
    && (forall p :: |s.pack(p)| == 32) && (forall p :: s.unpackNegative(s.pack(p)) == Some(s.g.neg(p)))
    && HashesWith(s.hash, s.compress)
  }

  // ---- what is computed ----

  /** The low three bits and the top bit of the first half cleared, the bit below the top one set. */
  function Clamp(e: Hash512): (r: Hash512) {
    e[0 := e[0] - e[0] % 8][31 := e[31] % 0x40 + 0x40]
  }

  function ScalarOf(b: seq<byte>): (r: nat) {
    LeValue(b) % L
  }

  function SecretScalar<G>(s: Suite<G>, sk: seq<byte>): (r: nat) {
    ScalarOf(Clamp(s.hash(sk))[..32])
  }

  function PublicKeyOf<G>(s: Suite<G>, sk: seq<byte>): (pk: seq<byte>) {
    s.pack(Times(s.g, SecretScalar(s, sk), s.base))
  }

  function Nonce<G>(s: Suite<G>, m: seq<byte>, sk: seq<byte>): (r: nat) {
    ScalarOf(s.hash(Clamp(s.hash(sk))[32..] + m))
  }

  function Challenge<G>(s: Suite<G>, R: seq<byte>, pk: seq<byte>, m: seq<byte>): (r: nat) {
    ScalarOf(s.hash(R + pk + m))
  }

  // `Answered` says nothing: it only lets a proof choose where the arithmetic behind `Responds` comes into sight.
  ghost predicate Answered(b: seq<byte>, h: nat, a: nat, r: nat, k: int) { true }

  /** The bytes of (h a + r) mod L. */
  ghost predicate Responds(b: seq<byte>, h: nat, a: nat, r: nat) {
    forall k: int {:trigger Answered(b, h, a, r, k)} :: Answered(b, h, a, r, k) ==> LeValue(b) == ((h * a) % L + r) % L
  }

  lemma RespondsIff(b: seq<byte>, h: nat, a: nat, r: nat)
    ensures Responds(b, h, a, r) <==> LeValue(b) == ((h * a) % L + r) % L
  {
    assert Answered(b, h, a, r, 0);
  }

  lemma MakesResponse(b: seq<byte>, h: nat, a: nat, r: nat, ha: int)
    requires ha == (h * a) % L && LeValue(b) == (ha + r) % L
    ensures Responds(b, h, a, r)
  {
    RespondsIff(b, h, a, r);
  }

  /** The packed point r B, followed by the 32 bytes of (h a + r) mod L for the challenge h. */
  ghost predicate IsSignature<G>(s: Suite<G>, m: seq<byte>, sk: seq<byte>, pk: seq<byte>, RS: seq<byte>) {
    && |RS| == 64
    && var r := Nonce(s, m, sk);
    && RS[..32] == s.pack(Times(s.g, r, s.base))
    && Responds(RS[32..], Challenge(s, RS[..32], pk, m), SecretScalar(s, sk), r)
  }

  /** The top three bits are clear, the key reads as a point, and the first half packs S B - h A. */
  ghost predicate Accepts<G>(s: Suite<G>, m: seq<byte>, pk: seq<byte>, RS: seq<byte>)
    requires |RS| == 64
  {
    && RS[63] < 0x20 && s.unpackNegative(pk).Some?
    && var h := Challenge(s, RS[..32], pk, m);
    RS[..32] == s.pack(s.g.add(Times(s.g, h, s.unpackNegative(pk).value), Times(s.g, ScalarOf(RS[32..]), s.base)))
  }

  // ---- how ----

  lemma HashedWith(hash: seq<byte> -> Hash512, f: Compression, m: seq<byte>)
    requires HashesWith(hash, f)
    ensures hash(m) == BytesOf(Digest(f, m))
  {
    assert Hashed(m);
  }

  /** The hash of a prefix and a message in parts. */
  method HashParts(f: Compression, a: seq<byte>, parts: seq<seq<byte>>, ghost hash: seq<byte> -> Hash512) returns (r: Hash512)
    requires HashesWith(hash, f)
    ensures r == hash(a + Joined(parts))
  {
    var ctx := new Sha512(f);
    ctx.Update(a, []);
    assert [] + a == a;
    ctx.UpdateAll(parts, a);
    r := ctx.Final(a + Joined(parts));
    HashedWith(hash, f, a + Joined(parts));
  }

  method HashOne(f: Compression, m: seq<byte>, ghost hash: seq<byte> -> Hash512) returns (r: Hash512)
    requires HashesWith(hash, f)
    ensures r == hash(m)
  {
    var ctx := new Sha512(f);
    ctx.Update(m, []);
    assert [] + m == m;
    r := ctx.Final(m);
    HashedWith(hash, f, m);
  }

  method HashTwo(f: Compression, a: seq<byte>, m: seq<byte>, ghost hash: seq<byte> -> Hash512) returns (r: Hash512)
    requires HashesWith(hash, f)
    ensures r == hash(a + m)
  {
    var ctx := new Sha512(f);
    ctx.Update(a, []);
    assert [] + a == a;
    ctx.Update(m, a);
    r := ctx.Final(a + m);
    HashedWith(hash, f, a + m);
  }

  method Hram(f: Compression, R: seq<byte>, pk: seq<byte>, m: seq<byte>, ghost hash: seq<byte> -> Hash512) returns (r: Hash512)
    requires HashesWith(hash, f)
    ensures r == hash(R + pk + m)
  {
    var ctx := new Sha512(f);
    ctx.Update(R, []);
    assert [] + R == R;
    ctx.Update(pk, R);
    ctx.Update(m, R + pk);
    r := ctx.Final(R + pk + m);
    HashedWith(hash, f, R + pk + m);
  }

  method HramVector(f: Compression, R: seq<byte>, pk: seq<byte>, ms: seq<seq<byte>>, ghost hash: seq<byte> -> Hash512)
    returns (r: Hash512)
    requires HashesWith(hash, f)
    ensures r == hash(R + pk + Joined(ms))
  {
    var ctx := new Sha512(f);
    ctx.Update(R, []);
    assert [] + R == R;
    ctx.Update(pk, R);
    ctx.UpdateAll(ms, R + pk);
    r := ctx.Final(R + pk + Joined(ms));
    HashedWith(hash, f, R + pk + Joined(ms));
  }

  /** A scalar from bytes, times the base. */
  method BaseTimes<G(!new)>(s: Suite<G>, bytes: seq<byte>) returns (k: array<u64>, p: G)
    requires Sound(s) && |bytes| <= 64
    ensures fresh(k) && Fits(k[..], B40) && Value(k[..]) == ScalarOf(bytes) && p == Times(s.g, ScalarOf(bytes), s.base)
  {
    k := new u64[5];
    Expand(k, bytes);
    p := ScalarMultBase(s.g, s.windows, k, s.base);
  }

  method PublicKey<G(!new)>(s: Suite<G>, sk: seq<byte>) returns (pk: seq<byte>)
    requires Sound(s)
    ensures pk == PublicKeyOf(s, sk)
  {
    var ext := HashOne(s.compress, sk, s.hash);
    ext := Clamp(ext);
    var a, A := BaseTimes(s, ext[..32]);
    pk := s.pack(A);
  }

  method ScalarProduct(hram: seq<byte>, secret: seq<byte>) returns (S: array<u64>, ghost v: nat)
    requires |hram| <= 64 && |secret| <= 64
    ensures fresh(S) && Fits(S[..], B40) && Value(S[..]) == v && v == (ScalarOf(hram) * ScalarOf(secret)) % L
  {
    S := new u64[5];
    var a := new u64[5];
    Expand(S, hram);
    Expand(a, secret);
    Mul(S, S, a);
    v := Value(S[..]);
  }

  method ScalarSum(S: array<u64>, r: array<u64>, ghost v: nat, ghost n: nat) returns (out: seq<byte>)
    requires Fits(S[..], B40) && Value(S[..]) == v < L && Fits(r[..], B40) && Value(r[..]) == n < L
    modifies S
    ensures |out| == 32 && LeValue(out) == (v + n) % L
  {
    Add(S, S, r);
    out := ScalarBytes.Contract(S);
  }

  /** The second half of a signature: the challenge times the secret scalar, plus the nonce. */
  method Response(hram: seq<byte>, secret: seq<byte>, r: array<u64>, ghost n: nat) returns (out: seq<byte>)
    requires |hram| <= 64 && |secret| <= 64 && Fits(r[..], B40) && Value(r[..]) == n < L
    ensures |out| == 32 && Responds(out, ScalarOf(hram), ScalarOf(secret), n)
  {
    var S, v := ScalarProduct(hram, secret);
    out := ScalarSum(S, r, v, n);
    MakesResponse(out, ScalarOf(hram), ScalarOf(secret), n, v);
  }

  /** Both halves together. */
  method Signature(first: seq<byte>, hram: seq<byte>, secret: seq<byte>, r: array<u64>, ghost n: nat) returns (RS: seq<byte>)
    requires |first| == 32 && |hram| <= 64 && |secret| <= 64 && Fits(r[..], B40) && Value(r[..]) == n < L
    ensures |RS| == 64 && RS[..32] == first && Responds(RS[32..], ScalarOf(hram), ScalarOf(secret), n)
  {
    var second := Response(hram, secret, r, n);
    RS := first + second;
    assert RS[..32] == first && RS[32..] == second;
  }

  method Sign<G(!new)>(s: Suite<G>, m: seq<byte>, sk: seq<byte>, pk: seq<byte>) returns (RS: seq<byte>)
    requires Sound(s)
    ensures IsSignature(s, m, sk, pk, RS)
  {
    var ext := HashOne(s.compress, sk, s.hash);
    ext := Clamp(ext);
    var hashr := HashTwo(s.compress, ext[32..], m, s.hash);
    var r, R := BaseTimes(s, hashr);
    var first := s.pack(R);
    var hram := Hram(s.compress, first, pk, m, s.hash);
    RS := Signature(first, hram, ext[..32], r, ScalarOf(hashr));
  }

  /** Signing a message in parts gives the signature of the whole message, whatever the parts. */
  method SignVector<G(!new)>(s: Suite<G>, ms: seq<seq<byte>>, sk: seq<byte>, pk: seq<byte>) returns (RS: seq<byte>)
    requires Sound(s)
    ensures IsSignature(s, Joined(ms), sk, pk, RS)
  {
    var ext := HashOne(s.compress, sk, s.hash);
    ext := Clamp(ext);
    var hashr := HashParts(s.compress, ext[32..], ms, s.hash);
    var r, R := BaseTimes(s, hashr);
    var first := s.pack(R);
    var hram := HramVector(s.compress, first, pk, ms, s.hash);
    RS := Signature(first, hram, ext[..32], r, ScalarOf(hashr));
  }

  /** There is only one signature, so both ways of signing agree byte for byte. */
  lemma SignatureUnique<G>(s: Suite<G>, m: seq<byte>, sk: seq<byte>, pk: seq<byte>, a: seq<byte>, b: seq<byte>)
    requires IsSignature(s, m, sk, pk, a) && IsSignature(s, m, sk, pk, b)
    ensures a == b
  {
    LeUnique(a[32..]);
    LeUnique(b[32..]);
    var h, x, r := Challenge(s, a[..32], pk, m), SecretScalar(s, sk), Nonce(s, m, sk);
    RespondsIff(a[32..], h, x, r);
    RespondsIff(b[32..], h, x, r);
    assert a == a[..32] + a[32..] && b == b[..32] + b[32..];
  }

  /** S B + h A for the challenge and the second half of a signature, packed. */
  method CheckPoint<G(!new)>(s: Suite<G>, A: G, hash: Hash512, second: seq<byte>) returns (r: seq<byte>)
    requires Sound(s) && |second| == 32
    ensures r == s.pack(s.g.add(Times(s.g, ScalarOf(hash), A), Times(s.g, ScalarOf(second), s.base)))
  {
    var hram, S := new u64[5], new u64[5];
    Expand(hram, hash);
    Expand(S, second);
    var R := DoubleScalarMult(s.g, A, s.base, s.multiples, hram, S);
    r := s.pack(R);
  }

  method SignOpen<G(!new)>(s: Suite<G>, m: seq<byte>, pk: seq<byte>, RS: seq<byte>) returns (ok: bool)
    requires Sound(s) && |RS| == 64
    ensures ok <==> Accepts(s, m, pk, RS)
  {
    if RS[63] / 0x20 != 0 {
      return false;
    }
    var A := s.unpackNegative(pk);
    if A.None? {
      return false;
    }
    var hash := Hram(s.compress, RS[..32], pk, m, s.hash);
    var checkR := CheckPoint(s, A.value, hash, RS[32..]);
    return RS[..32] == checkR;
  }

  method SignOpenVector<G(!new)>(s: Suite<G>, ms: seq<seq<byte>>, pk: seq<byte>, RS: seq<byte>) returns (ok: bool)
    requires Sound(s) && |RS| == 64
    ensures ok <==> Accepts(s, Joined(ms), pk, RS)
  {
    if RS[63] / 0x20 != 0 {
      return false;
    }
    var A := s.unpackNegative(pk);
    if A.None? {
      return false;
    }
    var hash := HramVector(s.compress, RS[..32], pk, ms, s.hash);
    var checkR := CheckPoint(s, A.value, hash, RS[32..]);
    return RS[..32] == checkR;
  }

  // ---- what was signed is accepted ----

  lemma TimesZero<G(!new)>(g: Group<G>, n: nat, p: G)
    requires Abelian(g)
    ensures Times(g, n, g.zero) == g.zero
  {
    TimesTimes(g, n, 0, p);
    assert n * 0 == 0;
  }

  /** Scalars count modulo the order. */
  lemma TimesModulo<G(!new)>(g: Group<G>, n: nat, p: G)
    requires Abelian(g) && Times(g, L, p) == g.zero
    ensures Times(g, n % L, p) == Times(g, n, p)
  {
    var q, r := n / L, n % L;
    TimesAdd(g, q * L, r, p);
    TimesTimes(g, q, L, p);
    TimesZero(g, q, p);
    Commute(g, g.zero, Times(g, r, p));
    assert q * L + r == n;
  }

  lemma TimesNegated<G(!new)>(g: Group<G>, B: G, h: nat, a: nat, ha: nat)
    requires Abelian(g) && ha == h * a
    ensures Times(g, h, g.neg(Times(g, a, B))) == Times(g, 0 - ha, B)
  {
    TimesNeg(g, a, B);
    TimesTimes(g, h, 0 - a, B);
    assert h * (0 - a) == 0 - h * a;
  }

  lemma TimesReduced<G(!new)>(g: Group<G>, B: G, n: nat, r: nat)
    requires Abelian(g) && Times(g, L, B) == g.zero
    ensures Times(g, (n % L + r) % L, B) == Times(g, n + r, B)
  {
    TimesModulo(g, n % L + r, B);
    TimesAdd(g, n % L, r, B);
    TimesModulo(g, n, B);
    TimesAdd(g, n, r, B);
  }

  /** -n B and n + r times B make r B. */
  lemma TimesBack<G(!new)>(g: Group<G>, B: G, n: nat, r: nat)
    requires Abelian(g) && Times(g, L, B) == g.zero
    ensures g.add(Times(g, 0 - n, B), Times(g, (n % L + r) % L, B)) == Times(g, r, B)
  {
    TimesReduced(g, B, n, r);
    TimesAdd(g, 0 - n, n + r, B);
  }

  /** The top byte of a number below L. */
  lemma TopByte(b: seq<byte>)
    requires |b| == 32 && LeValue(b) < L
    ensures b[31] < 0x20 && ScalarOf(b) == LeValue(b)
  {
    assert b == b[..31] + [b[31]];
    LeAppend(b[..31], [b[31]]);
    Powers();
    assert Power256(32) == 0x100 * Power256(31);
    assert [b[31]][1..] == [];
    assert LeValue([b[31]]) == b[31] + 0x100 * LeValue([b[31]][1..]);
    QuotRem(LeValue(b), L, 0, LeValue(b));
  }

  /** For every message and every secret key, the signature is accepted under the public key. */
  lemma SignedIsAccepted<G(!new)>(s: Suite<G>, m: seq<byte>, sk: seq<byte>, RS: seq<byte>)
    requires Sound(s) && IsSignature(s, m, sk, PublicKeyOf(s, sk), RS)
    ensures Accepts(s, m, PublicKeyOf(s, sk), RS)
  {
    var a, r := SecretScalar(s, sk), Nonce(s, m, sk);
    var h := Challenge(s, RS[..32], PublicKeyOf(s, sk), m);
    RespondsIff(RS[32..], h, a, r);
    TopByte(RS[32..]);
    var ha := h * a;
    TimesNegated(s.g, s.base, h, a, ha);
    TimesBack(s.g, s.base, ha, r);
  }
}
