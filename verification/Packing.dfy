/** Points as 32 bytes: the y coordinate and the parity of x, as in section 5.1.2 of RFC 8032. */
module Packing {
  import opened Words
  import opened ScalarBytes
  import opened Field
  import opened FieldBytes
  import opened Residues
  import opened Inversion
  import opened Remainders
  import opened FieldLaws
  import opened Points

  const ECD := Fe(0x00034dca135978a3, 0x0001a8283b156ebd, 0x0005e7a26001c029, 0x000739c663a03cbb, 0x00052036cee2b6ff)
  const SQRTNEG1 := Fe(0x00061b274a0ea0b0, 0x0000d5a5fc8f189d, 0x0007ef5e9cbd0c60, 0x00078595a6804c9e, 0x0002b8324804fc1d)
  const ROOT := 0x2b8324804fc1df0b2b4d00993dfbd7a72f431806ad2fe478c4ee1b274a0ea0b0

  /** The stored constants are d and a square root of -1. */
  lemma RootConstants()
    ensures Is(ECD, D) && Is(SQRTNEG1, ROOT) && Congruent(ROOT * ROOT, -1)
  {
    assert Val(ECD) == D && Val(SQRTNEG1) == ROOT;
    IsSelf(ECD, D);
    IsSelf(SQRTNEG1, ROOT);
    CongruentBy(ROOT * ROOT, -1, 0xecaa2e2f6a2302ccedb31ac05720688238ced2078f3eb0ec9f22e8f621972e5);
  }

  lemma {:induction false} ZeroBytes(s: seq<byte>)
    ensures LeValue(s) == 0 <==> forall i :: 0 <= i < |s| ==> s[i] == 0
  {
    if s != [] {
      ZeroBytes(s[1..]);
      if LeValue(s) == 0 {
        forall i | 0 <= i < |s| ensures s[i] == 0 {
          assert i > 0 ==> s[i] == s[1..][i - 1];
        }
      }
    }
  }

  lemma IsResidue(x: Fe, v: int)
    requires Is(x, v)
    ensures Val(x) % P == v % P
  {
    IsIff(x, v);
    CongruentIff(Val(x), v);
  }

  /** Whether an element is zero modulo p, judged by its canonical bytes. */
  method IsZero(x: Fe, ghost v: int) returns (zero: bool)
    requires Loose(x) && Is(x, v)
    ensures zero <==> Congruent(v, 0)
  {
    var check := FieldBytes.Contract(x);
    IsResidue(x, v);
    CongruentIff(v, 0);
    ZeroBytes(check);
    zero := true;
    for i := 0 to 32
      invariant zero <==> forall j :: 0 <= j < i ==> check[j] == 0
    {
      zero := zero && check[i] == 0;
    }
  }

  /** The parity of the canonical representative. */
  method Parity(x: Fe, ghost v: int) returns (odd: bool)
    requires Loose(x) && Is(x, v)
    ensures odd <==> (v % P) % 2 == 1
  {
    var check := FieldBytes.Contract(x);
    IsResidue(x, v);
    LowBit(check);
    odd := check[0] % 2 == 1;
  }

  lemma LowBit(s: seq<byte>)
    requires s != []
    ensures LeValue(s) % 2 == s[0] as int % 2
  {
  }

  method SubReduceOf(x: Fe, y: Fe, ghost a: int, ghost b: int) returns (r: Fe)
    requires Loose(x) && Below(y, T) && Is(x, a) && Is(y, b)
    ensures Below(r, T) && Is(r, a - b)
  {
    ghost var k;
    r, k := SubReduce(x, y);
    DifferenceIs(x, y, r, k, a, b);
  }

  // `Raised` says nothing: the power stays a name until a proof asks for it.
  ghost predicate Raised(w: int, b: int, k: int) { true }

  /** w is b^((p - 5) / 8). */
  ghost predicate RootPower(w: int, b: int) {
    forall k: int {:trigger Raised(w, b, k)} :: Raised(w, b, k) ==> w == Pow(b, (P - 5) / 8)
  }

  lemma MakeRootPower(b: int) returns (w: int)
    ensures RootPower(w, b) && w == Pow(b, (P - 5) / 8)
  {
    w := Pow(b, (P - 5) / 8);
  }

  /** v is n m^3 (n m^7)^((p - 5) / 8), the candidate of section 5.1.3 of RFC 8032 for a square root of n / m. */
  ghost predicate Candidate(v: int, n: int, m: int) {
    exists m2, m3, m6, m7, b, w, a ::
      && Product(m2, m, m) && Product(m3, m2, m) && Product(m6, m3, m3) && Product(m7, m6, m) && Product(b, m7, n)
      && RootPower(w, b) && Product(a, w, m3) && Product(v, a, n)
  }

  method CandidateRoot(num: Fe, den: Fe, ghost n: int, ghost m: int) returns (r: Fe, ghost v: int)
    requires Below(num, T) && Loose(den) && Is(num, n) && Is(den, m)
    ensures Below(r, T) && Is(r, v) && Candidate(v, n, m)
  {
    var t, m2 := SquareOf(den, m);
    var d3, m3 := MulOf(t, den, m2, m);
    ghost var m6, m7, b, w, a;
    r, m6 := SquareOf(d3, m3);
    r, m7 := MulOf(r, den, m6, m);
    r, b := MulOf(r, num, m7, n);
    r, w := RootPowerOf(r, b);
    r, a := MulOf(r, d3, w, m3);
    r, v := MulOf(r, num, a, n);
  }

  method RootPowerOf(x: Fe, ghost b: int) returns (r: Fe, ghost w: int)
    requires Below(x, T) && Is(x, b)
    ensures Below(r, T) && Is(r, w) && RootPower(w, b)
  {
    r := PowTwo252m3(x);
    w := MakeRootPower(b);
    IsPower(x, b, r, (P - 5) / 8);
  }

  /** Powers of an element depend on what it stands for alone. */
  lemma IsPower(x: Fe, b: int, r: Fe, e: nat)
    requires Is(x, b) && Is(r, Pow(Val(x), e))
    ensures Is(r, Pow(b, e))
  {
    IsIff(x, b);
    IsIff(r, Pow(Val(x), e));
    PowCongruent(Val(x), b, e);
    CongruentTurn(Val(r), Pow(Val(x), e));
    CongruentSame(Pow(Val(x), e), Val(r), Pow(b, e));
    IsIff(r, Pow(b, e));
  }

  // ---- the curve equation ----

  /** (d y^2 + 1) x^2 = y^2 - 1, the curve equation solved for x. */
  lemma SolvesCurve(x: int, y: int, xx: int, yy: int)
    requires xx == x * x && yy == y * y && Congruent(xx * (D * yy + 1), yy - 1)
    ensures OnCurve(Quad(x, y, 1, x * y)) && Extended(Quad(x, y, 1, x * y))
  {
    var l, r := (yy - xx) * (1 * 1), (1 * 1) * (1 * 1) + D * ((x * y) * (x * y));
    Shuffle(x, x, y, y);
    assert (x * y) * (x * y) == xx * yy;
    Expanded(xx, yy);
    assert l == yy - xx && r == 1 + D * (xx * yy);
    Moved(xx * (D * yy + 1), yy - 1, l, r);
    CongruentBy((x * y) * 1, x * y, 0);
  }

  lemma Expanded(xx: int, yy: int)
    ensures xx * (D * yy + 1) == D * (xx * yy) + xx
  {
    assert xx * (D * yy) == D * (xx * yy);
  }

  lemma Moved(a: int, b: int, c: int, d: int)
    requires Congruent(a, b) && c - d == b - a
    ensures Congruent(c, d)
  {
    var k := Gap(a, b);
    CongruentBy(c, d, -k);
  }

  /** If den x^2 is -num, den (x sqrt(-1))^2 is num. */
  lemma OtherRoot(x: int, s: int, den: int, num: int)
    requires Congruent((x * x) * den, -num) && s == x * ROOT && Congruent(ROOT * ROOT, -1)
    ensures Congruent((s * s) * den, num)
  {
    Shuffle(x, x, ROOT, ROOT);
    var q := (x * x) * den;
    assert (s * s) * den == (ROOT * ROOT) * q by {
      assert s * s == (x * x) * (ROOT * ROOT);
      Swapped(x * x, ROOT * ROOT, den);
    }
    CongruentMul(ROOT * ROOT, -1, q, -num);
  }

  lemma Swapped(a: int, b: int, c: int)
    ensures (a * b) * c == b * (a * c)
  {
    assert (a * b) * c == a * (b * c);
  }

  // ---- packing ----

  lemma LastByte(s: seq<byte>)
    requires |s| == 32
    ensures LeValue(s) == LeValue(s[..31]) + 0x100000000000000000000000000000000000000000000000000000000000000 * (s[31] as int)
  {
    assert s == s[..31] + [s[31]];
    LeAppend(s[..31], [s[31]]);
    Powers();
    assert Power256(32) == 0x100 * Power256(31);
    assert [s[31]][1..] == [];
    assert LeValue([s[31]]) == s[31] + 0x100 * LeValue([s[31]][1..]);
  }

  /** A value below 2^255 leaves the top bit free for the parity. */
  method SetParity(s: seq<byte>, odd: bool) returns (r: seq<byte>)
    requires |s| == 32 && LeValue(s) < T255
    ensures |r| == 32 && LeValue(r) == LeValue(s) + if odd then T255 else 0
  {
    LastByte(s);
    r := s;
    if odd {
      r := s[31 := s[31] + 0x80];
      assert r[..31] == s[..31];
      LastByte(r);
    }
  }

  /** The y coordinate of the affine point, with the parity of x in the top bit. */
  method Pack(p: Point) returns (r: seq<byte>, ghost zi: int)
    requires Below(p.x, T) && Below(p.y, T) && Below(p.z, T)
    ensures |r| == 32
    ensures Congruent(zi, Pow(Val(p.z), P - 2)) && (Val(p.z) % P != 0 ==> Congruent(Val(p.z) * zi, 1))
    ensures LeValue(r) == (Val(p.y) * zi) % P + if (Val(p.x) * zi) % P % 2 == 1 then T255 else 0
  {
    var inv := Recip(p.z);
    zi := Val(inv);
    IsIff(inv, Pow(Val(p.z), P - 2));
    if Val(p.z) % P != 0 {
      Inverted(Val(p.z), zi);
    }
    var tx := Mul(p.x, inv);
    var ty := Mul(p.y, inv);
    var bytes := FieldBytes.Contract(ty);
    CongruentIff(Val(p.y) * zi, Val(ty));
    CongruentSame(Val(p.x) * zi, Val(tx), Val(tx));
    IsIff(tx, Val(p.x) * zi);
    var odd := Parity(tx, Val(p.x) * zi);
    r := SetParity(bytes, odd);
  }

  // ---- unpacking ----

  const ONE := Fe(1, 0, 0, 0, 0)

  /** v is a square root of n / m modulo p. */
  ghost predicate Solves(v: int, m: int, n: int) {
    exists vv, q :: Product(vv, v, v) && Product(q, vv, m) && Congruent(q, n)
  }

  lemma SolvesIff(v: int, vv: int, q: int, m: int, n: int)
    requires Product(vv, v, v) && Product(q, vv, m)
    ensures Solves(v, m, n) <==> Congruent(q, n)
  {
    ProductIff(vv, v, v);
    ProductIff(q, vv, m);
    if Solves(v, m, n) {
      var uu, r :| Product(uu, v, v) && Product(r, uu, m) && Congruent(r, n);
      ProductIff(uu, v, v);
      ProductIff(r, uu, m);
    }
  }

  lemma DifferenceZero(q: int, n: int)
    ensures Congruent(q - n, 0) <==> Congruent(q, n)
  {
    if Congruent(q - n, 0) {
      var k := Gap(q - n, 0);
      CongruentBy(q, n, k);
    }
    if Congruent(q, n) {
      var k := Gap(q, n);
      CongruentBy(q - n, 0, k);
    }
  }

  /** If v is a square root of -n / m, v sqrt(-1) is one of n / m. */
  lemma OtherRootFound(v: int, m: int, n: int, s: int)
    requires Solves(v, m, -n) && Product(s, v, ROOT)
    ensures Solves(s, m, n)
  {
    var vv, q :| Product(vv, v, v) && Product(q, vv, m) && Congruent(q, -n);
    ProductIff(vv, v, v);
    ProductIff(q, vv, m);
    ProductIff(s, v, ROOT);
    RootConstants();
    OtherRoot(v, s, m, n);
    var ss := MakeProduct(s, s);
    var r := MakeProduct(ss, m);
    SolvesIff(s, ss, r, m, n);
  }

  /** The candidate, or the candidate times the square root of -1, if one of them is a root. */
  method TryRoot(root: Fe, num: Fe, den: Fe, ghost c: int, ghost n: int, ghost m: int) returns (ok: bool, x: Fe, ghost v: int)
    requires Below(root, T) && Is(root, c) && Below(num, T) && Loose(den) && Is(num, n) && Is(den, m)
    ensures Below(x, T) && Is(x, v)
    ensures ok <==> Solves(c, m, n) || Solves(c, m, -n)
    ensures ok ==> Solves(v, m, n)
  {
    x, v := root, c;
    var t, vv := SquareOf(x, c);
    ghost var q;
    t, q := MulOf(t, den, vv, m);
    SolvesIff(c, vv, q, m, n);
    SolvesIff(c, vv, q, m, -n);
    var gap := SubReduceOf(t, num, q, n);
    var zero := IsZero(gap, q - n);
    DifferenceZero(q, n);
    if zero {
      return true, x, c;
    }
    t := AddReduceOf(t, num, q, n);
    zero := IsZero(t, q + n);
    DifferenceZero(q, -n);
    if !zero {
      return false, x, c;
    }
    RootConstants();
    x, v := MulOf(x, SQRTNEG1, c, ROOT);
    OtherRootFound(c, m, n, v);
    return true, x, v;
  }

  method FindRoot(num: Fe, den: Fe, ghost n: int, ghost m: int) returns (ok: bool, x: Fe, ghost v: int)
    requires Below(num, T) && Loose(den) && Is(num, n) && Is(den, m)
    ensures Below(x, T) && Is(x, v)
    ensures ok <==> HasRoot(n, m)
    ensures ok ==> Solves(v, m, n)
  {
    var root, c := CandidateRoot(num, den, n, m);
    HasRootIff(n, m, c);
    ok, x, v := TryRoot(root, num, den, c, n, m);
  }

  /** The root whose parity is not the given one, if there are two. */
  method OppositeParity(x: Fe, parity: bool, ghost v: int) returns (r: Fe, ghost w: int)
    requires Below(x, T) && Is(x, v)
    ensures Below(r, T) && Is(r, w) && (w == v || w == -v)
    ensures w % P == 0 || (w % P % 2 == 1) != parity
  {
    r, w := x, v;
    var odd := Parity(x, v);
    if odd == parity {
      r := NegOf(x, v);
      w := -v;
      NegatedParity(v);
    }
  }

  method NegOf(x: Fe, ghost v: int) returns (r: Fe)
    requires Below(x, T) && Is(x, v)
    ensures Below(r, T) && Is(r, -v)
  {
    ghost var k;
    r, k := Neg(x);
    IsIff(x, v);
    NegatedIs(Val(x), Val(r), k, v);
    IsIff(r, -v);
  }

  lemma NegatedIs(x: int, r: int, k: int, v: int)
    requires Congruent(x, v) && -x == r + P * k
    ensures Congruent(r, -v)
  {
    var l := Gap(x, v);
    CongruentBy(r, -v, -k - l);
  }

  lemma NegatedParity(v: int)
    ensures v % P != 0 ==> (-v) % P == P - v % P && ((-v) % P % 2 == 1) != (v % P % 2 == 1)
    ensures v % P == 0 ==> (-v) % P == 0
  {
    QuotRem(-v, P, if v % P == 0 then -(v / P) else -(v / P) - 1, if v % P == 0 then 0 else P - v % P);
  }

  lemma OnCurveWith(x: int, w: int, y: int, yy: int, dyy: int, t: int)
    requires Product(yy, y, y) && Product(dyy, yy, D) && Solves(x, dyy + 1, yy - 1)
    requires (w == x || w == -x) && Product(t, w, y)
    ensures OnCurve(Quad(w, y, 1, t)) && Extended(Quad(w, y, 1, t))
  {
    var xx, q :| Product(xx, x, x) && Product(q, xx, dyy + 1) && Congruent(q, yy - 1);
    ProductIff(xx, x, x);
    ProductIff(q, xx, dyy + 1);
    ProductIff(yy, y, y);
    ProductIff(dyy, yy, D);
    ProductIff(t, w, y);
    assert w * w == xx && dyy == D * yy;
    SolvesCurve(w, y, xx, yy);
  }

  /** The candidate root of n / m is one of it or of its negative, as section 5.1.3 of RFC 8032 asks. */
  ghost predicate HasRoot(n: int, m: int) {
    exists c :: Candidate(c, n, m) && (Solves(c, m, n) || Solves(c, m, -n))
  }

  lemma HasRootIff(n: int, m: int, c: int)
    requires Candidate(c, n, m)
    ensures HasRoot(n, m) <==> Solves(c, m, n) || Solves(c, m, -n)
  {
    if HasRoot(n, m) {
      var b :| Candidate(b, n, m) && (Solves(b, m, n) || Solves(b, m, -n));
      CandidateUnique(b, c, n, m);
    }
  }

  /** There is an x for this y: (y^2 - 1) / (d y^2 + 1) has a root. */
  ghost predicate Decodes(y: int) {
    exists yy, dyy :: Product(yy, y, y) && Product(dyy, yy, D) && HasRoot(yy - 1, dyy + 1)
  }

  lemma DecodesIff(y: int, yy: int, dyy: int)
    requires Product(yy, y, y) && Product(dyy, yy, D)
    ensures Decodes(y) <==> HasRoot(yy - 1, dyy + 1)
  {
    ProductIff(yy, y, y);
    ProductIff(dyy, yy, D);
    if Decodes(y) {
      var zz, dzz :| Product(zz, y, y) && Product(dzz, zz, D) && HasRoot(zz - 1, dzz + 1);
      ProductIff(zz, y, y);
      ProductIff(dzz, zz, D);
    }
  }

  lemma CandidateUnique(v: int, w: int, n: int, m: int)
    requires Candidate(v, n, m) && Candidate(w, n, m)
    ensures v == w
  {
    CandidateValue(v, n, m);
    CandidateValue(w, n, m);
  }

  lemma CandidateValue(v: int, n: int, m: int)
    requires Candidate(v, n, m)
    ensures v == (Pow((((m * m) * m) * ((m * m) * m) * m) * n, (P - 5) / 8) * ((m * m) * m)) * n
  {
    var m2, m3, m6, m7, b, w, a :|
      && Product(m2, m, m) && Product(m3, m2, m) && Product(m6, m3, m3) && Product(m7, m6, m) && Product(b, m7, n)
      && RootPower(w, b) && Product(a, w, m3) && Product(v, a, n);
    ProductIff(m2, m, m);
    ProductIff(m3, m2, m);
    ProductIff(m6, m3, m3);
    ProductIff(m7, m6, m);
    ProductIff(b, m7, n);
    assert Raised(w, b, 0);
    ProductIff(a, w, m3);
    ProductIff(v, a, n);
  }
}
