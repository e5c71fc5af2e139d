/** Field elements as residues: what each operation makes of the numbers its operands stand for modulo p. */
module Residues {
  import opened Field

  // `Looked` says nothing: it only lets a proof choose where the arithmetic behind `Is` comes into sight.
  ghost predicate Looked(x: Fe, v: int, k: int) { true }

  /** An element stands for v modulo p. */
  ghost predicate Is(x: Fe, v: int) {
    forall k: int {:trigger Looked(x, v, k)} :: Looked(x, v, k) ==> Congruent(Val(x), v)
  }

  lemma IsIff(x: Fe, v: int)
    ensures Is(x, v) <==> Congruent(Val(x), v)
  {
    assert Looked(x, v, 0);
  }

  lemma IsSelf(x: Fe, v: int)
    requires Val(x) == v
    ensures Is(x, v)
  {
    CongruentBy(Val(x), v, 0);
    IsIff(x, v);
  }

  /** Limbs below 2^51 + 2^18, as a multiplication leaves them. */
  const T: int := 0x8000000040000

  lemma ProductIs(x: Fe, y: Fe, r: Fe, a: int, b: int)
    requires Is(x, a) && Is(y, b) && Congruent(Val(x) * Val(y), Val(r))
    ensures Is(r, a * b)
  {
    IsIff(x, a);
    IsIff(y, b);
    CongruentMul(Val(x), a, Val(y), b);
    CongruentSame(Val(x) * Val(y), Val(r), a * b);
    IsIff(r, a * b);
  }

  lemma CongruentSum(x: int, y: int, r: int, k: int, a: int, b: int)
    requires Congruent(x, a) && Congruent(y, b) && x + y == r + P * k
    ensures Congruent(r, a + b)
  {
    CongruentAdd(x, a, y, b);
    CongruentBy(x + y, r, k);
    CongruentSame(x + y, r, a + b);
  }

  lemma SumIs(x: Fe, y: Fe, r: Fe, k: int, a: int, b: int)
    requires Is(x, a) && Is(y, b) && Val(x) + Val(y) == Val(r) + P * k
    ensures Is(r, a + b)
  {
    IsIff(x, a);
    IsIff(y, b);
    CongruentSum(Val(x), Val(y), Val(r), k, a, b);
    IsIff(r, a + b);
  }

  lemma CongruentDifference(x: int, y: int, r: int, k: int, a: int, b: int)
    requires Congruent(x, a) && Congruent(y, b) && x - y == r + P * k
    ensures Congruent(r, a - b)
  {
    CongruentAdd(x, a, y, b);
    CongruentBy(x - y, r, k);
    CongruentSame(x - y, r, a - b);
  }

  lemma DifferenceIs(x: Fe, y: Fe, r: Fe, k: int, a: int, b: int)
    requires Is(x, a) && Is(y, b) && Val(x) - Val(y) == Val(r) + P * k
    ensures Is(r, a - b)
  {
    IsIff(x, a);
    IsIff(y, b);
    CongruentDifference(Val(x), Val(y), Val(r), k, a, b);
    IsIff(r, a - b);
  }

  // `Multiplied` says nothing either: products stay names until a proof asks for them.
  ghost predicate Multiplied(v: int, a: int, b: int, k: int) { true }

  ghost predicate Product(v: int, a: int, b: int) {
    forall k: int {:trigger Multiplied(v, a, b, k)} :: Multiplied(v, a, b, k) ==> v == a * b
  }

  lemma ProductIff(v: int, a: int, b: int)
    ensures Product(v, a, b) <==> v == a * b
  {
    assert Multiplied(v, a, b, 0);
  }

  lemma MakeProduct(a: int, b: int) returns (v: int)
    ensures Product(v, a, b) && v == a * b
  {
    v := a * b;
    ProductIff(v, a, b);
  }

  method MulOf(x: Fe, y: Fe, ghost a: int, ghost b: int) returns (r: Fe, ghost v: int)
    requires Loose(x) && Loose(y) && Is(x, a) && Is(y, b)
    ensures Below(r, T) && Is(r, v) && Product(v, a, b)
  {
    r := Mul(x, y);
    ProductIs(x, y, r, a, b);
    v := MakeProduct(a, b);
  }

  method SquareOf(x: Fe, ghost a: int) returns (r: Fe, ghost v: int)
    requires Loose(x) && Is(x, a)
    ensures Below(r, T) && Is(r, v) && Product(v, a, a)
  {
    r := Square(x);
    ProductIs(x, x, r, a, a);
    v := MakeProduct(a, a);
  }

  method AddOf(x: Fe, y: Fe, ghost a: int, ghost b: int, ghost m: int, ghost n: int) returns (r: Fe)
    requires Below(x, m) && Below(y, n) && m <= 0x40000000000000 && n <= 0x40000000000000 && Is(x, a) && Is(y, b)
    ensures Below(r, m + n) && Is(r, a + b)
  {
    r := Add(x, y);
    SumIs(x, y, r, 0, a, b);
  }

  method AddReduceOf(x: Fe, y: Fe, ghost a: int, ghost b: int) returns (r: Fe)
    requires Loose(x) && Loose(y) && Is(x, a) && Is(y, b)
    ensures Below(r, T) && Is(r, a + b)
  {
    ghost var k;
    r, k := AddReduce(x, y);
    SumIs(x, y, r, k, a, b);
  }

  method SubOf(x: Fe, y: Fe, ghost a: int, ghost b: int, ghost m: int) returns (r: Fe)
    requires Below(x, m) && m <= 0x40000000000000 && Below(y, T) && Is(x, a) && Is(y, b)
    ensures Below(r, m + 0x10000000000000) && Is(r, a - b)
  {
    r := Sub(x, y);
    DifferenceIs(x, y, r, -2, a, b);
  }

  method SubAfterBasicOf(x: Fe, y: Fe, ghost a: int, ghost b: int, ghost m: int) returns (r: Fe)
    requires Below(x, m) && m <= 0x40000000000000 && Below(y, 0x1fffffffffffb4) && Is(x, a) && Is(y, b)
    ensures Below(r, m + 0x20000000000000) && Is(r, a - b)
  {
    r := SubAfterBasic(x, y);
    DifferenceIs(x, y, r, -4, a, b);
  }
}
