/** Powers of field elements by repeated squaring, up to the inverse and the power square roots are taken with. */
module Inversion {
  import opened Field
  import opened Residues
  import opened Remainders

  lemma {:induction false} PowCongruent(a: int, b: int, n: nat)
    requires Congruent(a, b)
    ensures Congruent(Pow(a, n), Pow(b, n))
  {
    if n == 0 {
      CongruentBy(1, 1, 0);
    } else {
      PowCongruent(a, b, n - 1);
      CongruentMul(a, b, Pow(a, n - 1), Pow(b, n - 1));
    }
  }

  /** r holds x^n, in limbs that may be multiplied. */
  ghost predicate Holds(r: Fe, x: int, n: nat) {
    Loose(r) && Is(r, Pow(x, n))
  }

  lemma HoldsProduct(r: Fe, s: Fe, t: Fe, x: int, m: nat, n: nat)
    requires Holds(r, x, m) && Holds(s, x, n) && Tight(t) && Congruent(Val(r) * Val(s), Val(t))
    ensures Holds(t, x, m + n)
  {
    PowAdd(x, m, n);
    ProductIs(r, s, t, Pow(x, m), Pow(x, n));
  }

  method MulPowers(r: Fe, s: Fe, ghost x: int, ghost m: nat, ghost n: nat) returns (t: Fe)
    requires Holds(r, x, m) && Holds(s, x, n)
    ensures Tight(t) && Holds(t, x, m + n)
  {
    t := Mul(r, s);
    HoldsProduct(r, s, t, x, m, n);
  }

  /** n doubled k times. */
  function Shl(n: nat, k: nat): nat
    decreases k
  {
    if k == 0 then n else Shl(2 * n, k - 1)
  }

  method SquareOnce(z: Fe, ghost x: int, ghost n: nat) returns (r: Fe)
    requires Holds(z, x, n)
    ensures Tight(r) && Holds(r, x, 2 * n)
  {
    r := SquareStep(z);
    HoldsProduct(z, z, r, x, n, n);
  }

  /** `count` squarings give in^(2^count), for every count above zero. */
  method SquareTimes(z: Fe, count: nat, ghost x: int, ghost n: nat) returns (r: Fe)
    requires count > 0 && Holds(z, x, n)
    ensures Tight(r) && Holds(r, x, Shl(n, count))
  {
    r := z;
    var left := count;
    ghost var e := n;
    while left > 0
      invariant 0 <= left <= count && Holds(r, x, e) && Shl(e, left) == Shl(n, count)
      invariant left < count ==> Tight(r)
    {
      r := SquareOnce(r, x, e);
      e, left := 2 * e, left - 1;
    }
  }

  // ----- the addition chains -----

  /** 2^n - 1. */
  function Ones(n: nat): nat {
    if n == 0 then 0 else 2 * Ones(n - 1) + 1
  }

  lemma {:induction false} ShlLinear(n: nat, m: nat, k: nat)
    ensures Shl(n + m, k) == Shl(n, k) + Shl(m, k)
    decreases k
  {
    if k > 0 {
      ShlLinear(2 * n, 2 * m, k - 1);
    }
  }

  lemma {:induction false} ShlTwice(n: nat, k: nat)
    ensures Shl(2 * n, k) == 2 * Shl(n, k)
  {
    ShlLinear(n, n, k);
  }

  /** a ones followed by b ones are a + b ones. */
  lemma {:induction false} OnesJoin(a: nat, b: nat)
    ensures Shl(Ones(a), b) + Ones(b) == Ones(a + b)
  {
    if b > 0 {
      OnesJoin(a, b - 1);
      ShlTwice(Ones(a), b - 1);
    }
  }

  /** a ones from z and b ones from s: b squarings and a multiplication. */
  method JoinOnes(z: Fe, s: Fe, b: nat, ghost x: int, ghost a: nat) returns (r: Fe)
    requires b > 0 && Holds(z, x, Ones(a)) && Holds(s, x, Ones(b))
    ensures Tight(r) && Holds(r, x, Ones(a + b))
  {
    var t0 := SquareTimes(z, b, x, Ones(a));
    OnesJoin(a, b);
    r := MulPowers(t0, s, x, Shl(Ones(a), b), Ones(b));
  }

  /** From z^(2^5 - 1) to z^(2^250 - 1). */
  method PowOnes5To250(z: Fe, ghost x: int) returns (r: Fe)
    requires Holds(z, x, Ones(5))
    ensures Tight(r) && Holds(r, x, Ones(250))
  {
    var b := JoinOnes(z, z, 5, x, 5);
    var c := JoinOnes(b, b, 10, x, 10);
    var t0 := JoinOnes(c, c, 20, x, 20);
    b := JoinOnes(t0, b, 10, x, 40);
    c := JoinOnes(b, b, 50, x, 50);
    t0 := JoinOnes(c, c, 100, x, 100);
    r := JoinOnes(t0, b, 50, x, 200);
  }

  lemma {:induction false} OnesValue()
    ensures Ones(250) == 0x3ffffffffffffffffffffffffffffffffffffffffffffffffffffffffffffff
  {
    assert Ones(10) == 0x3ff;
    assert Ones(20) == 0xfffff by { OnesDouble(10, 10, 0x3ff); }
    assert Ones(40) == 0xffffffffff by { OnesDouble(20, 20, 0xfffff); }
    assert Ones(50) == 0x3ffffffffffff by { OnesDouble(40, 10, 0x3ff); }
    assert Ones(100) == 0xfffffffffffffffffffffffff by { OnesDouble(50, 50, 0x3ffffffffffff); }
    assert Ones(200) == 0xffffffffffffffffffffffffffffffffffffffffffffffffff by { OnesDouble(100, 100, 0xfffffffffffffffffffffffff); }
    OnesDouble(200, 50, 0x3ffffffffffff);
  }

  lemma {:induction false} OnesDouble(a: nat, b: nat, v: nat)
    requires Ones(b) == v
    ensures Ones(a + b) == Ones(a) * (v + 1) + v
  {
    OnesJoin(a, b);
    ShlValue(Ones(a), b);
  }

  lemma {:induction false} ShlValue(n: nat, k: nat)
    ensures Shl(n, k) == n * (Ones(k) + 1)
  {
    if k > 0 {
      ShlTwice(n, k - 1);
      ShlValue(n, k - 1);
      Times2(n, Ones(k - 1) + 1);
    }
  }

  lemma Times2(n: int, p: int)
    ensures 2 * (n * p) == n * (2 * p)
  {
  }

  lemma FirstPower(z: Fe)
    requires Loose(z)
    ensures Holds(z, Val(z), 1)
  {
    assert Pow(Val(z), 1) == Val(z) * Pow(Val(z), 0);
    IsSelf(z, Val(z));
  }

  /** z^(p - 2), the inverse of z. */
  method Recip(z: Fe) returns (r: Fe)
    requires Loose(z)
    ensures Tight(r) && Holds(r, Val(z), P - 2)
  {
    ghost var x := Val(z);
    FirstPower(z);
    var a := SquareTimes(z, 1, x, 1);
    var t0 := SquareTimes(a, 2, x, 2);
    var b := MulPowers(t0, z, x, 8, 1);
    a := MulPowers(b, a, x, 9, 2);
    t0 := SquareTimes(a, 1, x, 11);
    b := MulPowers(t0, b, x, 22, 9);
    b := PowOnes5To250(b, x);
    b := SquareTimes(b, 5, x, Ones(250));
    OnesValue();
    r := MulPowers(b, a, x, Shl(Ones(250), 5), 11);
  }

  /** z^(2^252 - 3), from which square roots are taken. */
  method PowTwo252m3(z: Fe) returns (r: Fe)
    requires Loose(z)
    ensures Tight(r) && Holds(r, Val(z), 0xffffffffffffffffffffffffffffffffffffffffffffffffffffffffffffffd)
  {
    ghost var x := Val(z);
    FirstPower(z);
    var c := SquareTimes(z, 1, x, 1);
    var t0 := SquareTimes(c, 2, x, 2);
    var b := MulPowers(t0, z, x, 8, 1);
    c := MulPowers(b, c, x, 9, 2);
    t0 := SquareTimes(c, 1, x, 11);
    b := MulPowers(t0, b, x, 22, 9);
    b := PowOnes5To250(b, x);
    b := SquareTimes(b, 2, x, Ones(250));
    OnesValue();
    r := MulPowers(b, z, x, Shl(Ones(250), 2), 1);
  }
}
