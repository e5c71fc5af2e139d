/**
 An abstract abelian group, standing for the points of the curve under addition, and
 multiples of its elements.
 */
module Groups {

  datatype Group<!G> = Group(zero: G, add: (G, G) -> G, neg: G -> G)

  // `Law2` and `Law3` say nothing: they only let a proof choose where a law is applied.
  ghost predicate Law2<G>(a: G, b: G) { true }

  ghost predicate Law3<G>(a: G, b: G, c: G) { true }

  ghost predicate Abelian<G(!new)>(g: Group<G>) {
    && (forall a, b {:trigger Law2(a, b)} :: Law2(a, b) ==> g.add(a, b) == g.add(b, a))
    && (forall a, b, c {:trigger Law3(a, b, c)} :: Law3(a, b, c) ==> g.add(g.add(a, b), c) == g.add(a, g.add(b, c)))
    && (forall a :: g.add(a, g.zero) == a)
    && (forall a {:trigger g.neg(a)} :: g.add(a, g.neg(a)) == g.zero)
  }

  lemma Commute<G(!new)>(g: Group<G>, a: G, b: G)
    requires Abelian(g)
    ensures g.add(a, b) == g.add(b, a)
  {
    assert Law2(a, b);
  }

  lemma Associate<G(!new)>(g: Group<G>, a: G, b: G, c: G)
    requires Abelian(g)
    ensures g.add(g.add(a, b), c) == g.add(a, g.add(b, c))
  {
    assert Law3(a, b, c);
  }

  lemma Exchange<G(!new)>(g: Group<G>, a: G, b: G, c: G, d: G)
    requires Abelian(g)
    ensures g.add(g.add(a, b), g.add(c, d)) == g.add(g.add(a, c), g.add(b, d))
  {
    Associate(g, a, b, g.add(c, d));
    Associate(g, b, c, d);
    Commute(g, b, c);
    Associate(g, c, b, d);
    Associate(g, a, c, g.add(b, d));
  }

  /** Cancellation: what is added to a to give zero is its negative. */
  lemma NegUnique<G(!new)>(g: Group<G>, a: G, b: G)
    requires Abelian(g) && g.add(a, b) == g.zero
    ensures b == g.neg(a)
  {
    var n := g.neg(a);
    Commute(g, b, g.zero);
    Commute(g, a, n);
    Associate(g, n, a, b);
    assert g.add(g.add(n, a), b) == g.add(g.zero, b) == b;
  }

  /** The n-th multiple of p, for any integer n. */
  function Times<G>(g: Group<G>, n: int, p: G): G
    decreases if n < 0 then 1 - n else n
  {
    if n == 0 then g.zero
    else if n > 0 then g.add(p, Times(g, n - 1, p))
    else g.neg(Times(g, -n, p))
  }

  lemma {:induction false} TimesAddNat<G(!new)>(g: Group<G>, m: nat, n: nat, p: G)
    requires Abelian(g)
    ensures Times(g, m + n, p) == g.add(Times(g, m, p), Times(g, n, p))
  {
    if m == 0 {
      Commute(g, g.zero, Times(g, n, p));
    } else {
      TimesAddNat(g, m - 1, n, p);
      Associate(g, p, Times(g, m - 1, p), Times(g, n, p));
    }
  }

  lemma TimesNeg<G(!new)>(g: Group<G>, n: int, p: G)
    requires Abelian(g)
    ensures Times(g, -n, p) == g.neg(Times(g, n, p))
  {
    if n == 0 {
      NegUnique(g, g.zero, g.zero);
    } else if n < 0 {
      var a := Times(g, -n, p);
      Commute(g, a, g.neg(a));
      NegUnique(g, g.neg(a), a);
    }
  }

  /** Taking n from m multiples. */
  lemma TimesSub<G(!new)>(g: Group<G>, m: nat, n: nat, p: G)
    requires Abelian(g) && n <= m
    ensures g.add(Times(g, m, p), g.neg(Times(g, n, p))) == Times(g, m - n, p)
  {
    TimesAddNat(g, m - n, n, p);
    var a, b := Times(g, m - n, p), Times(g, n, p);
    Associate(g, a, b, g.neg(b));
  }

  lemma TimesAdd<G(!new)>(g: Group<G>, m: int, n: int, p: G)
    requires Abelian(g)
    ensures Times(g, m + n, p) == g.add(Times(g, m, p), Times(g, n, p))
  {
    if m >= 0 && n >= 0 {
      TimesAddNat(g, m, n, p);
    } else if m < 0 && n < 0 {
      TimesAddNat(g, -m, -n, p);
      NegAdd(g, Times(g, -m, p), Times(g, -n, p));
      TimesNeg(g, -m - n, p);
    } else if m >= 0 {
      AddMixed(g, m, -n, p);
    } else {
      AddMixed(g, n, -m, p);
      Commute(g, Times(g, m, p), Times(g, n, p));
    }
  }

  lemma NegAdd<G(!new)>(g: Group<G>, a: G, b: G)
    requires Abelian(g)
    ensures g.neg(g.add(a, b)) == g.add(g.neg(a), g.neg(b))
  {
    Exchange(g, a, b, g.neg(a), g.neg(b));
    NegUnique(g, g.add(a, b), g.add(g.neg(a), g.neg(b)));
  }

  lemma AddMixed<G(!new)>(g: Group<G>, m: nat, k: nat, p: G)
    requires Abelian(g)
    ensures Times(g, m - k, p) == g.add(Times(g, m, p), Times(g, 0 - k, p))
  {
    TimesNeg(g, k, p);
    if k <= m {
      TimesSub(g, m, k, p);
    } else {
      TimesSub(g, k, m, p);
      TimesNeg(g, k - m, p);
      var a, b := Times(g, k, p), Times(g, m, p);
      NegAdd(g, a, g.neg(b));
      Commute(g, b, g.neg(b));
      NegUnique(g, g.neg(b), b);
      Commute(g, g.neg(a), b);
    }
  }

  lemma {:induction false} TimesOfSum<G(!new)>(g: Group<G>, n: nat, p: G, q: G)
    requires Abelian(g)
    ensures Times(g, n, g.add(p, q)) == g.add(Times(g, n, p), Times(g, n, q))
  {
    if n > 0 {
      TimesOfSum(g, n - 1, p, q);
      Exchange(g, p, q, Times(g, n - 1, p), Times(g, n - 1, q));
    }
  }

  lemma {:induction false} TimesTimes<G(!new)>(g: Group<G>, m: nat, n: int, p: G)
    requires Abelian(g)
    ensures Times(g, m, Times(g, n, p)) == Times(g, m * n, p)
  {
    if m > 0 {
      TimesTimes(g, m - 1, n, p);
      TimesAdd(g, n, (m - 1) * n, p);
      assert n + (m - 1) * n == m * n;
    }
  }

  lemma TimesTwo<G(!new)>(g: Group<G>, n: int, p: G)
    requires Abelian(g)
    ensures g.add(Times(g, n, p), Times(g, n, p)) == Times(g, 2 * n, p)
  {
    TimesAdd(g, n, n, p);
  }
}
