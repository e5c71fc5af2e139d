/** What 2^255 - 19 being prime means for field elements: inverses, and no divisors of zero. */
module FieldLaws {
  import opened Field
  import opened Remainders
  import opened Primes
  import opened PrimeField

  lemma Bridge(a: int, b: int)
    ensures Congruent(a, b) <==> Same(P, a, b)
  {
    CongruentIff(a, b);
  }

  lemma ZeroIff(a: int)
    ensures Congruent(a, 0) <==> a % P == 0
  {
    CongruentIff(a, 0);
  }

  /** z^(p - 2) is the inverse of z. */
  lemma PowerInverts(z: int)
    requires z % P != 0
    ensures Congruent(z * Pow(z, P - 2), 1) && Congruent(Pow(z, P - 1), 1)
  {
    FieldPrime();
    Fermat(P, z);
    Bridge(Pow(z, P - 1), 1);
  }

  lemma NoDivisors(a: int, b: int)
    requires Congruent(a * b, 0)
    ensures Congruent(a, 0) || Congruent(b, 0)
  {
    FieldPrime();
    Bridge(a * b, 0);
    NoZeroDivisors(P, a, b);
    ZeroIff(a);
    ZeroIff(b);
  }

  lemma Inverted(z: int, i: int)
    requires z % P != 0 && Congruent(i, Pow(z, P - 2))
    ensures Congruent(z * i, 1)
  {
    PowerInverts(z);
    CongruentBy(z, z, 0);
    CongruentMul(z, z, i, Pow(z, P - 2));
    CongruentTurn(z * i, z * Pow(z, P - 2));
    CongruentSame(z * Pow(z, P - 2), z * i, 1);
  }
}
