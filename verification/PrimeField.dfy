/**
 * That 2^255 - 19 is prime, by a chain of certificates: each of five numbers is prime if the next one is. The numbers in the
 * steps are powers of two modulo each of them, three bits of the exponent at a time.
 */
module PrimeField {
  import opened Words
  import opened Remainders
  import opened Primes

  const P255: nat := 0x7fffffffffffffffffffffffffffffffffffffffffffffffffffffffffffffed
  const P236: nat := 0xabaf8c6b094fd0f32c2ccabab864dbecd99144679c1adf804898fb2042b
  const P116: nat := 0xe87c2a477b815a1793787395b23e1
  const P51: nat := 0x6d1cafa129d0b
  const P24: nat := 0x82d4b5

  // `Shown` says nothing: it only lets a proof choose where the power behind `Raised` comes into sight.
  ghost predicate Shown(n: nat, e: nat, x: nat, k: int) { true }

  /** x is 2^e modulo n. */
  ghost predicate Raised(n: nat, e: nat, x: nat) {
    forall k: int {:trigger Shown(n, e, x, k)} :: Shown(n, e, x, k) ==> n > 0 && Pow(2, e) % n == x
  }

  lemma RaisedIff(n: nat, e: nat, x: nat)
    ensures Raised(n, e, x) <==> n > 0 && Pow(2, e) % n == x
  {
    assert Shown(n, e, x, 0);
  }

  lemma Eighth(n: nat, e: nat, x: nat, w: nat, c: nat, y: nat) returns (f: nat)
    requires n > 0 && Raised(n, e, x) && c == Pow(2, w) && x * x * x * x * x * x * x * x * c % n == y
    ensures f == 8 * e + w && Raised(n, f, y)
  {
    f := 8 * e + w;
    RaisedIff(n, e, x);
    RaisedIff(n, f, y);
    var p, z := Pow(2, e), x * x;
    SameBy(n, x, p, -(p / n));
    Doubled(n, e, x, z);
    Doubled(n, 2 * e, z, z * z);
    Doubled(n, 4 * e, z * z, (z * z) * (z * z));
    PowAdd(2, 8 * e, w);
    SameMul(n, (z * z) * (z * z), Pow(2, 8 * e), c, c);
    Together(x, z, c);
  }

  lemma Doubled(n: nat, e: nat, x: int, z: int)
    requires Same(n, x, Pow(2, e)) && z == x * x
    ensures Same(n, z, Pow(2, 2 * e))
  {
    PowTwice(e);
    SameMul(n, x, Pow(2, e), x, Pow(2, e));
  }

  lemma PowTwice(e: nat)
    ensures Pow(2, 2 * e) == Pow(2, e) * Pow(2, e)
  {
    PowAdd(2, e, e);
  }

  lemma Together(x: int, z: int, c: int)
    requires z == x * x
    ensures x * x * x * x * x * x * x * x * c == (z * z) * (z * z) * c
  {
    assert x * x * x * x == z * z;
    assert x * x * x * x * x * x * x * x == (z * z) * (z * z);
  }

  /** The certificate in terms of powers of two. */
  lemma FromPowers(n: nat, q: nat, f: nat, t: nat, w: nat, s: nat, e: nat, m: nat, x: nat, i: int)
    requires IsPrime(q) && q % 2 == 1 && f == 2 * q && n == f * t + 1 && n % 2 == 1 && n > 2 && m == n - 1 && m == e * q
    requires Raised(n, m, 1) && Raised(n, e, x) && (x - 1) * i % n == 1 && t == f * w + s && w + 1 < s < f
    ensures IsPrime(n)
  {
    RaisedIff(n, m, 1);
    QuotRem(1, n, 0, 1);
    FarFromOne(n, e, x, i);
    Certified(n, q, f, t, w, s, e, m, 2, i);
  }

  lemma FarFromOne(n: nat, e: nat, x: nat, i: int)
    requires n > 2 && Raised(n, e, x) && (x - 1) * i % n == 1
    ensures Same(n, (Pow(2, e) - 1) * i, 1)
  {
    RaisedIff(n, e, x);
    var b := Pow(2, e);
    SameBy(n, b - 1, x - 1, b / n);
    SameMul(n, b - 1, x - 1, i, i);
    QuotRem(1, n, 0, 1);
  }

  lemma CubeP255(e: nat, x: nat, w: nat, c: nat, y: nat) returns (f: nat)
    requires Raised(P255, e, x) && c == Pow(2, w)
    requires x * x * x * x * x * x * x * x * c % 0x7fffffffffffffffffffffffffffffffffffffffffffffffffffffffffffffed == y
    ensures f == 8 * e + w && Raised(P255, f, y)
  {
    f := Eighth(P255, e, x, w, c, y);
  }

  lemma CubeP236(e: nat, x: nat, w: nat, c: nat, y: nat) returns (f: nat)
    requires Raised(P236, e, x) && c == Pow(2, w)
    requires x * x * x * x * x * x * x * x * c % 0xabaf8c6b094fd0f32c2ccabab864dbecd99144679c1adf804898fb2042b == y
    ensures f == 8 * e + w && Raised(P236, f, y)
  {
    f := Eighth(P236, e, x, w, c, y);
  }

  lemma CubeP116(e: nat, x: nat, w: nat, c: nat, y: nat) returns (f: nat)
    requires Raised(P116, e, x) && c == Pow(2, w)
    requires x * x * x * x * x * x * x * x * c % 0xe87c2a477b815a1793787395b23e1 == y
    ensures f == 8 * e + w && Raised(P116, f, y)
  {
    f := Eighth(P116, e, x, w, c, y);
  }

  lemma CubeP51(e: nat, x: nat, w: nat, c: nat, y: nat) returns (f: nat)
    requires Raised(P51, e, x) && c == Pow(2, w)
    requires x * x * x * x * x * x * x * x * c % 0x6d1cafa129d0b == y
    ensures f == 8 * e + w && Raised(P51, f, y)
  {
    f := Eighth(P51, e, x, w, c, y);
  }

  lemma CubeP24(e: nat, x: nat, w: nat, c: nat, y: nat) returns (f: nat)
    requires Raised(P24, e, x) && c == Pow(2, w)
    requires x * x * x * x * x * x * x * x * c % 0x82d4b5 == y
    ensures f == 8 * e + w && Raised(P24, f, y)
  {
    f := Eighth(P24, e, x, w, c, y);
  }

  // ---- P255 ----

  lemma P255A1(e: nat) returns (f: nat)
    requires Raised(P255, e, 0x80)
    ensures f == 0x40000000000 * e + 0x3ffffffffff
    ensures Raised(P255, f, 0x45e788cb47435e1b6fc2051646cbe0eb6024b4dc2885f89bed089a226205a5b8)
  {
    f := e;
    f := CubeP255(f, 0x80, 7, 128, 0x8000000000000000);
    f := CubeP255(f, 0x8000000000000000, 7, 128, 0x2d2);
    f := CubeP255(f, 0x2d2, 7, 128, 0x7d176e0b4b0cc7d208000);
    f := CubeP255(f, 0x7d176e0b4b0cc7d208000, 7, 128,
      0x1f0dfe590cd9d85bc54f6df96a681c2f5d07c94c7b4a77dc54a7229c1723133a);
    f := CubeP255(f, 0x1f0dfe590cd9d85bc54f6df96a681c2f5d07c94c7b4a77dc54a7229c1723133a, 7, 128,
      0x5c5b021c025321741192954188216b1154e01f00d9f83522770dd2554e78c18d);
    f := CubeP255(f, 0x5c5b021c025321741192954188216b1154e01f00d9f83522770dd2554e78c18d, 7, 128,
      0x423ff9abcd6e0ac2cf971a6f0233cadea24c49c564bb59aeea815d78b0bdff17);
    f := CubeP255(f, 0x423ff9abcd6e0ac2cf971a6f0233cadea24c49c564bb59aeea815d78b0bdff17, 7, 128,
      0x1fbe3b0fb70b360cdf1e8c696eca5d7fd5baccb35fb8479131e4ab98c2ef2538);
    f := CubeP255(f, 0x1fbe3b0fb70b360cdf1e8c696eca5d7fd5baccb35fb8479131e4ab98c2ef2538, 7, 128,
      0x36accf8464cc55eb112dfe4ce8a197c0a0e7dd3a65cc0db42d86974422d51bcf);
    f := CubeP255(f, 0x36accf8464cc55eb112dfe4ce8a197c0a0e7dd3a65cc0db42d86974422d51bcf, 7, 128,
      0x4599cc19f91ab66ae385744bcbd7468eab1d8bca124390c56de62e1096cb7846);
    f := CubeP255(f, 0x4599cc19f91ab66ae385744bcbd7468eab1d8bca124390c56de62e1096cb7846, 7, 128,
      0x4544a25fe11230f1ac5e2c3229e3cb05acd1b509957074665eb3ae801b4d6511);
    f := CubeP255(f, 0x4544a25fe11230f1ac5e2c3229e3cb05acd1b509957074665eb3ae801b4d6511, 7, 128,
      0x51ca4e3284e1c9964e809cc55b3211c0fc431bc20ee5e321d22353c59b07b6d);
    f := CubeP255(f, 0x51ca4e3284e1c9964e809cc55b3211c0fc431bc20ee5e321d22353c59b07b6d, 7, 128,
      0x28d053961137c98ea810238b76355510820e9c5668a70f4c33c02649f16a065);
    f := CubeP255(f, 0x28d053961137c98ea810238b76355510820e9c5668a70f4c33c02649f16a065, 7, 128,
      0x53e16d58acb9b712cd3fd2a6217e2f4505df411ee8ca807fbc2eee7a24f7f72c);
    f := CubeP255(f, 0x53e16d58acb9b712cd3fd2a6217e2f4505df411ee8ca807fbc2eee7a24f7f72c, 7, 128,
      0x45e788cb47435e1b6fc2051646cbe0eb6024b4dc2885f89bed089a226205a5b8);
  }

  lemma P255A2(e: nat) returns (f: nat)
    requires Raised(P255, e, 0x45e788cb47435e1b6fc2051646cbe0eb6024b4dc2885f89bed089a226205a5b8)
    ensures f == 0x40000000000 * e + 0x3ffffffffff
    ensures Raised(P255, f, 0x445eaa228303d740c1f0c8111aa1a43da17464872ee11c85c8b7263f67cbfcf8)
  {
    f := e;
    f := CubeP255(f, 0x45e788cb47435e1b6fc2051646cbe0eb6024b4dc2885f89bed089a226205a5b8, 7, 128,
      0x7e7fa578f05b7f51a80b82d5df335dba51eb6a9f6dc4258a8bbcc9caaaf8369a);
    f := CubeP255(f, 0x7e7fa578f05b7f51a80b82d5df335dba51eb6a9f6dc4258a8bbcc9caaaf8369a, 7, 128,
      0x639782956b2d03c3b50ee26f49583a17c209caff6f283b5f308dbc8fa243804d);
    f := CubeP255(f, 0x639782956b2d03c3b50ee26f49583a17c209caff6f283b5f308dbc8fa243804d, 7, 128,
      0x1f187ccbd81c70a97ea3db6abe43172065bb4c67dadaec056830a01d0df9edbe);
    f := CubeP255(f, 0x1f187ccbd81c70a97ea3db6abe43172065bb4c67dadaec056830a01d0df9edbe, 7, 128,
      0x714520e2ad0d3064e4648a0fa8e7213495c02233aa2f5ffb84c4edbcdc966f4f);
    f := CubeP255(f, 0x714520e2ad0d3064e4648a0fa8e7213495c02233aa2f5ffb84c4edbcdc966f4f, 7, 128,
      0x322c8f19542013330297c68b0c40609919693fac1dacfb57831868a326baad10);
    f := CubeP255(f, 0x322c8f19542013330297c68b0c40609919693fac1dacfb57831868a326baad10, 7, 128,
      0x419f3b1a98f90c89d23f8327b91b94acb7c20ec1b1840b06daf7e961f6ff7df9);
    f := CubeP255(f, 0x419f3b1a98f90c89d23f8327b91b94acb7c20ec1b1840b06daf7e961f6ff7df9, 7, 128,
      0x66522a754d891bbeca560372d45e6a7f7491d8062a8e9ac7dc3d2017c2c3a6a1);
    f := CubeP255(f, 0x66522a754d891bbeca560372d45e6a7f7491d8062a8e9ac7dc3d2017c2c3a6a1, 7, 128,
      0x7e5441f05138612df3b7215ae4b97eda016c91f96e896a3f2385973c9790383a);
    f := CubeP255(f, 0x7e5441f05138612df3b7215ae4b97eda016c91f96e896a3f2385973c9790383a, 7, 128,
      0x4bbd6f63fb19d327092a0c86654245a62e7b60e51f22f60e3679616e8e08bd40);
    f := CubeP255(f, 0x4bbd6f63fb19d327092a0c86654245a62e7b60e51f22f60e3679616e8e08bd40, 7, 128,
      0x50238158174c551fb0a070b5ae8c248e3ec878e2f75cfb20010e28c37ad2ab1);
    f := CubeP255(f, 0x50238158174c551fb0a070b5ae8c248e3ec878e2f75cfb20010e28c37ad2ab1, 7, 128,
      0x605bf1a17ffedc5a22f3aa4b542bafcee95998eff8cde3bd064f7f8ea935eeae);
    f := CubeP255(f, 0x605bf1a17ffedc5a22f3aa4b542bafcee95998eff8cde3bd064f7f8ea935eeae, 7, 128,
      0x60c27697f559f88c2f8b1f2db010c5cab89e19c30795269440b599e1a9e3b23c);
    f := CubeP255(f, 0x60c27697f559f88c2f8b1f2db010c5cab89e19c30795269440b599e1a9e3b23c, 7, 128,
      0x6c4bf7949a61d793ad122cc1d0b9d1d92b2ceb7e29b99e08235ceb5b56b6fcd8);
    f := CubeP255(f, 0x6c4bf7949a61d793ad122cc1d0b9d1d92b2ceb7e29b99e08235ceb5b56b6fcd8, 7, 128,
      0x445eaa228303d740c1f0c8111aa1a43da17464872ee11c85c8b7263f67cbfcf8);
  }

  lemma P255A3(e: nat) returns (f: nat)
    requires Raised(P255, e, 0x445eaa228303d740c1f0c8111aa1a43da17464872ee11c85c8b7263f67cbfcf8)
    ensures f == 0x40000000000 * e + 0x3ffffffffff
    ensures Raised(P255, f, 0x9420d4302987a6d9df5a9828552135e8b06145acef936fa0ee45505f81b09b0)
  {
    f := e;
    f := CubeP255(f, 0x445eaa228303d740c1f0c8111aa1a43da17464872ee11c85c8b7263f67cbfcf8, 7, 128,
      0x36e4fef770e0ebb0eefbd1400e5cee2392e09986734f273cc909f7cb82868b3a);
    f := CubeP255(f, 0x36e4fef770e0ebb0eefbd1400e5cee2392e09986734f273cc909f7cb82868b3a, 7, 128,
      0x67cad1c7d7c7fd36134bcfa0e615c08130a84be05941d90990d2dbd8d36c49c8);
    f := CubeP255(f, 0x67cad1c7d7c7fd36134bcfa0e615c08130a84be05941d90990d2dbd8d36c49c8, 7, 128,
      0x6f97c8c769da1c291f633cd37e817b567804f88a60217141e7e048779597a578);
    f := CubeP255(f, 0x6f97c8c769da1c291f633cd37e817b567804f88a60217141e7e048779597a578, 7, 128,
      0x4b1497e95da51643fc9724f875c64ed1c77a2a0eb373cdab35e98c303b129df4);
    f := CubeP255(f, 0x4b1497e95da51643fc9724f875c64ed1c77a2a0eb373cdab35e98c303b129df4, 7, 128,
      0x62c079c9d9fc47013ce6740e285d14a86da6c77d2d9f1eacb6e1ea925b54d6a3);
    f := CubeP255(f, 0x62c079c9d9fc47013ce6740e285d14a86da6c77d2d9f1eacb6e1ea925b54d6a3, 7, 128,
      0x1b63eae1c1031c9387ed8d5b1b95dd0c0969e7108572b2e6ab5733340b5ca75f);
    f := CubeP255(f, 0x1b63eae1c1031c9387ed8d5b1b95dd0c0969e7108572b2e6ab5733340b5ca75f, 7, 128,
      0x1338488add0af95c404fa0402113ae43243ec47ceb4d8adbd17772198d644a6e);
    f := CubeP255(f, 0x1338488add0af95c404fa0402113ae43243ec47ceb4d8adbd17772198d644a6e, 7, 128,
      0x4654c072c17c2aadd95251b2543f6eee8ae3c8b5c8758ecddc0a4e682a7108f4);
    f := CubeP255(f, 0x4654c072c17c2aadd95251b2543f6eee8ae3c8b5c8758ecddc0a4e682a7108f4, 7, 128,
      0x418626877ad3f0c2f37fbce1aa31c2f60d8cfed27a577daf6a1dcb317bc8b9b);
    f := CubeP255(f, 0x418626877ad3f0c2f37fbce1aa31c2f60d8cfed27a577daf6a1dcb317bc8b9b, 7, 128,
      0x752379dde0daefd9fbf695281c26f66b233090acbd076280e9605188d008cd8d);
    f := CubeP255(f, 0x752379dde0daefd9fbf695281c26f66b233090acbd076280e9605188d008cd8d, 7, 128,
      0x7bab852e8224e61b30fffd9fcaa90920859d66e68c0f4d18b9683662e7255a3e);
    f := CubeP255(f, 0x7bab852e8224e61b30fffd9fcaa90920859d66e68c0f4d18b9683662e7255a3e, 7, 128,
      0x2e6f1f4a2e8f5b34aa3b7228f09e1766a4808c9410519959b8de91355e1e0aec);
    f := CubeP255(f, 0x2e6f1f4a2e8f5b34aa3b7228f09e1766a4808c9410519959b8de91355e1e0aec, 7, 128,
      0x19112028e6a666ecea034c65f668804ddc0bb26843c958e843d5829c00283cc2);
    f := CubeP255(f, 0x19112028e6a666ecea034c65f668804ddc0bb26843c958e843d5829c00283cc2, 7, 128,
      0x9420d4302987a6d9df5a9828552135e8b06145acef936fa0ee45505f81b09b0);
  }

  lemma P255A4(e: nat) returns (f: nat)
    requires Raised(P255, e, 0x9420d4302987a6d9df5a9828552135e8b06145acef936fa0ee45505f81b09b0)
    ensures f == 0x40000000000 * e + 0x3ffffffffff
    ensures Raised(P255, f, 0x167eb50db4312cbccb615f9f22c396946da5645d8d40065bc39431fb4bb2646c)
  {
    f := e;
    f := CubeP255(f, 0x9420d4302987a6d9df5a9828552135e8b06145acef936fa0ee45505f81b09b0, 7, 128,
      0x6e8b443ee73f81760bba50fb8987a46b178cc0f59a520968b5c355493f08eb1f);
    f := CubeP255(f, 0x6e8b443ee73f81760bba50fb8987a46b178cc0f59a520968b5c355493f08eb1f, 7, 128,
      0x58aba42e4ff91d81c01a58d4f77cd6fd004d7b444491f39399b41b1334e871ec);
    f := CubeP255(f, 0x58aba42e4ff91d81c01a58d4f77cd6fd004d7b444491f39399b41b1334e871ec, 7, 128,
      0x1cfd8f5e73a8137e72a282b6e51bd32d13941502179c6021e60b98daef64acab);
    f := CubeP255(f, 0x1cfd8f5e73a8137e72a282b6e51bd32d13941502179c6021e60b98daef64acab, 7, 128,
      0x140e2289d512d6d81eeb317076f7d13fa3d8b4514a126bfe8fb07a824c91f6f8);
    f := CubeP255(f, 0x140e2289d512d6d81eeb317076f7d13fa3d8b4514a126bfe8fb07a824c91f6f8, 7, 128,
      0x1fd571ebc05fcae1e68fa278f24c5ac839dbf35344df44f90e67d83989dc71f3);
    f := CubeP255(f, 0x1fd571ebc05fcae1e68fa278f24c5ac839dbf35344df44f90e67d83989dc71f3, 7, 128,
      0x65a33817ede08fc19cc044ef64107c7e45d457f2b921dcbe75f3805ba787fe84);
    f := CubeP255(f, 0x65a33817ede08fc19cc044ef64107c7e45d457f2b921dcbe75f3805ba787fe84, 7, 128,
      0x544b387e8b0bf858b63ba7d75d975896c092030aab333193987ff852c9ff0844);
    f := CubeP255(f, 0x544b387e8b0bf858b63ba7d75d975896c092030aab333193987ff852c9ff0844, 7, 128,
      0x7a6631b5f9818a68739c79c8612a2b317d6af2ada13adcf65d975a2d6d2ad627);
    f := CubeP255(f, 0x7a6631b5f9818a68739c79c8612a2b317d6af2ada13adcf65d975a2d6d2ad627, 7, 128,
      0x2f9f4ca0ebdef08e4b2c1b47eb8c3e5d39e8531eeed698cff3777b231ec49036);
    f := CubeP255(f, 0x2f9f4ca0ebdef08e4b2c1b47eb8c3e5d39e8531eeed698cff3777b231ec49036, 7, 128,
      0x3a57b027d1608f19b2d6e16b321802f37b9f3f91f6de950ff8599b550ce841c9);
    f := CubeP255(f, 0x3a57b027d1608f19b2d6e16b321802f37b9f3f91f6de950ff8599b550ce841c9, 7, 128,
      0x7ae707646eb04fc63bbfc4d75c67d8f1e3651e412773190df288fcc6455a98cd);
    f := CubeP255(f, 0x7ae707646eb04fc63bbfc4d75c67d8f1e3651e412773190df288fcc6455a98cd, 7, 128,
      0x3dc2fcec5787389c670713cb5c306627978b8b27aa31a5483214499f37b1b75b);
    f := CubeP255(f, 0x3dc2fcec5787389c670713cb5c306627978b8b27aa31a5483214499f37b1b75b, 7, 128,
      0x5fdd5e93f03a3b9bcbfbbe91d05a9502ca36792712cac57d45781211c8d70173);
    f := CubeP255(f, 0x5fdd5e93f03a3b9bcbfbbe91d05a9502ca36792712cac57d45781211c8d70173, 7, 128,
      0x167eb50db4312cbccb615f9f22c396946da5645d8d40065bc39431fb4bb2646c);
  }

  lemma P255A5(e: nat) returns (f: nat)
    requires Raised(P255, e, 0x167eb50db4312cbccb615f9f22c396946da5645d8d40065bc39431fb4bb2646c)
    ensures f == 0x40000000000 * e + 0x3ffffffffff
    ensures Raised(P255, f, 0x25e75686e9d058b44466fa9da9f7243791a29d901f525e7fa5764f717d9f2bea)
  {
    f := e;
    f := CubeP255(f, 0x167eb50db4312cbccb615f9f22c396946da5645d8d40065bc39431fb4bb2646c, 7, 128,
      0xd68ede480676ed7b444ee1dd54f5f6d8d1b6c95e7a34a2f0a017a8e62257f94);
    f := CubeP255(f, 0xd68ede480676ed7b444ee1dd54f5f6d8d1b6c95e7a34a2f0a017a8e62257f94, 7, 128,
      0x1837a6306707fe8664adcd9044f21bfac2d28b059f26210909f9dd1deaae3ab);
    f := CubeP255(f, 0x1837a6306707fe8664adcd9044f21bfac2d28b059f26210909f9dd1deaae3ab, 7, 128,
      0x7649359da7edf0f22fe305eb2964cf8a5365ec1e312cbca59d451d7c106f36c9);
    f := CubeP255(f, 0x7649359da7edf0f22fe305eb2964cf8a5365ec1e312cbca59d451d7c106f36c9, 7, 128,
      0x1c6b1de7d692a61dd9ea3bb2c7f5afdf0e7f0f2d4121cd69909090ff7691732a);
    f := CubeP255(f, 0x1c6b1de7d692a61dd9ea3bb2c7f5afdf0e7f0f2d4121cd69909090ff7691732a, 7, 128,
      0x5a98250d9544880a23d26a5dd2d5b8d77c3d8b656a12d3833856412238b0ee16);
    f := CubeP255(f, 0x5a98250d9544880a23d26a5dd2d5b8d77c3d8b656a12d3833856412238b0ee16, 7, 128,
      0x359372836d876d8cf11dcad4311505f91463ff7e3760328a11dfdbd491a9f52c);
    f := CubeP255(f, 0x359372836d876d8cf11dcad4311505f91463ff7e3760328a11dfdbd491a9f52c, 7, 128,
      0x46e144311c54583630c130ba66d4651d16e9e0db7a918eb9e7b7144877c64198);
    f := CubeP255(f, 0x46e144311c54583630c130ba66d4651d16e9e0db7a918eb9e7b7144877c64198, 7, 128,
      0x501800f54892d55acce34cad3ea1ecd34ad0d93a146792b88493f0f7877d17a2);
    f := CubeP255(f, 0x501800f54892d55acce34cad3ea1ecd34ad0d93a146792b88493f0f7877d17a2, 7, 128,
      0x5f65072209ef98970ccfaeb6803ac24a4e619c630680c598217b9f523e30b216);
    f := CubeP255(f, 0x5f65072209ef98970ccfaeb6803ac24a4e619c630680c598217b9f523e30b216, 7, 128,
      0x1871c6e332a5196c95e2e5ece5202f0e3e487500e26ea89098ad6bb20815283f);
    f := CubeP255(f, 0x1871c6e332a5196c95e2e5ece5202f0e3e487500e26ea89098ad6bb20815283f, 7, 128,
      0x453244418555930b8eded0a348cc6bd25ea64c7c684ad86e5edf0418647e1483);
    f := CubeP255(f, 0x453244418555930b8eded0a348cc6bd25ea64c7c684ad86e5edf0418647e1483, 7, 128,
      0x5cd15c90e265bbca9f47a190c451de7df4766e3cdbe0477c38edfef94db0585);
    f := CubeP255(f, 0x5cd15c90e265bbca9f47a190c451de7df4766e3cdbe0477c38edfef94db0585, 7, 128,
      0x6170fc5212282bff7bf89961957c7509ef0d26a1182e19b822f296a59008cf3c);
    f := CubeP255(f, 0x6170fc5212282bff7bf89961957c7509ef0d26a1182e19b822f296a59008cf3c, 7, 128,
      0x25e75686e9d058b44466fa9da9f7243791a29d901f525e7fa5764f717d9f2bea);
  }

  lemma P255A6(e: nat) returns (f: nat)
    requires Raised(P255, e, 0x25e75686e9d058b44466fa9da9f7243791a29d901f525e7fa5764f717d9f2bea)
    ensures f == 0x40000000000 * e + 0x3ffffffffec
    ensures Raised(P255, f, 0x1)
  {
    f := e;
    f := CubeP255(f, 0x25e75686e9d058b44466fa9da9f7243791a29d901f525e7fa5764f717d9f2bea, 7, 128,
      0x546248644e74a05bf53648b6a2871cf2cdf3779360705d25ebeae1b79b7b2204);
    f := CubeP255(f, 0x546248644e74a05bf53648b6a2871cf2cdf3779360705d25ebeae1b79b7b2204, 7, 128,
      0x14368d620af9e06ea7258aad2cf532c97a181f3b9e5b997fc24a56ce9d0762ec);
    f := CubeP255(f, 0x14368d620af9e06ea7258aad2cf532c97a181f3b9e5b997fc24a56ce9d0762ec, 7, 128,
      0x7d62b22f10521440e0413f6d168fa3039a2f3b8485961f5ae92b89fac7eca84e);
    f := CubeP255(f, 0x7d62b22f10521440e0413f6d168fa3039a2f3b8485961f5ae92b89fac7eca84e, 7, 128,
      0x747d8bb9c7f2923092d6c754ca769a7efecf88b29093813f9d5db39b09c9d62d);
    f := CubeP255(f, 0x747d8bb9c7f2923092d6c754ca769a7efecf88b29093813f9d5db39b09c9d62d, 7, 128,
      0x69a5f23f1a0449b1a391ccd60f956da930707f3378f6c03c2d3310d05ddf6fe0);
    f := CubeP255(f, 0x69a5f23f1a0449b1a391ccd60f956da930707f3378f6c03c2d3310d05ddf6fe0, 7, 128,
      0x484538b08925867f8331377131cb76ee94aa4bb0b07d610d78b6a5fc9d6ddfec);
    f := CubeP255(f, 0x484538b08925867f8331377131cb76ee94aa4bb0b07d610d78b6a5fc9d6ddfec, 7, 128,
      0x2cc48846f44f9811078ed4f56630857241656016241e99536106b6a1afab0e2a);
    f := CubeP255(f, 0x2cc48846f44f9811078ed4f56630857241656016241e99536106b6a1afab0e2a, 7, 128,
      0x4ae8ab606b45876d92567cbc10aac8f0ff97fa18606940a1d04c884af5795b39);
    f := CubeP255(f, 0x4ae8ab606b45876d92567cbc10aac8f0ff97fa18606940a1d04c884af5795b39, 7, 128,
      0x7894996b30af4bcee3942feaeb7862c7a6d0ddafc3c3bb34cf47498e7e6e415c);
    f := CubeP255(f, 0x7894996b30af4bcee3942feaeb7862c7a6d0ddafc3c3bb34cf47498e7e6e415c, 7, 128,
      0x8779312ab35c954c3471c636fa99f2f0dae1343d935685a3a9c51f67b550086);
    f := CubeP255(f, 0x8779312ab35c954c3471c636fa99f2f0dae1343d935685a3a9c51f67b550086, 7, 128,
      0x224c266e5e62e6688dce3bd1dc0985bd7d6d6ce48bead9727b81ed3b8adc8938);
    f := CubeP255(f, 0x224c266e5e62e6688dce3bd1dc0985bd7d6d6ce48bead9727b81ed3b8adc8938, 7, 128,
      0x394910df33187c3135f8ed9c8e2f9ca4b5e34655773473ddfc2d95fe064d642d);
    f := CubeP255(f, 0x394910df33187c3135f8ed9c8e2f9ca4b5e34655773473ddfc2d95fe064d642d, 5, 32,
      0x55c1924027e0ef8595a6804c9efdebd397a18c035697f23c62770d93a507504f);
    f := CubeP255(f, 0x55c1924027e0ef8595a6804c9efdebd397a18c035697f23c62770d93a507504f, 4, 16, 0x1);
  }

  lemma P255B1(e: nat) returns (f: nat)
    requires Raised(P255, e, 0x4)
    ensures f == 0x40000 * e + 0x3edc4
    ensures Raised(P255, f, 0xf1ba0c491eeef83c49fc1b744331bb096d4893142c187431f7b03e61a75a49)
  {
    f := e;
    f := CubeP255(f, 0x4, 7, 128, 0x800000);
    f := CubeP255(f, 0x800000, 6, 64, 0x400000000000000000000000000000000000000000000000);
    f := CubeP255(f, 0x400000000000000000000000000000000000000000000000, 6, 64,
      0x18000000000000000000000000000000000000000000000000000000002cddcc);
    f := CubeP255(f, 0x18000000000000000000000000000000000000000000000000000000002cddcc, 7, 128,
      0x162216c0000000000007778a91c0dd372b6facff37ea5ac6606bd318fa0e0f79);
    f := CubeP255(f, 0x162216c0000000000007778a91c0dd372b6facff37ea5ac6606bd318fa0e0f79, 0, 1,
      0x4029dd07f147e9f9cf214b626c20bb9c254fc9c7d0b5bdf5cd1e706290bb9f73);
    f := CubeP255(f, 0x4029dd07f147e9f9cf214b626c20bb9c254fc9c7d0b5bdf5cd1e706290bb9f73, 4, 16,
      0xf1ba0c491eeef83c49fc1b744331bb096d4893142c187431f7b03e61a75a49);
  }

  lemma PowersP255() returns (m: nat, e: nat)
    ensures m == P255 - 1 && Raised(P255, m, 1) && e == 0xbedc4
    ensures Raised(P255, e, 0xf1ba0c491eeef83c49fc1b744331bb096d4893142c187431f7b03e61a75a49)
  {
    var g: nat := 7;
    assert Pow(2, 7) == 128;
    QuotRem(128, P255, 0, 128);
    RaisedIff(P255, g, 128);
    g := P255A1(g);
    g := P255A2(g);
    g := P255A3(g);
    g := P255A4(g);
    g := P255A5(g);
    g := P255A6(g);
    var h: nat := 2;
    assert Pow(2, 2) == 4;
    QuotRem(4, P255, 0, 4);
    RaisedIff(P255, h, 4);
    h := P255B1(h);
    m, e := g, h;
  }

  lemma P255Prime()
    requires IsPrime(0xabaf8c6b094fd0f32c2ccabab864dbecd99144679c1adf804898fb2042b)
    ensures IsPrime(0x7fffffffffffffffffffffffffffffffffffffffffffffffffffffffffffffed)
  {
    var m, e := PowersP255();
    FromPowers(0x7fffffffffffffffffffffffffffffffffffffffffffffffffffffffffffffed,
      0xabaf8c6b094fd0f32c2ccabab864dbecd99144679c1adf804898fb2042b,
      0x1575f18d6129fa1e65859957570c9b7d9b32288cf3835bf009131f640856, 0x5f6e2,
      0x0, 0x5f6e2, e, m,
      0xf1ba0c491eeef83c49fc1b744331bb096d4893142c187431f7b03e61a75a49,
      0x7acaff384090e983b641a51e1df0807078e467d06ab8164555f0f7fd51653bdc);
  }

  // ---- P236 ----

  lemma P236A1(e: nat) returns (f: nat)
    requires Raised(P236, e, 0x4)
    ensures f == 0x40000000000 * e + 0x2baf8c6b094
    ensures Raised(P236, f, 0x59d2010b98253ff30e16b758406df2547c3b31833f0e58bc0289e40fc43)
  {
    f := e;
    f := CubeP236(f, 0x4, 5, 32, 0x200000);
    f := CubeP236(f, 0x200000, 3, 8, 0x8000000000000000000000000000000000000000000);
    f := CubeP236(f, 0x8000000000000000000000000000000000000000000, 5, 32, 0xc35000000000000000000000000000);
    f := CubeP236(f, 0xc35000000000000000000000000000, 3, 8, 0xe596b7b0c643c7196d9ccd05d000000000000000000000000000);
    f := CubeP236(f, 0xe596b7b0c643c7196d9ccd05d000000000000000000000000000, 7, 128,
      0x45e7b1d1c65815148d1329871a37ba52c58832c0841d1a77c722b0c04c9);
    f := CubeP236(f, 0x45e7b1d1c65815148d1329871a37ba52c58832c0841d1a77c722b0c04c9, 0, 1,
      0x2cea123fa84e08972d63324bdcd04e2b49063d096ae927b3c5f848a77f);
    f := CubeP236(f, 0x2cea123fa84e08972d63324bdcd04e2b49063d096ae927b3c5f848a77f, 6, 64,
      0x508ce4397aa7307baa1764b3d522744bab57ca451eb7addb2a3a91ce76b);
    f := CubeP236(f, 0x508ce4397aa7307baa1764b3d522744bab57ca451eb7addb2a3a91ce76b, 1, 2,
      0x7364ddffbe191843b417caad54afb9ffad881980f1274f5b1d00b16fb5d);
    f := CubeP236(f, 0x7364ddffbe191843b417caad54afb9ffad881980f1274f5b1d00b16fb5d, 5, 32,
      0x388bad7b80788fa7f1827fdf4ff72b08f13f6ade7ab779f49875f4208ec);
    f := CubeP236(f, 0x388bad7b80788fa7f1827fdf4ff72b08f13f6ade7ab779f49875f4208ec, 3, 8,
      0x351a835a72217d5d8918847150669ba0de73657bc4d74b3ec295faa999d);
    f := CubeP236(f, 0x351a835a72217d5d8918847150669ba0de73657bc4d74b3ec295faa999d, 0, 1,
      0x8b69a59a6216b65bb4084ff413294e5c5dadca4a2cf5ade8aa2a94c9f76);
    f := CubeP236(f, 0x8b69a59a6216b65bb4084ff413294e5c5dadca4a2cf5ade8aa2a94c9f76, 2, 4,
      0x8deff6c509e8a8ef119cdf52dffe6aa53afee8e45bb13ec16503be289b9);
    f := CubeP236(f, 0x8deff6c509e8a8ef119cdf52dffe6aa53afee8e45bb13ec16503be289b9, 2, 4,
      0x15d5f05704147b91eff992fa1eaf591d3c928d719751276a7fa25358d8);
    f := CubeP236(f, 0x15d5f05704147b91eff992fa1eaf591d3c928d719751276a7fa25358d8, 4, 16,
      0x59d2010b98253ff30e16b758406df2547c3b31833f0e58bc0289e40fc43);
  }

  lemma P236A2(e: nat) returns (f: nat)
    requires Raised(P236, e, 0x59d2010b98253ff30e16b758406df2547c3b31833f0e58bc0289e40fc43)
    ensures f == 0x40000000000 * e + 0x3f43ccb0b32
    ensures Raised(P236, f, 0xa373eaa57498a41eabc9d11ae195bfc544cc515147b2da3a562ef6eb18)
  {
    f := e;
    f := CubeP236(f, 0x59d2010b98253ff30e16b758406df2547c3b31833f0e58bc0289e40fc43, 7, 128,
      0x24e1238996e8c9d3e1d5e8784d71c884c8a5768b0d723b2ac72eeeac6a5);
    f := CubeP236(f, 0x24e1238996e8c9d3e1d5e8784d71c884c8a5768b0d723b2ac72eeeac6a5, 7, 128,
      0x815d6e90edd477c8d7b3694f92f98fecb37b5826b76e50268e90dec14a2);
    f := CubeP236(f, 0x815d6e90edd477c8d7b3694f92f98fecb37b5826b76e50268e90dec14a2, 2, 4,
      0x84a17fca5f31610c12469f84e24774c1122a4c7d80d2c9dd26f7fc5b2b1);
    f := CubeP236(f, 0x84a17fca5f31610c12469f84e24774c1122a4c7d80d2c9dd26f7fc5b2b1, 0, 1,
      0xa0513e080d8cfc7ecc515dd9374f9694476a2d5508ffda0def104f5f513);
    f := CubeP236(f, 0xa0513e080d8cfc7ecc515dd9374f9694476a2d5508ffda0def104f5f513, 7, 128,
      0xa1f29dfecec89c3b0b325f5e27c75458125724dde336ccc6e3f739dc849);
    f := CubeP236(f, 0xa1f29dfecec89c3b0b325f5e27c75458125724dde336ccc6e3f739dc849, 4, 16,
      0x96a0a689ba1b3515efcdba8ef14678eb71730d0b7c2753af55fe82fe7cb);
    f := CubeP236(f, 0x96a0a689ba1b3515efcdba8ef14678eb71730d0b7c2753af55fe82fe7cb, 6, 64,
      0xbfbaa13767fb0081b5b93aba493eb5dfaf859b09a52d9d19197c96b3c9);
    f := CubeP236(f, 0xbfbaa13767fb0081b5b93aba493eb5dfaf859b09a52d9d19197c96b3c9, 2, 4,
      0x22686b0570abdfef3c103bb09b77936bbb48c1dd46f4a1853a6ff5d1353);
    f := CubeP236(f, 0x22686b0570abdfef3c103bb09b77936bbb48c1dd46f4a1853a6ff5d1353, 6, 64,
      0x1aad211343e17d2e31cbbf7005ae3fb46a3f38fa1324b5d9daaa68a9187);
    f := CubeP236(f, 0x1aad211343e17d2e31cbbf7005ae3fb46a3f38fa1324b5d9daaa68a9187, 0, 1,
      0x2d9e504f0d5475a17d51d2b47f9f677c8b0317ae91e2550d66768447cef);
    f := CubeP236(f, 0x2d9e504f0d5475a17d51d2b47f9f677c8b0317ae91e2550d66768447cef, 5, 32,
      0x608bff972ed1fba68697e446415a37695052f41af4796b115a1566b8776);
    f := CubeP236(f, 0x608bff972ed1fba68697e446415a37695052f41af4796b115a1566b8776, 4, 16,
      0x628965681793a804c586568911b3b9c867ac376d4168aa8a74c6e34b44e);
    f := CubeP236(f, 0x628965681793a804c586568911b3b9c867ac376d4168aa8a74c6e34b44e, 6, 64,
      0x8ba2d0e2550eb6ad0c636875f4c7d348a9b48bd5fa894e77c4e86a458e0);
    f := CubeP236(f, 0x8ba2d0e2550eb6ad0c636875f4c7d348a9b48bd5fa894e77c4e86a458e0, 2, 4,
      0xa373eaa57498a41eabc9d11ae195bfc544cc515147b2da3a562ef6eb18);
  }

  lemma P236A3(e: nat) returns (f: nat)
    requires Raised(P236, e, 0xa373eaa57498a41eabc9d11ae195bfc544cc515147b2da3a562ef6eb18)
    ensures f == 0x40000000000 * e + 0x2bab864dbec
    ensures Raised(P236, f, 0x99a025d1a4b6c3ee39e8efb735145b644f980163dcb26d220a080f9bba0)
  {
    f := e;
    f := CubeP236(f, 0xa373eaa57498a41eabc9d11ae195bfc544cc515147b2da3a562ef6eb18, 5, 32,
      0x3e84112d201a2f1074a8132f050c49bd815a22e112457c3fa3bf65d9bb);
    f := CubeP236(f, 0x3e84112d201a2f1074a8132f050c49bd815a22e112457c3fa3bf65d9bb, 3, 8,
      0x9bc29e51e651aef1a4b6816369454cc635950936ac18b7edf7a2bd2a3d7);
    f := CubeP236(f, 0x9bc29e51e651aef1a4b6816369454cc635950936ac18b7edf7a2bd2a3d7, 5, 32,
      0x6484b504db1e393224c2bf2b22c9dcd58192ac47409f6a149f5d2455f97);
    f := CubeP236(f, 0x6484b504db1e393224c2bf2b22c9dcd58192ac47409f6a149f5d2455f97, 2, 4,
      0x6044e375f99998de29ec9b8b0faa15401ad9147e5b23470cdb093570aee);
    f := CubeP236(f, 0x6044e375f99998de29ec9b8b0faa15401ad9147e5b23470cdb093570aee, 7, 128,
      0x503b0536170ea403f19a2fe2838119d2dad4256d1ad42a3a2038b28197d);
    f := CubeP236(f, 0x503b0536170ea403f19a2fe2838119d2dad4256d1ad42a3a2038b28197d, 0, 1,
      0x89f496bcbf60ba7a275febd4bcc076ca8e4ac27cc543c5d071151cec8c);
    f := CubeP236(f, 0x89f496bcbf60ba7a275febd4bcc076ca8e4ac27cc543c5d071151cec8c, 3, 8,
      0x7d11bf1bbc89a0c7ea6668c2cb80ddf37e43388ffe3a4a6cc076099bbbb);
    f := CubeP236(f, 0x7d11bf1bbc89a0c7ea6668c2cb80ddf37e43388ffe3a4a6cc076099bbbb, 1, 2,
      0x9391cd4ad04d2a0d979fc3e4c3d5b7c5b794b2935f24863cc8fd5a1318e);
    f := CubeP236(f, 0x9391cd4ad04d2a0d979fc3e4c3d5b7c5b794b2935f24863cc8fd5a1318e, 1, 2,
      0x1a368c825321e78d72fcff245b20744b3fa18f4ee18b6bc35882b274742);
    f := CubeP236(f, 0x1a368c825321e78d72fcff245b20744b3fa18f4ee18b6bc35882b274742, 5, 32,
      0x1d1b9b0e1361200cedd51490da1190117ea2918e1770f42eebd188bafa4);
    f := CubeP236(f, 0x1d1b9b0e1361200cedd51490da1190117ea2918e1770f42eebd188bafa4, 5, 32,
      0x441c5db320aa3124ad07b763bb031a80760e860016b7d948c1f511148c0);
    f := CubeP236(f, 0x441c5db320aa3124ad07b763bb031a80760e860016b7d948c1f511148c0, 7, 128,
      0x8d8d913341d083ba2d748ab6b79b3b2a45dbafb3b67800f1efa1b742310);
    f := CubeP236(f, 0x8d8d913341d083ba2d748ab6b79b3b2a45dbafb3b67800f1efa1b742310, 5, 32,
      0x8ce1e4d873880b3d2c9d2c6a2f86574bcd9a5d31a95f432c45280b9231f);
    f := CubeP236(f, 0x8ce1e4d873880b3d2c9d2c6a2f86574bcd9a5d31a95f432c45280b9231f, 4, 16,
      0x99a025d1a4b6c3ee39e8efb735145b644f980163dcb26d220a080f9bba0);
  }

  lemma P236A4(e: nat) returns (f: nat)
    requires Raised(P236, e, 0x99a025d1a4b6c3ee39e8efb735145b644f980163dcb26d220a080f9bba0)
    ensures f == 0x40000000000 * e + 0x36645119e70
    ensures Raised(P236, f, 0x86f74f5ec5ff134be9d6cabfc5bb6425c6403b050394f7188bf8c42ec18)
  {
    f := e;
    f := CubeP236(f, 0x99a025d1a4b6c3ee39e8efb735145b644f980163dcb26d220a080f9bba0, 6, 64,
      0x9b8e1faa8f4d2a3b3c811fe2eca1df2b01545ede8fcc447bd591c0a4381);
    f := CubeP236(f, 0x9b8e1faa8f4d2a3b3c811fe2eca1df2b01545ede8fcc447bd591c0a4381, 6, 64,
      0x8b90798ac83d35b7e795cc9e2e335e5a1dd5ce7056600fff64fa49cb90a);
    f := CubeP236(f, 0x8b90798ac83d35b7e795cc9e2e335e5a1dd5ce7056600fff64fa49cb90a, 3, 8,
      0x4273d0ebaefa8720d2d7c7d6b6899794da6e10c6a81937e905ec339383d);
    f := CubeP236(f, 0x4273d0ebaefa8720d2d7c7d6b6899794da6e10c6a81937e905ec339383d, 1, 2,
      0x9aeed6af3cd6962eb1fed0a2eed74f50cf13b3a6a2c3d04fe5893695710);
    f := CubeP236(f, 0x9aeed6af3cd6962eb1fed0a2eed74f50cf13b3a6a2c3d04fe5893695710, 0, 1,
      0x3c8cd56006011cfd1035980fc80ae0a4b74bb174961995ad3e10f763d6);
    f := CubeP236(f, 0x3c8cd56006011cfd1035980fc80ae0a4b74bb174961995ad3e10f763d6, 5, 32,
      0x1c10b10f0d770e2b4f134450d70d90b11a7eda2f2bd99c2897b1825b943);
    f := CubeP236(f, 0x1c10b10f0d770e2b4f134450d70d90b11a7eda2f2bd99c2897b1825b943, 0, 1,
      0x471a55380352b7d4ab5908e4d11f475893e8af76573f689524dc051958d);
    f := CubeP236(f, 0x471a55380352b7d4ab5908e4d11f475893e8af76573f689524dc051958d, 4, 16,
      0x8691a864666d02d29e6e8f858711919bf3ea1f7df0bc23e87518f90e96f);
    f := CubeP236(f, 0x8691a864666d02d29e6e8f858711919bf3ea1f7df0bc23e87518f90e96f, 3, 8,
      0x1f3e1a401dcaa789fa9ffa9731a7b52be552721991fa39bb06eb42c69b2);
    f := CubeP236(f, 0x1f3e1a401dcaa789fa9ffa9731a7b52be552721991fa39bb06eb42c69b2, 1, 2,
      0x5c3eaad9e0a57b95ad21afdbfd7722ede32fb5911db11f86dd664e13806);
    f := CubeP236(f, 0x5c3eaad9e0a57b95ad21afdbfd7722ede32fb5911db11f86dd664e13806, 7, 128,
      0x1fc51e1408b68ce57e65871dc520f80b2ebc6a0a3367821ef7717bb44fd);
    f := CubeP236(f, 0x1fc51e1408b68ce57e65871dc520f80b2ebc6a0a3367821ef7717bb44fd, 1, 2,
      0xaa738e91cf630c4b2d4d9a87f107c67600d65c9394c40a69c0a8bfbbd71);
    f := CubeP236(f, 0xaa738e91cf630c4b2d4d9a87f107c67600d65c9394c40a69c0a8bfbbd71, 6, 64,
      0xcc1f9b53e45db4b70fec6a420954e2fd402b15d17403687e46c431ebd8);
    f := CubeP236(f, 0xcc1f9b53e45db4b70fec6a420954e2fd402b15d17403687e46c431ebd8, 0, 1,
      0x86f74f5ec5ff134be9d6cabfc5bb6425c6403b050394f7188bf8c42ec18);
  }

  lemma P236A5(e: nat) returns (f: nat)
    requires Raised(P236, e, 0x86f74f5ec5ff134be9d6cabfc5bb6425c6403b050394f7188bf8c42ec18)
    ensures f == 0x40000000000 * e + 0x1adf804898f
    ensures Raised(P236, f, 0x1deade668010cea7c1eb364359e0c882bc6b9952c91e515a1a55e8655fc)
  {
    f := e;
    f := CubeP236(f, 0x86f74f5ec5ff134be9d6cabfc5bb6425c6403b050394f7188bf8c42ec18, 3, 8,
      0x63bc4d9cb52a9754c238d398887acfccdca49ad9407f22d9885f5ba22b3);
    f := CubeP236(f, 0x63bc4d9cb52a9754c238d398887acfccdca49ad9407f22d9885f5ba22b3, 2, 4,
      0xa81cc8bb256fba5be9172c780f8f2ca8330a1cd3a1145636c53d52e39f);
    f := CubeP236(f, 0xa81cc8bb256fba5be9172c780f8f2ca8330a1cd3a1145636c53d52e39f, 6, 64,
      0xd3fea593a8a4330bafa2fd52500a06163c4c539ef1b4e070cd2d894c9e);
    f := CubeP236(f, 0xd3fea593a8a4330bafa2fd52500a06163c4c539ef1b4e070cd2d894c9e, 7, 128,
      0xa42e922f1c687226936f25e8a29429758a5642876521ef4aef8706f2d2c);
    f := CubeP236(f, 0xa42e922f1c687226936f25e8a29429758a5642876521ef4aef8706f2d2c, 7, 128,
      0x78fbc453fb927ed96996bb10871911d89ac42e75ab731532a965c7ec18b);
    f := CubeP236(f, 0x78fbc453fb927ed96996bb10871911d89ac42e75ab731532a965c7ec18b, 0, 1,
      0x19945ee73120db1556bc5ac04bbf87503fbd63f3fafedc8fdc5bff65b07);
    f := CubeP236(f, 0x19945ee73120db1556bc5ac04bbf87503fbd63f3fafedc8fdc5bff65b07, 0, 1,
      0x4ce8eb0d3d71c01c95bf85fb2710416e7a3ac35ae923069261a834f093e);
    f := CubeP236(f, 0x4ce8eb0d3d71c01c95bf85fb2710416e7a3ac35ae923069261a834f093e, 1, 2,
      0x40e44cbfb2f3391b38edbd3db97d755d0e88fcc48d3a3eabe7807d97d0c);
    f := CubeP236(f, 0x40e44cbfb2f3391b38edbd3db97d755d0e88fcc48d3a3eabe7807d97d0c, 1, 2,
      0x53ba7099bc2e66a1ce27e4a6854adacc9d287a1d4d2ee62b574cd5cfe1f);
    f := CubeP236(f, 0x53ba7099bc2e66a1ce27e4a6854adacc9d287a1d4d2ee62b574cd5cfe1f, 0, 1,
      0x490b0add75eb793e615e0705b853be2bcadbd7322782afe941dee347afd);
    f := CubeP236(f, 0x490b0add75eb793e615e0705b853be2bcadbd7322782afe941dee347afd, 4, 16,
      0x821cc2d529810973290e4224cbbb9b02d52d7adaffbbc63c42cb1199387);
    f := CubeP236(f, 0x821cc2d529810973290e4224cbbb9b02d52d7adaffbbc63c42cb1199387, 6, 64,
      0x3b873110bc35608c993b6dd1eba01e4f93a15b0f4ab8c6d062e875ce828);
    f := CubeP236(f, 0x3b873110bc35608c993b6dd1eba01e4f93a15b0f4ab8c6d062e875ce828, 1, 2,
      0x7c453f3ccabe719a50e09edc717cbba1cb611a84218b682628dc5f506dc);
    f := CubeP236(f, 0x7c453f3ccabe719a50e09edc717cbba1cb611a84218b682628dc5f506dc, 7, 128,
      0x1deade668010cea7c1eb364359e0c882bc6b9952c91e515a1a55e8655fc);
  }

  lemma P236A6(e: nat) returns (f: nat)
    requires Raised(P236, e, 0x1deade668010cea7c1eb364359e0c882bc6b9952c91e515a1a55e8655fc)
    ensures f == 0x1000000 * e + 0xb2042a
    ensures Raised(P236, f, 0x1)
  {
    f := e;
    f := CubeP236(f, 0x1deade668010cea7c1eb364359e0c882bc6b9952c91e515a1a55e8655fc, 5, 32,
      0x662008d407fc190fac36df9922cebbd7e5506e660b2650d3c4a9a6a7347);
    f := CubeP236(f, 0x662008d407fc190fac36df9922cebbd7e5506e660b2650d3c4a9a6a7347, 4, 16,
      0xde6fda29aa0bdf7f2021f62efa73fca6596b95fc6fe1768899d3dd4e3f);
    f := CubeP236(f, 0xde6fda29aa0bdf7f2021f62efa73fca6596b95fc6fe1768899d3dd4e3f, 4, 16,
      0x8c82af896c1078c55fdce3530caa6c502422674ae0a079d559144b16485);
    f := CubeP236(f, 0x8c82af896c1078c55fdce3530caa6c502422674ae0a079d559144b16485, 0, 1,
      0x67574d5dc68a22aa0c1f64bf4b37f7def432b77f7d1716d10ce10f6a6c);
    f := CubeP236(f, 0x67574d5dc68a22aa0c1f64bf4b37f7def432b77f7d1716d10ce10f6a6c, 2, 4,
      0x20a9c6c31efa6fb6dabe64eb96778707117de2d20322bc194147ecd368b);
    f := CubeP236(f, 0x20a9c6c31efa6fb6dabe64eb96778707117de2d20322bc194147ecd368b, 0, 1,
      0x18426765754e8160a7f4160b5a6c62533f223ddd1218d545f844f01033d);
    f := CubeP236(f, 0x18426765754e8160a7f4160b5a6c62533f223ddd1218d545f844f01033d, 5, 32,
      0xed815c020d553714f605f25872e3dfd36ddaeca685f28e953a2c887acb);
    f := CubeP236(f, 0xed815c020d553714f605f25872e3dfd36ddaeca685f28e953a2c887acb, 2, 4, 0x1);
  }

  lemma P236B1(e: nat) returns (f: nat)
    requires Raised(P236, e, 0x20)
    ensures f == 0x40000000000 * e + 0x3a1a299ef1c
    ensures Raised(P236, f, 0x480d7ea8eadcb7e4ebb35b1a0cdcd043f5e4cd4d2058172d0c27567b647)
  {
    f := e;
    f := CubeP236(f, 0x20, 7, 128, 0x800000000000);
    f := CubeP236(f, 0x800000000000, 2, 4, 0xa0000000000000000000000000000000);
    f := CubeP236(f, 0xa0000000000000000000000000000000, 0, 1,
      0x9c2295e31767e636259c7c1deed13941559c6c0579a73061da059fefd3f);
    f := CubeP236(f, 0x9c2295e31767e636259c7c1deed13941559c6c0579a73061da059fefd3f, 6, 64,
      0x73f48ef786a0c82a5410bcef192dd17d7b44506e30444a6ddbcce12d10f);
    f := CubeP236(f, 0x73f48ef786a0c82a5410bcef192dd17d7b44506e30444a6ddbcce12d10f, 4, 16,
      0x47ed91f9e30696c95f893badb61bd79ac630564c46ebfac55ad80409024);
    f := CubeP236(f, 0x47ed91f9e30696c95f893badb61bd79ac630564c46ebfac55ad80409024, 2, 4,
      0x638b4d80ea1282170594444c4b6af20e30bf7b3a8df7c13642d404176fd);
    f := CubeP236(f, 0x638b4d80ea1282170594444c4b6af20e30bf7b3a8df7c13642d404176fd, 4, 16,
      0x3d5c1fd1357668adbc8cd1a8afdacb0f87fa1ee62680b76b3d822405076);
    f := CubeP236(f, 0x3d5c1fd1357668adbc8cd1a8afdacb0f87fa1ee62680b76b3d822405076, 6, 64,
      0x6d8f8fb5ce21b8c0c7b3a311406adb88cc8672e9fe2eed169f1b4b55a2c);
    f := CubeP236(f, 0x6d8f8fb5ce21b8c0c7b3a311406adb88cc8672e9fe2eed169f1b4b55a2c, 3, 8,
      0x4c93bfc17e5eed011591d724972c15ad4f0c7db6a31c19d543fec4f6338);
    f := CubeP236(f, 0x4c93bfc17e5eed011591d724972c15ad4f0c7db6a31c19d543fec4f6338, 6, 64,
      0x16e3f379ad5b751a496ff90b3142c1fe077abff8bac422ba9f1603668b0);
    f := CubeP236(f, 0x16e3f379ad5b751a496ff90b3142c1fe077abff8bac422ba9f1603668b0, 7, 128,
      0x405bb5b8ca0216da0c6f86ed1333a8bd775fed021a663d4e2b36235719b);
    f := CubeP236(f, 0x405bb5b8ca0216da0c6f86ed1333a8bd775fed021a663d4e2b36235719b, 4, 16,
      0x76494f0a3a3c97814203225ec564b209a6f5546814a0c75daf65d46ffb0);
    f := CubeP236(f, 0x76494f0a3a3c97814203225ec564b209a6f5546814a0c75daf65d46ffb0, 3, 8,
      0xab899e114625eeca247394185b8b10ed04cd483d38b90796a45e4ce6867);
    f := CubeP236(f, 0xab899e114625eeca247394185b8b10ed04cd483d38b90796a45e4ce6867, 4, 16,
      0x480d7ea8eadcb7e4ebb35b1a0cdcd043f5e4cd4d2058172d0c27567b647);
  }

  lemma P236B2(e: nat) returns (f: nat)
    requires Raised(P236, e, 0x480d7ea8eadcb7e4ebb35b1a0cdcd043f5e4cd4d2058172d0c27567b647)
    ensures f == 0x40000000000 * e + 0x3a90d1948c4
    ensures Raised(P236, f, 0x5e53a20049dc2fd1357d92bfa28d053694fa00741bc1e52de5063d93581)
  {
    f := e;
    f := CubeP236(f, 0x480d7ea8eadcb7e4ebb35b1a0cdcd043f5e4cd4d2058172d0c27567b647, 7, 128,
      0x83cb33627fafca484eea55f3ed3e53cd71569273276be4273e9744e83e0);
    f := CubeP236(f, 0x83cb33627fafca484eea55f3ed3e53cd71569273276be4273e9744e83e0, 2, 4,
      0x1d3a2bd56156546153f495e59c8eedae00984d23441bd58c80d887f0cfe);
    f := CubeP236(f, 0x1d3a2bd56156546153f495e59c8eedae00984d23441bd58c80d887f0cfe, 4, 16,
      0x681cea30777f864767ca5c72c2e0c9366d4bea0ed36db67f72e1b824700);
    f := CubeP236(f, 0x681cea30777f864767ca5c72c2e0c9366d4bea0ed36db67f72e1b824700, 4, 16,
      0x246b0d995d0c971914cfb6d54b8f246af282bafd4da86c98e6560668218);
    f := CubeP236(f, 0x246b0d995d0c971914cfb6d54b8f246af282bafd4da86c98e6560668218, 1, 2,
      0xa93f25bba885b9252329b137dc883cf54091cd537fef79da6849f6d345b);
    f := CubeP236(f, 0xa93f25bba885b9252329b137dc883cf54091cd537fef79da6849f6d345b, 5, 32,
      0xbc3c3ed954169405598c5d0a8e9d96a8daddbbcc6376bebacb68e47120);
    f := CubeP236(f, 0xbc3c3ed954169405598c5d0a8e9d96a8daddbbcc6376bebacb68e47120, 0, 1,
      0x1c53d340376af8cfca4f67d25d18d47b236324e1a764da948477e92628b);
    f := CubeP236(f, 0x1c53d340376af8cfca4f67d25d18d47b236324e1a764da948477e92628b, 6, 64,
      0x48e88c4980b9201f5cfbef781abf1d4f828e86fb9659adff4b1310b0a79);
    f := CubeP236(f, 0x48e88c4980b9201f5cfbef781abf1d4f828e86fb9659adff4b1310b0a79, 2, 4,
      0x7f7597cdd3c877340a980a10f28f7bd44170bf96fb6e9d8a7500735f18b);
    f := CubeP236(f, 0x7f7597cdd3c877340a980a10f28f7bd44170bf96fb6e9d8a7500735f18b, 4, 16,
      0x3854f63724c53aa594b9c9922f46592727c1bd3b106b9e50dd7e3a28215);
    f := CubeP236(f, 0x3854f63724c53aa594b9c9922f46592727c1bd3b106b9e50dd7e3a28215, 4, 16,
      0x5f232d211cad15e53e3a956ec029ae0c7d4a363f98c30c4217155b03e32);
    f := CubeP236(f, 0x5f232d211cad15e53e3a956ec029ae0c7d4a363f98c30c4217155b03e32, 3, 8,
      0x720ad70938bd175b53e26efd80636e95cf3443d8a5836339203cd8ad881);
    f := CubeP236(f, 0x720ad70938bd175b53e26efd80636e95cf3443d8a5836339203cd8ad881, 0, 1,
      0x191ab7bc343c628269193e1f3b3661f2fc43d86e3a3945eaa4ce0581c49);
    f := CubeP236(f, 0x191ab7bc343c628269193e1f3b3661f2fc43d86e3a3945eaa4ce0581c49, 4, 16,
      0x5e53a20049dc2fd1357d92bfa28d053694fa00741bc1e52de5063d93581);
  }

  lemma P236B3(e: nat) returns (f: nat)
    requires Raised(P236, e, 0x5e53a20049dc2fd1357d92bfa28d053694fa00741bc1e52de5063d93581)
    ensures f == 0x200000000 * e + 0xe9fa496a
    ensures Raised(P236, f, 0xa118eb0f9d8184bab59e8e45df736d65fba3c64f4aa855bc8921ac18308)
  {
    f := e;
    f := CubeP236(f, 0x5e53a20049dc2fd1357d92bfa28d053694fa00741bc1e52de5063d93581, 3, 8,
      0x67ce1d1c80fe37780fd186479d9fbc96c40ea65e8fa7cb70d1bc6eb2fa8);
    f := CubeP236(f, 0x67ce1d1c80fe37780fd186479d9fbc96c40ea65e8fa7cb70d1bc6eb2fa8, 5, 32,
      0xd3f3fcd02e66cee9457b1ebbe0134abf79ac175d02139487f0e630ea21);
    f := CubeP236(f, 0xd3f3fcd02e66cee9457b1ebbe0134abf79ac175d02139487f0e630ea21, 1, 2,
      0x3acf2096c14e1b7fca61f3eee671d3421087e6919bfb43a8ac6ca187d41);
    f := CubeP236(f, 0x3acf2096c14e1b7fca61f3eee671d3421087e6919bfb43a8ac6ca187d41, 7, 128,
      0x58168a9cc810950795f992994ff8ecceab43b9ae9c616d7df3da615edc5);
    f := CubeP236(f, 0x58168a9cc810950795f992994ff8ecceab43b9ae9c616d7df3da615edc5, 6, 64,
      0x5641d4e5de2cc434d8ff2a159299498cca60897ed388a0aef15ff0da0ce);
    f := CubeP236(f, 0x5641d4e5de2cc434d8ff2a159299498cca60897ed388a0aef15ff0da0ce, 4, 16,
      0x3b697d501b0714f8d317f10949e2b67188f4cafb4cccc75d9b98460108f);
    f := CubeP236(f, 0x3b697d501b0714f8d317f10949e2b67188f4cafb4cccc75d9b98460108f, 4, 16,
      0x15ffe601f5b00c84e6b79ed19993fac9d4e536125b1eb5a8d2a9339d2b);
    f := CubeP236(f, 0x15ffe601f5b00c84e6b79ed19993fac9d4e536125b1eb5a8d2a9339d2b, 4, 16,
      0x650348bc16e94643c3355253b78e6752af906a3eb5bc54cf2993163f998);
    f := CubeP236(f, 0x650348bc16e94643c3355253b78e6752af906a3eb5bc54cf2993163f998, 5, 32,
      0x8acc4a87344f44985b9ab5599431a6b28010d329ab6b431cc39822a21b5);
    f := CubeP236(f, 0x8acc4a87344f44985b9ab5599431a6b28010d329ab6b431cc39822a21b5, 5, 32,
      0x67c3655c3d4c03a9e39cad8d9e6fc7d03deac383138d118a925cfcc81a0);
    f := CubeP236(f, 0x67c3655c3d4c03a9e39cad8d9e6fc7d03deac383138d118a925cfcc81a0, 2, 4,
      0xa118eb0f9d8184bab59e8e45df736d65fba3c64f4aa855bc8921ac18308);
  }

  lemma PowersP236() returns (m: nat, e: nat)
    ensures m == P236 - 1 && Raised(P236, m, 1) && e == 0xbd0d14cf78e7521a329188e9fa496a
    ensures Raised(P236, e, 0xa118eb0f9d8184bab59e8e45df736d65fba3c64f4aa855bc8921ac18308)
  {
    var g: nat := 2;
    assert Pow(2, 2) == 4;
    QuotRem(4, P236, 0, 4);
    RaisedIff(P236, g, 4);
    g := P236A1(g);
    g := P236A2(g);
    g := P236A3(g);
    g := P236A4(g);
    g := P236A5(g);
    g := P236A6(g);
    var h: nat := 5;
    assert Pow(2, 5) == 32;
    QuotRem(32, P236, 0, 32);
    RaisedIff(P236, h, 32);
    h := P236B1(h);
    h := P236B2(h);
    h := P236B3(h);
    m, e := g, h;
  }

  lemma P236Prime()
    requires IsPrime(0xe87c2a477b815a1793787395b23e1)
    ensures IsPrime(0xabaf8c6b094fd0f32c2ccabab864dbecd99144679c1adf804898fb2042b)
  {
    var m, e := PowersP236();
    FromPowers(0xabaf8c6b094fd0f32c2ccabab864dbecd99144679c1adf804898fb2042b,
      0xe87c2a477b815a1793787395b23e1,
      0x1d0f8548ef702b42f26f0e72b647c2, 0x5e868a67bc73a90d1948c474fd24b5,
      0x3, 0x757fa8cee23274441fb991cda4d6f, e, m,
      0xa118eb0f9d8184bab59e8e45df736d65fba3c64f4aa855bc8921ac18308,
      0xa35a14fb1452ddd0fca6eef50ac9bd9a369cab894104fc366d4fa595e38);
  }

  // ---- P116 ----

  lemma P116A1(e: nat) returns (f: nat)
    requires Raised(P116, e, 0x8)
    ensures f == 0x40000000000 * e + 0x287c2a477b8
    ensures Raised(P116, f, 0x3820cf908b1e082ce9669bb0d9269)
  {
    f := e;
    f := CubeP116(f, 0x8, 5, 32, 0x20000000);
    f := CubeP116(f, 0x20000000, 0, 1, 0x43d23144337fac8e78ce6b5d7963e);
    f := CubeP116(f, 0x43d23144337fac8e78ce6b5d7963e, 3, 8, 0xb4c116eb467a32aa5604f28ce468);
    f := CubeP116(f, 0xb4c116eb467a32aa5604f28ce468, 7, 128, 0x580df7aa761ad950fbd2e062a0997);
    f := CubeP116(f, 0x580df7aa761ad950fbd2e062a0997, 0, 1, 0x8b9fb9e1de26fa8c66ec89a4d9dab);
    f := CubeP116(f, 0x8b9fb9e1de26fa8c66ec89a4d9dab, 2, 4, 0x32155c7583c4648a4dc37fac6d68f);
    f := CubeP116(f, 0x32155c7583c4648a4dc37fac6d68f, 5, 32, 0x1b5c247859c8fb3aa7079b467e402);
    f := CubeP116(f, 0x1b5c247859c8fb3aa7079b467e402, 1, 2, 0x1ed4b0ae4ded911562df02473e9c7);
    f := CubeP116(f, 0x1ed4b0ae4ded911562df02473e9c7, 0, 1, 0x1b7acad60cc98ac86ed0898f859f5);
    f := CubeP116(f, 0x1b7acad60cc98ac86ed0898f859f5, 7, 128, 0x8d9f235dd765a4c762be121a67129);
    f := CubeP116(f, 0x8d9f235dd765a4c762be121a67129, 3, 8, 0xc0d67e4e65029ec40230326fe4389);
    f := CubeP116(f, 0xc0d67e4e65029ec40230326fe4389, 6, 64, 0x7eb47565b60472aa29b86ea1e37b9);
    f := CubeP116(f, 0x7eb47565b60472aa29b86ea1e37b9, 7, 128, 0x6ff3aae136254c545d4fd0c877a41);
    f := CubeP116(f, 0x6ff3aae136254c545d4fd0c877a41, 0, 1, 0x3820cf908b1e082ce9669bb0d9269);
  }

  lemma P116A2(e: nat) returns (f: nat)
    requires Raised(P116, e, 0x3820cf908b1e082ce9669bb0d9269)
    ensures f == 0x40000000000 * e + 0x5685e4de1c
    ensures Raised(P116, f, 0xd859ac1eb75e5812cf841d5384151)
  {
    f := e;
    f := CubeP116(f, 0x3820cf908b1e082ce9669bb0d9269, 0, 1, 0x5f9aeb92469b4491c7f9ffe28adc7);
    f := CubeP116(f, 0x5f9aeb92469b4491c7f9ffe28adc7, 5, 32, 0x796c0be82fc03c2e6d426e67d3686);
    f := CubeP116(f, 0x796c0be82fc03c2e6d426e67d3686, 3, 8, 0x9ccc56d507a8c867340cad18a3ed3);
    f := CubeP116(f, 0x9ccc56d507a8c867340cad18a3ed3, 2, 4, 0x9fe38170fcfcf1a4bc61787c310b3);
    f := CubeP116(f, 0x9fe38170fcfcf1a4bc61787c310b3, 0, 1, 0x27ca24f028e8a733934a3b83b4c47);
    f := CubeP116(f, 0x27ca24f028e8a733934a3b83b4c47, 5, 32, 0xc4fb20d734cef264a458b1d6b2739);
    f := CubeP116(f, 0xc4fb20d734cef264a458b1d6b2739, 7, 128, 0x78dd6af4c45be8f58894fe4963307);
    f := CubeP116(f, 0x78dd6af4c45be8f58894fe4963307, 1, 2, 0xe438e2afa6634a4072d7558321a2f);
    f := CubeP116(f, 0xe438e2afa6634a4072d7558321a2f, 1, 2, 0x1f564027b99a255ec4bea158cd16c);
    f := CubeP116(f, 0x1f564027b99a255ec4bea158cd16c, 5, 32, 0x84b47125c5c2a2433f622103febc6);
    f := CubeP116(f, 0x84b47125c5c2a2433f622103febc6, 7, 128, 0x601a1fdc61ee5fc6950f2dd991fe0);
    f := CubeP116(f, 0x601a1fdc61ee5fc6950f2dd991fe0, 0, 1, 0x4363b1db3b7e2b991cd350c32998a);
    f := CubeP116(f, 0x4363b1db3b7e2b991cd350c32998a, 3, 8, 0xdbf1ba305b1e1ced973b90bbf6b48);
    f := CubeP116(f, 0xdbf1ba305b1e1ced973b90bbf6b48, 4, 16, 0xd859ac1eb75e5812cf841d5384151);
  }

  lemma P116A3(e: nat) returns (f: nat)
    requires Raised(P116, e, 0xd859ac1eb75e5812cf841d5384151)
    ensures f == 0x40000000 * e + 0x395b23e0
    ensures Raised(P116, f, 0x1)
  {
    f := e;
    f := CubeP116(f, 0xd859ac1eb75e5812cf841d5384151, 7, 128, 0xc803ffd094a70bbd30b23840e10c7);
    f := CubeP116(f, 0xc803ffd094a70bbd30b23840e10c7, 1, 2, 0x974304a17238fa2298925c8f365dc);
    f := CubeP116(f, 0x974304a17238fa2298925c8f365dc, 2, 4, 0xcfb49d9c5c1b9661d431fd873add8);
    f := CubeP116(f, 0xcfb49d9c5c1b9661d431fd873add8, 6, 64, 0x915c506193df9ae539a47c0f499d0);
    f := CubeP116(f, 0x915c506193df9ae539a47c0f499d0, 6, 64, 0x20371a2a4651850cda6d5b218c271);
    f := CubeP116(f, 0x20371a2a4651850cda6d5b218c271, 2, 4, 0x5591710bd8abd44b8633f13de7d97);
    f := CubeP116(f, 0x5591710bd8abd44b8633f13de7d97, 1, 2, 0x9211efcc703ef840caea6bd2729fe);
    f := CubeP116(f, 0x9211efcc703ef840caea6bd2729fe, 7, 128, 0xcbf575a5ed4b0585efc9fc232fec9);
    f := CubeP116(f, 0xcbf575a5ed4b0585efc9fc232fec9, 4, 16, 0xe87c2a477b815a1793787395b23e0);
    f := CubeP116(f, 0xe87c2a477b815a1793787395b23e0, 0, 1, 0x1);
  }

  lemma P116B1(e: nat) returns (f: nat)
    requires Raised(P116, e, 0x10)
    ensures f == 0x40000000000 * e + 0x10bac45b5a7
    ensures Raised(P116, f, 0x2896afd472c9e7936a6c2e22acc48)
  {
    f := e;
    f := CubeP116(f, 0x10, 2, 4, 0x400000000);
    f := CubeP116(f, 0x400000000, 0, 1, 0x17dbb00000);
    f := CubeP116(f, 0x17dbb00000, 5, 32, 0xa868cd4e3f37a9c111b58cd538fa6);
    f := CubeP116(f, 0xa868cd4e3f37a9c111b58cd538fa6, 6, 64, 0xda7fef63e9d7012b44eb0b43a967b);
    f := CubeP116(f, 0xda7fef63e9d7012b44eb0b43a967b, 5, 32, 0xc5a158f0a198c844e78c5278e7e52);
    f := CubeP116(f, 0xc5a158f0a198c844e78c5278e7e52, 4, 16, 0xa408a65f29ca1e95758135af3e099);
    f := CubeP116(f, 0xa408a65f29ca1e95758135af3e099, 2, 4, 0x70393e8f73104ca3641dc4c0d9ecf);
    f := CubeP116(f, 0x70393e8f73104ca3641dc4c0d9ecf, 1, 2, 0xbf86be0836a3f23e7b5aaf7dd85db);
    f := CubeP116(f, 0xbf86be0836a3f23e7b5aaf7dd85db, 3, 8, 0x28070f0ce68ad04dceeba5b7628b1);
    f := CubeP116(f, 0x28070f0ce68ad04dceeba5b7628b1, 3, 8, 0x71fe4636598a26698c235a47f93c1);
    f := CubeP116(f, 0x71fe4636598a26698c235a47f93c1, 2, 4, 0x9655fe00e0ab5d432b07544c38a1e);
    f := CubeP116(f, 0x9655fe00e0ab5d432b07544c38a1e, 6, 64, 0x491c3082d7b3a52763f0c34935a32);
    f := CubeP116(f, 0x491c3082d7b3a52763f0c34935a32, 4, 16, 0xb2575d2efa93bf6464d7cad7b9ef9);
    f := CubeP116(f, 0xb2575d2efa93bf6464d7cad7b9ef9, 7, 128, 0x2896afd472c9e7936a6c2e22acc48);
  }

  lemma P116B2(e: nat) returns (f: nat)
    requires Raised(P116, e, 0x2896afd472c9e7936a6c2e22acc48)
    ensures f == 0x200000 * e + 0x1717a0
    ensures Raised(P116, f, 0xaedd80ab27e8de3ca5f2fb22d5403)
  {
    f := e;
    f := CubeP116(f, 0x2896afd472c9e7936a6c2e22acc48, 5, 32, 0x77cd05566e32877c6fb20cfb413b0);
    f := CubeP116(f, 0x77cd05566e32877c6fb20cfb413b0, 6, 64, 0xa31574edd1a0be7dedc6b54c7372d);
    f := CubeP116(f, 0xa31574edd1a0be7dedc6b54c7372d, 1, 2, 0x3a599df33217093dc572ca5aab5a7);
    f := CubeP116(f, 0x3a599df33217093dc572ca5aab5a7, 3, 8, 0x142094c51b5dbc59a5329d5e22371);
    f := CubeP116(f, 0x142094c51b5dbc59a5329d5e22371, 6, 64, 0x5d1f3bbb944c1e87f26a0cc7e9fb);
    f := CubeP116(f, 0x5d1f3bbb944c1e87f26a0cc7e9fb, 4, 16, 0x4e306d573a851f226efe4f75ae6ec);
    f := CubeP116(f, 0x4e306d573a851f226efe4f75ae6ec, 0, 1, 0xaedd80ab27e8de3ca5f2fb22d5403);
  }

  lemma PowersP116() returns (m: nat, e: nat)
    ensures m == P116 - 1 && Raised(P116, m, 1) && e == 0x2217588b6b4f717a0
    ensures Raised(P116, e, 0xaedd80ab27e8de3ca5f2fb22d5403)
  {
    var g: nat := 3;
    assert Pow(2, 3) == 8;
    QuotRem(8, P116, 0, 8);
    RaisedIff(P116, g, 8);
    g := P116A1(g);
    g := P116A2(g);
    g := P116A3(g);
    var h: nat := 4;
    assert Pow(2, 4) == 16;
    QuotRem(16, P116, 0, 16);
    RaisedIff(P116, h, 16);
    h := P116B1(h);
    h := P116B2(h);
    m, e := g, h;
  }

  lemma P116Prime()
    requires IsPrime(0x6d1cafa129d0b)
    ensures IsPrime(0xe87c2a477b815a1793787395b23e1)
  {
    var m, e := PowersP116();
    FromPowers(0xe87c2a477b815a1793787395b23e1,
      0x6d1cafa129d0b,
      0xda395f4253a16, 0x110bac45b5a7b8bd0,
      0x13ff, 0xb0de66170de6, e, m,
      0xaedd80ab27e8de3ca5f2fb22d5403,
      0xe5e342b4c0a3d507894bab5f20e8b);
  }

  // ---- P51 ----

  lemma P51A1(e: nat) returns (f: nat)
    requires Raised(P51, e, 0x40)
    ensures f == 0x40000000000 * e + 0x3472be84a74
    ensures Raised(P51, f, 0x395bbb7e480be)
  {
    f := e;
    f := CubeP51(f, 0x40, 6, 64, 0x29fdd35587a9d);
    f := CubeP51(f, 0x29fdd35587a9d, 4, 16, 0x6b0a0954e7b6e);
    f := CubeP51(f, 0x6b0a0954e7b6e, 3, 8, 0x37e0f607e7f94);
    f := CubeP51(f, 0x37e0f607e7f94, 4, 16, 0x8d138ebee13d);
    f := CubeP51(f, 0x8d138ebee13d, 5, 32, 0x468400872000b);
    f := CubeP51(f, 0x468400872000b, 3, 8, 0x4630268a12c4f);
    f := CubeP51(f, 0x4630268a12c4f, 7, 128, 0x1223cbf886e1e);
    f := CubeP51(f, 0x1223cbf886e1e, 2, 4, 0x4938d0da891e2);
    f := CubeP51(f, 0x4938d0da891e2, 0, 1, 0x5d349af453cb);
    f := CubeP51(f, 0x5d349af453cb, 4, 16, 0x4a2d12b335b6c);
    f := CubeP51(f, 0x4a2d12b335b6c, 5, 32, 0x4b0e49a3b7d9f);
    f := CubeP51(f, 0x4b0e49a3b7d9f, 1, 2, 0x52dd302e14596);
    f := CubeP51(f, 0x52dd302e14596, 6, 64, 0x33f45d6c97d75);
    f := CubeP51(f, 0x33f45d6c97d75, 4, 16, 0x395bbb7e480be);
  }

  lemma P51A2(e: nat) returns (f: nat)
    requires Raised(P51, e, 0x395bbb7e480be)
    ensures f == 0x40 * e + 0xa
    ensures Raised(P51, f, 0x1)
  {
    f := e;
    f := CubeP51(f, 0x395bbb7e480be, 1, 2, 0x242c583969aab);
    f := CubeP51(f, 0x242c583969aab, 2, 4, 0x1);
  }

  lemma P51B1(e: nat) returns (f: nat)
    requires Raised(P51, e, 0x2)
    ensures f == 0x8000000 * e + 0x5580922
    ensures Raised(P51, f, 0x3c3ffdef7c0b1)
  {
    f := e;
    f := CubeP51(f, 0x2, 5, 32, 0x2000);
    f := CubeP51(f, 0x2000, 2, 4, 0x3bb9bdc82f6e4);
    f := CubeP51(f, 0x3bb9bdc82f6e4, 6, 64, 0x404d9a606b02c);
    f := CubeP51(f, 0x404d9a606b02c, 0, 1, 0x42d8f2a2ec64a);
    f := CubeP51(f, 0x42d8f2a2ec64a, 0, 1, 0x4eb4d9d00b27c);
    f := CubeP51(f, 0x4eb4d9d00b27c, 4, 16, 0x5772cd6bce94b);
    f := CubeP51(f, 0x5772cd6bce94b, 4, 16, 0xfeb816ba61af);
    f := CubeP51(f, 0xfeb816ba61af, 4, 16, 0x38f03576a55f7);
    f := CubeP51(f, 0x38f03576a55f7, 2, 4, 0x3c3ffdef7c0b1);
  }

  lemma PowersP51() returns (m: nat, e: nat)
    ensures m == P51 - 1 && Raised(P51, m, 1) && e == 0xd580922
    ensures Raised(P51, e, 0x3c3ffdef7c0b1)
  {
    var g: nat := 6;
    assert Pow(2, 6) == 64;
    QuotRem(64, P51, 0, 64);
    RaisedIff(P51, g, 64);
    g := P51A1(g);
    g := P51A2(g);
    var h: nat := 1;
    assert Pow(2, 1) == 2;
    QuotRem(2, P51, 0, 2);
    RaisedIff(P51, h, 2);
    h := P51B1(h);
    m, e := g, h;
  }

  lemma P51Prime()
    requires IsPrime(0x82d4b5)
    ensures IsPrime(0x6d1cafa129d0b)
  {
    var m, e := PowersP51();
    FromPowers(0x6d1cafa129d0b,
      0x82d4b5,
      0x105a96a, 0x6ac0491,
      0x6, 0x8a0c15, e, m,
      0x3c3ffdef7c0b1,
      0x495bef080ea35);
  }

  // ---- P24 ----

  lemma P24A1(e: nat) returns (f: nat)
    requires Raised(P24, e, 0x10)
    ensures f == 0x200000 * e + 0x2d4b4
    ensures Raised(P24, f, 0x1)
  {
    f := e;
    f := CubeP24(f, 0x10, 0, 1, 0x788e7c);
    f := CubeP24(f, 0x788e7c, 5, 32, 0x29353);
    f := CubeP24(f, 0x29353, 5, 32, 0x52cdb8);
    f := CubeP24(f, 0x52cdb8, 2, 4, 0x1a3c4f);
    f := CubeP24(f, 0x1a3c4f, 2, 4, 0x1bca4e);
    f := CubeP24(f, 0x1bca4e, 6, 64, 0x533d11);
    f := CubeP24(f, 0x533d11, 4, 16, 0x1);
  }

  lemma P24B1(e: nat) returns (f: nat)
    requires Raised(P24, e, 0x4)
    ensures f == 0x1000 * e + 0x1cc
    ensures Raised(P24, f, 0x346cd1)
  {
    f := e;
    f := CubeP24(f, 0x4, 0, 1, 0x10000);
    f := CubeP24(f, 0x10000, 7, 128, 0x69105);
    f := CubeP24(f, 0x69105, 1, 2, 0x1e917b);
    f := CubeP24(f, 0x1e917b, 4, 16, 0x346cd1);
  }

  lemma PowersP24() returns (m: nat, e: nat)
    ensures m == P24 - 1 && Raised(P24, m, 1) && e == 0x21cc
    ensures Raised(P24, e, 0x346cd1)
  {
    var g: nat := 4;
    assert Pow(2, 4) == 16;
    QuotRem(16, P24, 0, 16);
    RaisedIff(P24, g, 16);
    g := P24A1(g);
    var h: nat := 2;
    assert Pow(2, 2) == 4;
    QuotRem(4, P24, 0, 4);
    RaisedIff(P24, h, 4);
    h := P24B1(h);
    m, e := g, h;
  }

  lemma P24Prime()
    requires IsPrime(0x3df)
    ensures IsPrime(0x82d4b5)
  {
    var m, e := PowersP24();
    FromPowers(0x82d4b5,
      0x3df,
      0x7be, 0x10e6,
      0x2, 0x16a, e, m,
      0x346cd1,
      0xf79eb);
  }

  // ---- the chain ----

  lemma Small()
    ensures IsPrime(991)
  {
    forall d: nat | 2 <= d < 991 ensures 991 % d != 0 {
      if 991 % d == 0 {
        var k := 991 / d;
        assert d * k == 991;
        SmallFactor(d, k);
      }
    }
  }

  lemma SmallFactor(d: nat, k: nat)
    requires 2 <= d < 991
    ensures d * k != 991
  {
    if d * k == 991 {
      assert 1 < k;
      assert d <= 31 || k <= 31 by {
        if d >= 32 && k >= 32 {
          MulBelow(32, 32, d, k);
        }
      }
      Tried(d, k);
      Tried(k, d);
    }
  }

  lemma Tried(d: nat, k: nat)
    requires 2 <= d <= 31
    ensures d * k != 991
  {
  }

  /** 2^255 - 19 is prime. */
  lemma FieldPrime()
    ensures IsPrime(P255)
  {
    Small();
    P24Prime();
    P51Prime();
    P116Prime();
    P236Prime();
    P255Prime();
  }
}
