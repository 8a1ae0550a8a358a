/** No sum or product of polynomials in key generation, encryption and decryption leaves 16 bits. */
module KyberWidths {
  import opened MachineInts
  import opened PolyRing
  import opened PairRing
  import opened BitPacking
  import opened PolyPacking
  import opened CoefficientBounds
  import opened KyberParams
  import opened KyberReduce
  import opened KyberNtt
  import opened KyberCompress
  import opened KyberPke
  import opened KyberBounds

  predicate Fit16(a: Poly) {
    forall i :: 0 <= i < |a| ==> InInt16(a[i])
  }

  lemma {:induction false} BoundedFit(a: Poly, b: int)
    requires Bounded(a, b) && b <= 0x7fff
    ensures Fit16(a)
  {
  }

  /** The sums of the first products, as the source's loop has them one after the other. */
  predicate SumsStay(u: seq<Poly>, v: seq<Poly>)
    requires |u| == |v| && Vector(u, N) && Vector(v, N)
  {
    forall k :: 0 <= k <= |u| ==> Fit16(Accumulate(u[..k], v[..k]))
  }

  /** Each of them is the one before and one product. */
  lemma {:induction false} NextSum(u: seq<Poly>, v: seq<Poly>, k: nat)
    requires |u| == |v| && Vector(u, N) && Vector(v, N) && k < |u|
    ensures Accumulate(u[..k + 1], v[..k + 1]) == Add(Accumulate(u[..k], v[..k]), Basemul(u[k], v[k]))
    decreases k
  {
    var (x, y) := (u[..k + 1], v[..k + 1]);
    if k == 0 {
      assert x[1..] == y[1..] == [];
    } else {
      NextSum(u[1..], v[1..], k - 1);
      assert x[1..] == u[1..][..k] && y[1..] == v[1..][..k];
      assert u[..k][1..] == u[1..][..k - 1] && v[..k][1..] == v[1..][..k - 1];
    }
  }

  lemma {:induction false} SumsFit(u: seq<Poly>, v: seq<Poly>)
    requires |u| == |v| <= 5 && VecBounded(u, 4095) && VecBounded(v, 1664)
    ensures SumsStay(u, v) && Fit16(Accumulate(u, v))
  {
    forall k | 0 <= k <= |u| ensures Fit16(Accumulate(u[..k], v[..k])) {
      AccumulateBounded(u[..k], v[..k]);
      BoundedFit(Accumulate(u[..k], v[..k]), 3538 * k);
    }
    assert u[..|u|] == u && v[..|v|] == v;
  }

  /** One polynomial of a ciphertext: the accumulated products, the inverse transform, and the sum with the noise. */
  predicate CipherStays(row: seq<Poly>, rhat: seq<Poly>, e: Poly)
    requires |row| == |rhat| && Vector(row, N) && Vector(rhat, N) && |e| == N
  {
    var p := PolyInvNtt(VecMul(row, rhat));
    SumsStay(row, rhat) && Fit16(p) && Fit16(Add(p, e)) && Bounded(CipherPoly(row, rhat, e), 1664)
  }

  lemma {:induction false} CipherFits(row: seq<Poly>, rhat: seq<Poly>, e: Poly)
    requires |row| == |rhat| <= 5 && VecBounded(row, 4095) && VecBounded(rhat, 1664) && |e| == N && Bounded(e, 1667)
    ensures CipherStays(row, rhat, e)
  {
    var p := PolyInvNtt(VecMul(row, rhat));
    SumsFit(row, rhat);
    VecMulBounded(row, rhat);
    PolyInvNttBounded(VecMul(row, rhat));
    BoundedFit(p, Q - 1);
    SumBounded(p, e, Q - 1, 1667);
    BoundedFit(Add(p, e), Q - 1 + 1667);
    CipherPolyBounded(row, rhat, e);
  }

  lemma {:induction false} MessageBounded(m: seq<int>)
    requires Bytes(m, SYMBYTES)
    ensures Bounded(FromMessage(m), 1665)
  {
  }

  /** All polynomials of a ciphertext, for every level, key, message and coins. */
  lemma {:induction false} EncryptionStaysInside(level: Level, o: Oracles, seed: seq<int>, t: seq<Poly>, m: seq<int>,
      coins: seq<int>)
    requires |t| == level.K() && VecBounded(t, 4095) && Bytes(m, SYMBYTES)
    ensures var rhat := VecNtt(Ephemeral(level, o, coins));
      && (forall i :: 0 <= i < level.K() ==> CipherStays(Row(level, o, seed, true, i), rhat,
        Error1(level, o, coins)[i]))
      && CipherStays(t, rhat, Add(Error2(level, o, coins), FromMessage(m)))
  {
    var rhat := VecNtt(Ephemeral(level, o, coins));
    NoiseVecBounded(level, o, level.Eta1(), coins, 0);
    NoiseVecBounded(level, o, ETA2, coins, level.K());
    assert VecBounded(Ephemeral(level, o, coins), 9464);
    VecNttBounded(Ephemeral(level, o, coins));
    forall i | 0 <= i < level.K() ensures CipherStays(Row(level, o, seed, true, i), rhat, Error1(level, o, coins)[i]) {
      RowBounded(level, o, seed, true, i);
      CipherFits(Row(level, o, seed, true, i), rhat, Error1(level, o, coins)[i]);
    }
    MessageBounded(m);
    SumBounded(Error2(level, o, coins), FromMessage(m), ETA2, 1665);
    CipherFits(t, rhat, Add(Error2(level, o, coins), FromMessage(m)));
  }

  /** The decryption: products, inverse transform, and the difference. */
  lemma {:induction false} DecryptionStaysInside(s: seq<Poly>, u: seq<Poly>, v: Poly)
    requires |s| == |u| <= 5 && VecBounded(s, 4095) && VecBounded(u, 9464) && |v| == N && Bounded(v, 9464)
    ensures SumsStay(s, VecNtt(u)) && Fit16(PolyInvNtt(VecMul(s, VecNtt(u))))
      && Fit16(Sub(v, PolyInvNtt(VecMul(s, VecNtt(u)))))
  {
    var uhat := VecNtt(u);
    VecNttBounded(u);
    SumsFit(s, uhat);
    VecMulBounded(s, uhat);
    PolyInvNttBounded(VecMul(s, uhat));
    BoundedFit(PolyInvNtt(VecMul(s, uhat)), Q - 1);
    SumBounded(v, PolyInvNtt(VecMul(s, uhat)), 9464, Q - 1);
    BoundedFit(Sub(v, PolyInvNtt(VecMul(s, uhat))), 9464 + Q - 1);
  }

  /**
    One polynomial of the public key: the products, their multiple in the Montgomery domain, and the sum
    with the error.
   */
  predicate PublicStays(row: seq<Poly>, shat: seq<Poly>, ehat: Poly)
    requires |row| == |shat| && Vector(row, N) && Vector(shat, N) && |ehat| == N
  {
    var p := MontScale(MONT_SQUARED, VecMul(row, shat));
    SumsStay(row, shat) && Fit16(p) && Fit16(Add(p, ehat)) && Bounded(PublicPoly(row, shat, ehat), 1664)
  }

  /** All polynomials of a public key, for every level and seed. */
  lemma {:induction false} KeyGenerationStaysInside(level: Level, o: Oracles, d: seq<int>)
    ensures var shat, ehat := VecNtt(Secret(level, o, d)), VecNtt(KeyError(level, o, d));
      forall i :: 0 <= i < level.K() ==> PublicStays(Row(level, o, Seeds(o, d)[..SYMBYTES], false, i), shat, ehat[i])
  {
    var shat, ehat := VecNtt(Secret(level, o, d)), VecNtt(KeyError(level, o, d));
    var seed := Seeds(o, d)[..SYMBYTES];
    NoiseVecBounded(level, o, level.Eta1(), Seeds(o, d)[SYMBYTES..], 0);
    NoiseVecBounded(level, o, level.Eta1(), Seeds(o, d)[SYMBYTES..], level.K());
    SmallVec(Secret(level, o, d), level.Eta1());
    SmallVec(KeyError(level, o, d), level.Eta1());
    forall i | 0 <= i < level.K() ensures PublicStays(Row(level, o, seed, false, i), shat, ehat[i]) {
      RowBounded(level, o, seed, false, i);
      PublicFits(Row(level, o, seed, false, i), shat, ehat[i]);
    }
  }

  lemma {:induction false} SmallVec(v: seq<Poly>, eta: nat)
    requires Vector(v, N) && VecBounded(v, eta) && eta <= 3
    ensures VecBounded(VecNtt(v), 1664)
  {
    assert VecBounded(v, 9464);
    VecNttBounded(v);
  }

  lemma {:induction false} PublicFits(row: seq<Poly>, shat: seq<Poly>, ehat: Poly)
    requires |row| == |shat| <= 5 && VecBounded(row, 4095) && VecBounded(shat, 1664) && |ehat| == N
      && Bounded(ehat, 1664)
    ensures PublicStays(row, shat, ehat)
  {
    var p := MontScale(MONT_SQUARED, VecMul(row, shat));
    SumsFit(row, shat);
    VecMulBounded(row, shat);
    MontScaleBounded(MONT_SQUARED, VecMul(row, shat));
    BoundedFit(p, Q - 1);
    SumBounded(p, ehat, Q - 1, 1664);
    BoundedFit(Add(p, ehat), Q - 1 + 1664);
    PublicPolyBounded(row, shat, ehat);
  }
}
