/** No sum or product of polynomials in key generation, signing and verification leaves 32 bits. */
module DilithiumWidths {
  import opened ModArith
  import opened MachineInts
  import opened PolyRing
  import opened BitPacking
  import opened PolyPacking
  import opened CoefficientBounds
  import opened DilithiumParams
  import opened DilithiumReduce
  import opened DilithiumNtt
  import opened DilithiumRounding
  import opened DilithiumPacking
  import opened DilithiumScheme
  import opened DilithiumBounds
  import opened DilithiumSign

  predicate Fit32(a: Poly) {
    forall i :: 0 <= i < |a| ==> InInt32(a[i])
  }

  /** The sums of the first products, as the source's loop has them one after the other. */
  predicate SumsStay(u: seq<Poly>, v: seq<Poly>)
    requires |u| == |v| && IsVec(u) && IsVec(v)
  {
    forall k :: 0 <= k <= |u| ==> Fit32(Accumulate(u[..k], v[..k]))
  }

  /** Each of them is the one before and one product. */
  lemma {:induction false} NextSum(u: seq<Poly>, v: seq<Poly>, k: nat)
    requires |u| == |v| && IsVec(u) && IsVec(v) && k < |u|
    ensures Accumulate(u[..k + 1], v[..k + 1]) == Add(Accumulate(u[..k], v[..k]), Pointwise(u[k], v[k]))
    decreases k
  {
    var (x, y) := (u[..k + 1], v[..k + 1]);
    if k == 0 {
      assert x[1..] == y[1..] == [];
    } else {
      NextSum(u[1..], v[1..], k - 1);
      assert x[1..] == u[1..][..k] && y[1..] == v[1..][..k];
      assert u[..k][1..] == u[1..][..k - 1] && v[..k][1..] == v[1..][..k - 1];
    }
  }

  /** A matrix row times a vector: the sums on the way, and the result of the inverse transform. */
  predicate RowStays(row: seq<Poly>, v: seq<Poly>)
    requires |row| == |v| && IsVec(row) && IsVec(v)
  {
    SumsStay(row, v) && Fit32(RowTimes(row, v))
  }

  /** The challenge times a polynomial, and what the product is then added to or subtracted from. */
  predicate ProductStays(chat: Poly, shat: Poly, a: Poly)
    requires |chat| == |shat| == |a| == N
  {
    var p := ChallengeTimes(chat, shat);
    Fit32(Pointwise(chat, shat)) && Fit32(p) && Fit32(Add(p, a)) && Fit32(Sub(a, p))
  }

  /** Everything one round of signing computes before a reduction brings it back. */
  predicate RoundStays(mode: Mode, x: Expanded, y: seq<Poly>, c: Poly)
    requires ExpandedFits(mode, x) && |y| == mode.L() && IsVec(y) && |c| == N
  {
    var yhat, chat := VecNtt(y), PolyNtt(c);
    var w := Commitments(x.mat, yhat);
    && Fit32(chat)
    && (forall i :: 0 <= i < mode.L() ==> Fit32(yhat[i]) && ProductStays(chat, x.s1hat[i], y[i]))
    && (forall i :: 0 <= i < mode.K() ==>
         RowStays(x.mat[i], yhat) && ProductStays(chat, x.s2hat[i], LowBits(mode, w[i])))
    && (forall i :: 0 <= i < mode.K() ==>
         Fit32(Add(LowWithout(mode, w[i], chat, x.s2hat[i]), Correction(chat, x.t0hat[i]))))
  }

  lemma {:induction false} BoundedFit(a: Poly, b: int)
    requires Bounded(a, b) && b <= 0x7fff_ffff
    ensures Fit32(a)
  {
  }

  lemma {:induction false} SumsFit(p: Poly, a: Poly)
    requires |p| == |a| && Bounded(p, Q - 1) && Bounded(a, 2 * Q)
    ensures Fit32(p) && Fit32(Add(p, a)) && Fit32(Sub(a, p))
  {
  }

  lemma {:induction false} ProductFits(chat: Poly, shat: Poly, a: Poly)
    requires |chat| == |shat| == |a| == N && Bounded(chat, 9 * Q - 1) && Bounded(shat, 9 * Q - 1) && Bounded(a, 2 * Q)
    ensures ProductStays(chat, shat, a) && Bounded(ChallengeTimes(chat, shat), Q - 1)
  {
    PointwiseBounded(chat, shat);
    ChallengeTimesBounded(chat, shat);
    BoundedFit(Pointwise(chat, shat), Q - 1);
    SumsFit(ChallengeTimes(chat, shat), a);
  }

  lemma {:induction false} AllSumsFit(u: seq<Poly>, v: seq<Poly>)
    requires |u| == |v| <= 8 && VecBounded(u, 9 * Q - 1) && VecBounded(v, 9 * Q - 1)
    ensures SumsStay(u, v)
  {
    forall k | 0 <= k <= |u| ensures Fit32(Accumulate(u[..k], v[..k])) {
      AccumulateBounded(u[..k], v[..k]);
      BoundedFit(Accumulate(u[..k], v[..k]), k * Q);
    }
  }

  lemma {:induction false} RowFits(row: seq<Poly>, v: seq<Poly>)
    requires |row| == |v| <= 8 && VecBounded(row, Q - 1) && VecBounded(v, 9 * Q - 1)
    ensures RowStays(row, v)
  {
    AllSumsFit(row, v);
    RowTimesBounded(row, v);
    BoundedFit(RowTimes(row, v), Q - 1);
  }

  /** What a secret key holds is small, whatever its bytes. */
  lemma {:induction false} SecretsBounded(mode: Mode, sk: SecretKey)
    requires SecretKeyFits(mode, sk)
    ensures VecBounded(sk.s1, Q - 1) && VecBounded(sk.s2, Q - 1) && VecBounded(sk.t0, Q - 1)
  {
    assert Pow2(3) == 8 && Pow2(4) == 16 && Pow2(13) == 0x2000;
    assert forall i :: 0 <= i < |sk.s1| ==> Fits(Eta(mode), sk.s1[i]);
    assert forall i :: 0 <= i < |sk.s2| ==> Fits(Eta(mode), sk.s2[i]);
    assert forall i :: 0 <= i < |sk.t0| ==> Fits(T0, sk.t0[i]);
  }

  lemma {:induction false} LowBitsBounded(mode: Mode, w: Poly)
    requires |w| == N && Below(w, Q)
    ensures Bounded(LowBits(mode, w), Q)
  {
    forall i | 0 <= i < N ensures -Q <= LowBits(mode, w)[i] <= Q {
      DecomposeExact(mode, w[i]);
    }
  }

  lemma {:induction false} LowSumFits(mode: Mode, w: Poly, chat: Poly, s2hat: Poly, t0hat: Poly)
    requires |w| == |chat| == |s2hat| == |t0hat| == N && Below(w, Q)
    requires Bounded(chat, 9 * Q - 1) && Bounded(s2hat, 9 * Q - 1) && Bounded(t0hat, 9 * Q - 1)
    ensures ProductStays(chat, s2hat, LowBits(mode, w))
    ensures Fit32(Add(LowWithout(mode, w, chat, s2hat), Correction(chat, t0hat)))
  {
    LowBitsBounded(mode, w);
    ProductFits(chat, s2hat, LowBits(mode, w));
    ProductFits(chat, t0hat, Zeros(N));
    var d := Sub(LowBits(mode, w), ChallengeTimes(chat, s2hat));
    assert Bounded(d, 2 * Q);
    ReducedBounded(d);
    ReducedBounded(ChallengeTimes(chat, t0hat));
    SumsFit(Reduced(d), Reduced(ChallengeTimes(chat, t0hat)));
  }

  /** For every key, every mask of the mode's size and every challenge, no round of signing leaves 32 bits. */
  lemma {:induction false} SigningStaysInside(mode: Mode, o: Oracles, sk: SecretKey, y: seq<Poly>, seed: seq<int>)
    requires SecretKeyFits(mode, sk) && |y| == mode.L() && VecBounded(y, mode.Gamma1())
    ensures RoundStays(mode, Expand(mode, o, sk), y, Challenge(o, seed))
  {
    MatrixBounded(mode, o, sk.rho);
    SecretsBounded(mode, sk);
    VecNttBounded(sk.s1);
    VecNttBounded(sk.s2);
    VecNttBounded(sk.t0);
    RoundFits(mode, Expand(mode, o, sk), y, Challenge(o, seed));
  }

  lemma {:induction false} RoundFits(mode: Mode, x: Expanded, y: seq<Poly>, c: Poly)
    requires ExpandedFits(mode, x) && |y| == mode.L() && VecBounded(y, Q - 1) && |c| == N && Bounded(c, 1)
    requires VecBounded(x.s1hat, 9 * Q - 1) && VecBounded(x.s2hat, 9 * Q - 1) && VecBounded(x.t0hat, 9 * Q - 1)
    ensures RoundStays(mode, x, y, c)
  {
    var yhat, chat := VecNtt(y), PolyNtt(c);
    var w := Commitments(x.mat, yhat);
    VecNttBounded(y);
    NttBounded(c);
    BoundedFit(chat, 9 * Q - 1);
    CommitmentsBelow(mode, x.mat, y);
    forall i | 0 <= i < mode.L() ensures Fit32(yhat[i]) && ProductStays(chat, x.s1hat[i], y[i]) {
      BoundedFit(yhat[i], 9 * Q - 1);
      ProductFits(chat, x.s1hat[i], y[i]);
    }
    forall i | 0 <= i < mode.K()
      ensures RowStays(x.mat[i], yhat) && ProductStays(chat, x.s2hat[i], LowBits(mode, w[i]))
      ensures Fit32(Add(LowWithout(mode, w[i], chat, x.s2hat[i]), Correction(chat, x.t0hat[i])))
    {
      RowFits(x.mat[i], yhat);
      LowSumFits(mode, w[i], chat, x.s2hat[i], x.t0hat[i]);
    }
  }

  /** The verifier's sum: A z - c t1 2^13 in the transform domain. */
  lemma {:induction false} VerificationStaysInside(row: seq<Poly>, z: seq<Poly>, c: Poly, t1: Poly)
    requires |row| == |z| <= 8 && VecBounded(row, Q - 1) && VecBounded(z, Q - 1) && |c| == N && Bounded(c, 1)
      && Fits(T1, t1)
    ensures var zhat, chat, that := VecNtt(z), PolyNtt(c), PolyNtt(Shifted(t1));
      RowStays(row, zhat) && Fit32(that) && Fit32(Pointwise(chat, that))
        && Fit32(Sub(Accumulate(row, zhat), Pointwise(chat, that)))
  {
    var zhat, chat, that := VecNtt(z), PolyNtt(c), PolyNtt(Shifted(t1));
    assert Pow2(10) == 1024;
    VecNttBounded(z);
    RowFits(row, zhat);
    NttBounded(c);
    NttBounded(Shifted(t1));
    BoundedFit(that, 9 * Q - 1);
    PointwiseBounded(chat, that);
    BoundedFit(Pointwise(chat, that), Q - 1);
    AccumulateBounded(row, zhat);
    var d := Sub(Accumulate(row, zhat), Pointwise(chat, that));
    assert Bounded(d, |row| * Q + Q);
    BoundedFit(d, |row| * Q + Q);
  }

  /** The public vector A s1 + s2, for every mode and seed. */
  lemma {:induction false} KeyGenerationStaysInside(mode: Mode, o: Oracles, rho: seq<int>, rhoprime: seq<int>)
    ensures var mat := Matrix(mode, o, rho);
      var s1, s2 := EtaVec(mode, o, rhoprime, mode.L(), 0), EtaVec(mode, o, rhoprime, mode.K(), mode.L());
      IsSmall(s1) && IsSmall(s2) && IsMatrix(mat, mode.L())
      && forall i :: 0 <= i < mode.K() ==> PublicStays(mat[i], VecNtt(s1), s2[i])
  {
    var mat := Matrix(mode, o, rho);
    var s1, s2 := EtaVec(mode, o, rhoprime, mode.L(), 0), EtaVec(mode, o, rhoprime, mode.K(), mode.L());
    MatrixBounded(mode, o, rho);
    EtaVecFits(mode, o, rhoprime, mode.L(), 0);
    EtaVecFits(mode, o, rhoprime, mode.K(), mode.L());
    forall i | 0 <= i < mode.K() ensures PublicStays(mat[i], VecNtt(s1), s2[i]) {
      PublicFits(mat[i], s1, s2[i]);
    }
  }

  predicate PublicStays(row: seq<Poly>, s1hat: seq<Poly>, s2: Poly)
    requires |row| == |s1hat| && IsVec(row) && IsVec(s1hat) && |s2| == N
  {
    RowStays(row, s1hat) && Fit32(Add(RowTimes(row, s1hat), s2))
  }

  lemma {:induction false} PublicFits(row: seq<Poly>, s1: seq<Poly>, s2: Poly)
    requires |row| == |s1| <= 8 && VecBounded(row, Q - 1) && IsSmall(s1) && |s2| == N && Bounded(s2, 4)
    ensures PublicStays(row, VecNtt(s1), s2)
  {
    assert VecBounded(s1, Q - 1);
    VecNttBounded(s1);
    RowFits(row, VecNtt(s1));
    RowTimesBounded(row, VecNtt(s1));
    SumsFit(RowTimes(row, VecNtt(s1)), s2);
  }
}
