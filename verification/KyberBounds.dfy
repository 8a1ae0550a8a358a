/** Coefficients of the Kyber code stay inside 16 bits, and reduced values are centred. */
module KyberBounds {
  import opened ModArith
  import opened MachineInts
  import opened PolyRing
  import opened PairRing
  import opened NttTheory
  import opened BitPacking
  import opened PolyPacking
  import opened CoefficientBounds
  import opened KyberParams
  import opened KyberReduce
  import opened KyberZetas
  import opened KyberPairs
  import opened KyberNtt
  import opened KyberNttLoops
  import opened KyberCompress
  import opened KyberPke

  lemma {:induction false} ReducedCentred(a: Poly)
    requires Bounded(a, 0x7fff)
    ensures Bounded(Reduced(a), 1664)
  {
    forall i | 0 <= i < |a| ensures -1664 <= Reduced(a)[i] <= 1664 {
      BarrettCentred(a[i]);
    }
  }

  // ----- transforms

  lemma {:induction false} CodeNttBounded(a: Poly, k: int, t: nat, bound: int)
    requires Halves(|a|, t) && Bounded(a, bound) && 0 <= bound && bound + t * Q <= 0x7fff
    ensures Bounded(CodeNtt(FORWARD, a, k, t), bound + t * Q)
    decreases t
  {
    if t > 0 {
      assert t * Q == (t - 1) * Q + Q && 0 <= (t - 1) * Q;
      HalvesBounded(a, k, bound);
      CodeNttBounded(LowHalf(FORWARD, a, k), 2 * k, t - 1, bound + Q);
      CodeNttBounded(HighHalf(FORWARD, a, k), 2 * k + 1, t - 1, bound + Q);
    }
  }

  lemma {:induction false} HalvesBounded(a: Poly, k: int, bound: int)
    requires Bounded(a, bound) && 0 <= bound <= 0x7fff
    ensures Bounded(LowHalf(FORWARD, a, k), bound + Q) && Bounded(HighHalf(FORWARD, a, k), bound + Q)
  {
    var h := |a| / 2;
    var lo, hi := LowHalf(FORWARD, a, k), HighHalf(FORWARD, a, k);
    forall i | 0 <= i < h ensures -bound - Q <= lo[i] <= bound + Q && -bound - Q <= hi[i] <= bound + Q {
      TwiddleBound(k, a[i + h]);
    }
  }

  lemma {:induction false} PolyNttBounded(a: Poly)
    requires |a| == N && Bounded(a, 9464)
    ensures Bounded(PolyNtt(a), 1664)
  {
    HalvesN();
    CodeNttBounded(a, 1, 7, 9464);
    ReducedCentred(NttCore(a));
  }

  lemma {:induction false} CodeInvNttBounded(a: Poly, m: int, t: nat)
    requires Halves(|a|, t) && Bounded(a, 0x3fff)
    ensures Bounded(CodeInvNtt(INVERSE, REDUCE, a, m, t), 0x3fff)
    decreases t
  {
    if t > 0 {
      CodeInvNttBounded(Lo(a), 2 * m + 1, t - 1);
      CodeInvNttBounded(Hi(a), 2 * m, t - 1);
      JoinBounded(CodeInvNtt(INVERSE, REDUCE, Lo(a), 2 * m + 1, t - 1),
        CodeInvNtt(INVERSE, REDUCE, Hi(a), 2 * m, t - 1), m);
    }
  }

  lemma {:induction false} JoinBounded(x: Poly, y: Poly, m: int)
    requires |x| == |y| && Bounded(x, 0x3fff) && Bounded(y, 0x3fff)
    ensures Bounded(CodeJoin(INVERSE, REDUCE, x, y, m), 0x3fff)
  {
    var j, h := CodeJoin(INVERSE, REDUCE, x, y, m), |x|;
    forall i | 0 <= i < 2 * h ensures -0x3fff <= j[i] <= 0x3fff {
      if i < h {
        SumBound(x[i], y[i]);
      } else {
        DifferenceBound(m, x[i - h], y[i - h], y[i - h] - x[i - h]);
      }
    }
  }

  lemma {:induction false} PolyInvNttBounded(a: Poly)
    requires |a| == N && Bounded(a, 0x3fff)
    ensures Bounded(PolyInvNtt(a), Q - 1)
  {
    HalvesN();
    CodeInvNttBounded(a, 1, 7);
    MontScaleBounded(MONT_F, InvNttCore(a));
  }

  lemma {:induction false} MontScaleBounded(c: int, a: Poly)
    requires 0 <= c <= 1664 && Bounded(a, 0x7fff)
    ensures Bounded(MontScale(c, a), Q - 1)
  {
    forall i | 0 <= i < |a| ensures -Q < MontScale(c, a)[i] < Q {
      ReducedProductBound(c, a[i]);
    }
  }

  // ----- products

  predicate VecBounded(v: seq<Poly>, b: int) {
    forall i :: 0 <= i < |v| ==> |v[i]| == N && Bounded(v[i], b)
  }

  /** An unpacked 12-bit value times a reduced one. */
  lemma {:induction false} SmallProduct(a: int, b: int)
    requires -4095 <= a <= 4095 && -1664 <= b <= 1664
    ensures InInt32(a * b) && -1769 <= MontgomeryReduce(a * b) <= 1769
  {
    ProductBound(a, 4095, b, 1664);
    MontgomeryShrinks(a * b, 104);
  }

  lemma {:induction false} ReducedAtBounded(a: Poly, b: Poly, zeta: int, i: nat)
    requires |a| == |b| && i / 2 * 2 + 1 < |a| && Bounded(a, 4095) && Bounded(b, 1664) && -1664 <= zeta <= 1664
    ensures -3538 <= ReducedAt(a, b, zeta, i) <= 3538
  {
    var p := i / 2;
    if i % 2 == 0 {
      SmallProduct(a[2 * p + 1], b[2 * p + 1]);
      SmallProduct(a[2 * p], b[2 * p]);
      SmallProduct(MontgomeryReduce(a[2 * p + 1] * b[2 * p + 1]), zeta);
    } else {
      SmallProduct(a[2 * p], b[2 * p + 1]);
      SmallProduct(a[2 * p + 1], b[2 * p]);
    }
  }

  lemma {:induction false} PairZetaSmall(p: int)
    ensures -1664 <= PAIRZETA(p) <= 1664
  {
    ZetaSmall(64 + p / 2);
  }

  lemma {:induction false} BasemulBounded(a: Poly, b: Poly)
    requires |a| == |b| == N && Bounded(a, 4095) && Bounded(b, 1664)
    ensures Bounded(Basemul(a, b), 3538)
  {
    var c := Basemul(a, b);
    forall i: nat | i < N ensures -3538 <= c[i] <= 3538 {
      PairZetaSmall(i / 2);
      ReducedAtBounded(a, b, PAIRZETA(i / 2), i);
    }
  }

  /** Sums of up to five products fit, in whatever order they are added. */
  lemma {:induction false} AccumulateBounded(u: seq<Poly>, v: seq<Poly>)
    requires |u| == |v| && VecBounded(u, 4095) && VecBounded(v, 1664)
    ensures Bounded(Accumulate(u, v), 3538 * |u|)
    decreases |u|
  {
    if u == [] {
    } else {
      BasemulBounded(u[0], v[0]);
      AccumulateBounded(u[1..], v[1..]);
    }
  }

  lemma {:induction false} VecMulBounded(u: seq<Poly>, v: seq<Poly>)
    requires |u| == |v| <= 5 && VecBounded(u, 4095) && VecBounded(v, 1664)
    ensures Bounded(VecMul(u, v), 1664)
  {
    AccumulateBounded(u, v);
    ReducedCentred(Accumulate(u, v));
  }

  lemma {:induction false} VecNttBounded(v: seq<Poly>)
    requires VecBounded(v, 9464)
    ensures VecBounded(VecNtt(v), 1664)
  {
    forall i | 0 <= i < |v| ensures Bounded(VecNtt(v)[i], 1664) {
      PolyNttBounded(v[i]);
    }
  }

  // ----- the three operations

  lemma {:induction false} SumBounded(a: Poly, b: Poly, x: int, y: int)
    requires |a| == |b| && Bounded(a, x) && Bounded(b, y)
    ensures Bounded(Add(a, b), x + y) && Bounded(Sub(a, b), x + y)
  {
  }

  lemma {:induction false} PublicPolyBounded(row: seq<Poly>, shat: seq<Poly>, ehat: Poly)
    requires |row| == |shat| <= 5 && VecBounded(row, 4095) && VecBounded(shat, 1664) && |ehat| == N
      && Bounded(ehat, 1664)
    ensures Bounded(PublicPoly(row, shat, ehat), 1664)
  {
    var p := VecMul(row, shat);
    VecMulBounded(row, shat);
    MontScaleBounded(MONT_SQUARED, p);
    SumBounded(MontScale(MONT_SQUARED, p), ehat, Q - 1, 1664);
    ReducedCentred(Add(MontScale(MONT_SQUARED, p), ehat));
  }

  lemma {:induction false} CipherPolyBounded(row: seq<Poly>, rhat: seq<Poly>, e: Poly)
    requires |row| == |rhat| <= 5 && VecBounded(row, 4095) && VecBounded(rhat, 1664) && |e| == N && Bounded(e, 1667)
    ensures Bounded(CipherPoly(row, rhat, e), 1664)
  {
    var p := PolyInvNtt(VecMul(row, rhat));
    VecMulBounded(row, rhat);
    PolyInvNttBounded(VecMul(row, rhat));
    SumBounded(p, e, Q - 1, 1667);
    ReducedCentred(Add(p, e));
  }

  lemma {:induction false} DecryptBounded(s: seq<Poly>, u: seq<Poly>, v: Poly)
    requires |s| == |u| <= 5 && VecBounded(s, 4095) && VecBounded(u, 9464) && |v| == N && Bounded(v, 9464)
    ensures Bounded(Decrypt(s, u, v), 1664)
  {
    var p := PolyInvNtt(VecMul(s, VecNtt(u)));
    VecNttBounded(u);
    VecMulBounded(s, VecNtt(u));
    PolyInvNttBounded(VecMul(s, VecNtt(u)));
    SumBounded(v, p, 9464, Q - 1);
    ReducedCentred(Sub(v, p));
  }

  lemma {:induction false} NoiseVecBounded(level: Level, o: Oracles, eta: nat, seed: seq<int>, nonce: int)
    ensures VecBounded(NoiseVec(level, o, eta, seed, nonce), eta)
  {
    var v := NoiseVec(level, o, eta, seed, nonce);
    forall i | 0 <= i < |v| ensures |v[i]| == N && Bounded(v[i], eta) {
      assert v[i] == NoisePoly(o, eta, seed, nonce + i);
    }
  }

  lemma {:induction false} RowBounded(level: Level, o: Oracles, seed: seq<int>, transposed: bool, i: int)
    ensures VecBounded(Row(level, o, seed, transposed, i), 4095)
  {
    var row := Row(level, o, seed, transposed, i);
    forall j | 0 <= j < |row| ensures |row[j]| == N && Bounded(row[j], 4095) {
      assert row[j] == Entry(o, seed, transposed, i, j);
    }
  }

  lemma {:induction false} CanonicalFits(a: Poly)
    requires |a| == N && Bounded(a, 1664)
    ensures Fits(Plain(12), Canonical(a)) && Bounded(Canonical(a), 4095) && SeqCong(Canonical(a), a, Q)
  {
    assert Pow2(10) == 1024 && Pow2(12) == 4096;
    forall i | 0 <= i < |a| ensures 0 <= Canonical(a)[i] < 4096 && Cong(Canonical(a)[i], a[i], Q) {
      if a[i] < 0 {
        CongIntro(a[i] + Q, a[i], Q, 1);
      }
    }
  }
}
