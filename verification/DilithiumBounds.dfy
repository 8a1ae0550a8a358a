/** How large coefficients get: every product is in range for its reduction and every sum fits. */
module DilithiumBounds {
  import opened ModArith
  import opened PolyRing
  import opened BitPacking
  import opened NttTheory
  import opened DilithiumParams
  import opened DilithiumReduce
  import opened DilithiumZetas
  import opened DilithiumNtt
  import opened CoefficientBounds
  import opened DilithiumNttLoops
  import opened DilithiumScheme

  lemma {:induction false} CodeNttBounded(a: Poly, k: int, t: nat, bound: int)
    requires Halves(|a|, t) && Bounded(a, bound) && 0 <= bound && bound + t * Q <= 0x7fff_ffff
    ensures Bounded(CodeNtt(FORWARD, a, k, t), bound + t * Q)
    decreases t
  {
    if t == 0 {
    } else {
      assert t * Q == (t - 1) * Q + Q && 0 <= (t - 1) * Q;
      HalvesBounded(a, k, bound);
      CodeNttBounded(LowHalf(FORWARD, a, k), 2 * k, t - 1, bound + Q);
      CodeNttBounded(HighHalf(FORWARD, a, k), 2 * k + 1, t - 1, bound + Q);
    }
  }

  lemma {:induction false} HalvesBounded(a: Poly, k: int, bound: int)
    requires Bounded(a, bound) && 0 <= bound <= 0x7fff_ffff
    ensures Bounded(LowHalf(FORWARD, a, k), bound + Q) && Bounded(HighHalf(FORWARD, a, k), bound + Q)
  {
    var h := |a| / 2;
    var lo, hi := LowHalf(FORWARD, a, k), HighHalf(FORWARD, a, k);
    forall i | 0 <= i < h ensures -bound - Q <= lo[i] <= bound + Q && -bound - Q <= hi[i] <= bound + Q {
      TwiddleBound(k, a[i + h]);
    }
  }

  lemma {:induction false} NttBounded(a: Poly)
    requires |a| == N && Bounded(a, Q - 1)
    ensures Bounded(PolyNtt(a), 9 * Q - 1)
  {
    HalvesN();
    CodeNttBounded(a, 1, 8, Q - 1);
  }

  lemma {:induction false} CodeInvNttBounded(a: Poly, m: int, t: nat)
    requires Halves(|a|, t) && Bounded(a, Q) && t <= 8
    ensures Bounded(CodeInvNtt(INVERSE, SUM, a, m, t), Pow2(t) * Q)
    decreases t
  {
    if t == 0 {
    } else {
      var x, y := CodeInvNtt(INVERSE, SUM, Lo(a), 2 * m + 1, t - 1), CodeInvNtt(INVERSE, SUM, Hi(a), 2 * m, t - 1);
      CodeInvNttBounded(Lo(a), 2 * m + 1, t - 1);
      CodeInvNttBounded(Hi(a), 2 * m, t - 1);
      SmallPow2(t - 1);
      JoinBounded(x, y, m, Pow2(t - 1) * Q);
    }
  }

  lemma {:induction false} SmallPow2(t: nat)
    requires t <= 7
    ensures 1 <= Pow2(t) <= 128
  {
    assert Pow2(1) == 2 && Pow2(2) == 4 && Pow2(3) == 8 && Pow2(4) == 16 && Pow2(5) == 32 && Pow2(6) == 64
      && Pow2(7) == 128;
    assert t in {0, 1, 2, 3, 4, 5, 6, 7};
  }

  lemma {:induction false} JoinBounded(x: Poly, y: Poly, m: int, bound: int)
    requires |x| == |y| && Bounded(x, bound) && Bounded(y, bound) && Q <= bound <= 128 * Q
    ensures Bounded(CodeJoin(INVERSE, SUM, x, y, m), 2 * bound)
  {
    var j, h := CodeJoin(INVERSE, SUM, x, y, m), |x|;
    forall i | 0 <= i < 2 * h ensures -2 * bound <= j[i] <= 2 * bound {
      if i >= h {
        InverseTwiddleBound(m, x[i - h] - y[i - h]);
      }
    }
  }

  lemma {:induction false} InvNttBounded(a: Poly)
    requires |a| == N && Bounded(a, Q - 1)
    ensures Bounded(PolyInvNtt(a), Q - 1)
  {
    HalvesN();
    CodeInvNttBounded(a, 1, 8);
    assert Pow2(8) == 256;
    var v := CodeInvNtt(INVERSE, SUM, a, 1, 8);
    forall i | 0 <= i < N ensures -Q < PolyInvNtt(a)[i] < Q {
      assert -(256 * Q) <= v[i] <= 256 * Q;
      ReducedProductBound(MONT_F, v[i]);
    }
  }

  lemma {:induction false} PointwiseBounded(a: Poly, b: Poly)
    requires |a| == |b| && Bounded(a, 9 * Q - 1) && Bounded(b, 9 * Q - 1)
    ensures Bounded(Pointwise(a, b), Q - 1)
  {
    forall i | 0 <= i < |a| ensures -Q < Pointwise(a, b)[i] < Q {
      ProductBound(a[i], 9 * Q, b[i], 9 * Q);
      MontgomeryBound(a[i] * b[i]);
    }
  }

  predicate VecBounded(v: seq<Poly>, b: int) {
    forall i :: 0 <= i < |v| ==> |v[i]| == N && Bounded(v[i], b)
  }

  lemma {:induction false} VecNttBounded(v: seq<Poly>)
    requires VecBounded(v, Q - 1)
    ensures VecBounded(VecNtt(v), 9 * Q - 1)
  {
    forall i | 0 <= i < |v| ensures Bounded(VecNtt(v)[i], 9 * Q - 1) {
      NttBounded(v[i]);
    }
  }

  lemma {:induction false} AccumulateBounded(u: seq<Poly>, v: seq<Poly>)
    requires |u| == |v| && VecBounded(u, 9 * Q - 1) && VecBounded(v, 9 * Q - 1)
    ensures Bounded(Accumulate(u, v), |u| * Q)
    decreases |u|
  {
    if u == [] {
    } else {
      PointwiseBounded(u[0], v[0]);
      AccumulateBounded(u[1..], v[1..]);
      assert |u| * Q == |u[1..]| * Q + Q;
    }
  }

  lemma {:induction false} ReducedBounded(a: Poly)
    requires Bounded(a, 0x7fff_ffff - 0x40_0000)
    ensures Bounded(Reduced(a), Q - 1)
  {
    forall i | 0 <= i < |a| ensures -Q < Reduced(a)[i] < Q {
      Reduce32Spec(a[i]);
    }
  }

  /** A matrix row times a vector stays below Q, for every row length the modes use. */
  lemma {:induction false} RowTimesBounded(row: seq<Poly>, v: seq<Poly>)
    requires |row| == |v| <= 8 && VecBounded(row, 9 * Q - 1) && VecBounded(v, 9 * Q - 1)
    ensures Bounded(RowTimes(row, v), Q - 1)
  {
    AccumulateBounded(row, v);
    ReducedBounded(Accumulate(row, v));
    InvNttBounded(Reduced(Accumulate(row, v)));
  }

  lemma {:induction false} ChallengeTimesBounded(chat: Poly, shat: Poly)
    requires |chat| == |shat| == N && Bounded(chat, 9 * Q - 1) && Bounded(shat, 9 * Q - 1)
    ensures Bounded(ChallengeTimes(chat, shat), Q - 1)
  {
    PointwiseBounded(chat, shat);
    InvNttBounded(Pointwise(chat, shat));
  }
}
