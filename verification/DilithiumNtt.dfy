/** The Dilithium transform: what the in-place loops compute, how large it gets, and what it means. */
module DilithiumNtt {
  import opened ModArith
  import opened MachineInts
  import opened PolyRing
  import opened NttTheory
  import opened NttLayers
  import opened RootTrees
  import opened DilithiumParams
  import opened DilithiumReduce
  import opened DilithiumZetas

  const MONT_F := 41978    // 2^64 / 256 modulo Q

  const FORWARD: (int, int) -> int := (k, x) => MontgomeryReduce(Zeta(k) * x)
  const INVERSE: (int, int) -> int := (m, x) => MontgomeryReduce(-Zeta(m) * x)
  const SUM: int -> int := x => x

  /** The 512th roots of unity at the nodes, and their inverses seen from the mirrored node. */
  const ROOT: int -> int := k => if 1 <= k < 256 then NodeRoot(PSI, 128, k) else 0
  const INVROOT: int -> int := k => if 1 <= k < 256 then -NodeRoot(PSI, 128, k) else 0

  lemma {:induction false} HalvesN()
    ensures Halves(N, 8)
  {
    assert Halves(1, 0) && Halves(2, 1) && Halves(4, 2) && Halves(8, 3) && Halves(16, 4);
    assert Halves(32, 5) && Halves(64, 6) && Halves(128, 7);
  }

  function PolyNtt(a: Poly): (b: Poly)
    requires |a| == N
    ensures |b| == N
  {
    HalvesN();
    CodeNtt(FORWARD, a, 1, 8)
  }

  function MontScale(c: int, a: Poly): (b: Poly)
    ensures |b| == |a|
  {
    seq(|a|, i requires 0 <= i < |a| => MontgomeryReduce(c * a[i]))
  }

  function PolyInvNtt(a: Poly): (b: Poly)
    requires |a| == N
    ensures |b| == N
  {
    HalvesN();
    MontScale(MONT_F, CodeInvNtt(INVERSE, SUM, a, 1, 8))
  }

  function Pointwise(a: Poly, b: Poly): (c: Poly)
    requires |a| == |b|
    ensures |c| == |a|
  {
    seq(|a|, i requires 0 <= i < |a| => MontgomeryReduce(a[i] * b[i]))
  }

  // ----- meaning

  lemma {:induction false} ReducedTwiddle(zeta: int, root: int, x: int)
    requires Cong(zeta, R * root, Q)
    ensures Cong(MontgomeryReduce(zeta * x), root * x, Q)
    ensures Cong(MontgomeryReduce(-zeta * x), -root * x, Q)
  {
    MontgomeryCong(zeta * x);
    MontgomeryCong(-zeta * x);
    CongMul(zeta, R * root, x * RINV, x * RINV, Q);
    assert R * RINV == 1 + 4236238847 * Q;
    CongMul(R * RINV, 1, root * x, root * x, Q);
    assert (R * root) * (x * RINV) == (R * RINV) * (root * x);
    assert zeta * (x * RINV) == (zeta * x) * RINV;
    CongSub(0, 0, (zeta * x) * RINV, root * x, Q);
    assert -zeta * x == -(zeta * x) && -(zeta * x) * RINV == -((zeta * x) * RINV) && -root * x == -(root * x);
  }

  lemma {:induction false} OffTable(k: int)
    requires !(1 <= k < 256)
    ensures Zeta(k) == 0
  {
  }

  lemma {:induction false} Twiddled()
    ensures Twiddles(FORWARD, ROOT, Q) && Twiddles(INVERSE, INVROOT, Q)
  {
    forall k, x ensures Cong(FORWARD(k, x), ROOT(k) * x, Q) && Cong(INVERSE(k, x), INVROOT(k) * x, Q) {
      TwiddledAt(k, x);
    }
  }

  lemma {:induction false} TableRoot(k: int)
    ensures Cong(Zeta(k), R * ROOT(k), Q)
  {
    if 1 <= k < 256 {
      TableIsRoots(k);
    } else {
      OffTable(k);
    }
  }

  lemma {:induction false} ZetaOf(k: int, x: int) returns (zeta: int)
    ensures FORWARD(k, x) == MontgomeryReduce(zeta * x) && INVERSE(k, x) == MontgomeryReduce(-zeta * x)
    ensures Cong(zeta, R * ROOT(k), Q)
  {
    zeta := Zeta(k);
    TableRoot(k);
  }

  lemma {:induction false} InverseRootOf(k: int)
    ensures INVROOT(k) == -ROOT(k)
  {
  }

  lemma {:induction false} TwiddledAt(k: int, x: int)
    ensures Cong(FORWARD(k, x), ROOT(k) * x, Q) && Cong(INVERSE(k, x), INVROOT(k) * x, Q)
  {
    var zeta := ZetaOf(k, x);
    InverseRootOf(k);
    TwiddledBy(zeta, ROOT(k), x, FORWARD(k, x), INVERSE(k, x), INVROOT(k));
  }

  lemma {:induction false} TwiddledBy(zeta: int, root: int, x: int, f: int, g: int, inv: int)
    requires Cong(zeta, R * root, Q) && inv == -root
    requires f == MontgomeryReduce(zeta * x) && g == MontgomeryReduce(-zeta * x)
    ensures Cong(f, root * x, Q) && Cong(g, inv * x, Q)
  {
    ReducedTwiddle(zeta, root, x);
  }

  lemma {:induction false} RootNodeExponent()
    ensures BitRev(1, 128, 1) == 128 && PowerOfTwo(128)
  {
    assert BitRev(1, 8, 16) == 128;
    assert BitRev(1, 32, 4) == BitRev(1, 8, 16);
    assert PowerOfTwo(8) && PowerOfTwo(32);
  }

  /** The table describes the splitting of X^256 + 1 into linear factors. */
  lemma {:induction false} Roots()
    ensures RootTree(Q, ROOT, 1, -1, 8)
  {
    RootNodeExponent();
    PsiHasOrder512();
    PowAdd(PSI, 128, 128);
    assert Pow2(7) == 128;
    AtHeightWithin(1, 8, 128);
    RootTreeBelow(PSI, 128, ROOT, 1, -1, 8, Q);
  }

  lemma {:induction false} InverseRoots()
    ensures InverseTree(Q, ROOT, INVROOT, 1, 1, 8)
  {
    RootNodeExponent();
    var e := BitRev(1, 128, 1);
    assert e + e == 256;
    PsiHasOrder512();
    assert Pow2(7) == 128;
    AtHeightWithin(1, 8, 128);
    InverseTreeBelow(PSI, 128, ROOT, INVROOT, 1, 1, 8, Q);
  }

  lemma {:induction false} MontScaleCong(c: int, a: Poly)
    ensures SeqCong(MontScale(c, a), Scale(c * RINV, a), Q)
  {
    forall i | 0 <= i < |a| ensures Cong(MontgomeryReduce(c * a[i]), (c * RINV) * a[i], Q) {
      MontgomeryCong(c * a[i]);
      assert (c * a[i]) * RINV == (c * RINV) * a[i];
    }
  }

  lemma {:induction false} RescaleCong(c: int, d: int, a: Poly, b: Poly, e: int)
    requires SeqCong(a, Scale(d, b), Q) && Cong(c * d, e, Q)
    ensures SeqCong(Scale(c, a), Scale(e, b), Q)
  {
    ScaleCong(c, c, a, Scale(d, b), Q);
    ScaleScale(c, d, b);
    SeqCongSame(b, Q);
    ScaleCong(c * d, e, b, b, Q);
    SeqCongTrans(Scale(c, a), Scale(c * d, b), Scale(e, b), Q);
  }

  function RefNtt(a: Poly): (b: Poly)
    requires |a| == N
    ensures |b| == N
  {
    HalvesN();
    Ntt(ROOT, a, 1, 8)
  }

  function RefInvNtt(a: Poly): (b: Poly)
    requires |a| == N
    ensures |b| == N
  {
    HalvesN();
    InvNtt(INVROOT, a, 1, 8)
  }

  lemma {:induction false} NttMeaning(a: Poly, b: Poly)
    requires |a| == |b| == N && SeqCong(a, b, Q)
    ensures SeqCong(PolyNtt(a), RefNtt(b), Q)
  {
    HalvesN();
    Twiddled();
    CodeNttCong(FORWARD, ROOT, a, b, 1, 8, Q);
  }

  lemma {:induction false} InvNttMeaning(a: Poly, b: Poly)
    requires |a| == |b| == N && SeqCong(a, b, Q)
    ensures SeqCong(PolyInvNtt(a), Scale(MONT_F * RINV, RefInvNtt(b)), Q)
  {
    HalvesN();
    var v := CodeInvNtt(INVERSE, SUM, a, 1, 8);
    assert SeqCong(v, RefInvNtt(b), Q) by {
      Twiddled();
      CodeInvNttCong(INVERSE, SUM, INVROOT, a, b, 1, 8, Q);
    }
    MontScaleCong(MONT_F, v);
    ScaleCong(MONT_F * RINV, MONT_F * RINV, v, RefInvNtt(b), Q);
    SeqCongTrans(PolyInvNtt(a), Scale(MONT_F * RINV, v), Scale(MONT_F * RINV, RefInvNtt(b)), Q);
  }

  lemma {:induction false} RefInvOfRef(b: Poly)
    requires |b| == N
    ensures SeqCong(RefInvNtt(RefNtt(b)), Scale(256, b), Q)
  {
    assert Pow2(8) == 256;
    HalvesN();
    InverseRoots();
    InvNttOfNtt(ROOT, INVROOT, b, 1, 1, 8, Q);
  }

  lemma {:induction false} RefOfRefInv(c: int, b: Poly)
    requires |b| == N
    ensures SeqCong(RefNtt(Scale(c, RefInvNtt(b))), Scale(c * 256, b), Q)
  {
    assert Pow2(8) == 256;
    HalvesN();
    InverseRoots();
    ScaledNttOfInv(ROOT, INVROOT, c, b, 1, 1, 8, Q);
  }

  /** A transform followed by its inverse multiplies by the Montgomery factor 2^32. */
  lemma {:induction false} InvNttOfNttIsR(a: Poly, b: Poly)
    requires |a| == |b| == N && SeqCong(a, PolyNtt(b), Q)
    ensures SeqCong(PolyInvNtt(a), Scale(R, b), Q)
  {
    var n := RefNtt(b);
    SeqCongSame(b, Q);
    NttMeaning(b, b);
    SeqCongTrans(a, PolyNtt(b), n, Q);
    InvNttMeaning(a, n);
    RefInvOfRef(b);
    RescaleCong(MONT_F * RINV, 256, RefInvNtt(n), b, R);
    SeqCongTrans(PolyInvNtt(a), Scale(MONT_F * RINV, RefInvNtt(n)), Scale(R, b), Q);
  }

  /** The inverse transform followed by the transform is the same factor. */
  lemma {:induction false} NttOfInvNttIsR(a: Poly)
    requires |a| == N
    ensures SeqCong(PolyNtt(PolyInvNtt(a)), Scale(R, a), Q)
  {
    var c := MONT_F * RINV;
    var n := Scale(c, RefInvNtt(a));
    SeqCongSame(a, Q);
    InvNttMeaning(a, a);
    NttMeaning(PolyInvNtt(a), n);
    RefOfRefInv(c, a);
    SeqCongTrans(PolyNtt(PolyInvNtt(a)), RefNtt(n), Scale(c * 256, a), Q);
    ScaleCong(c * 256, R, a, a, Q);
    SeqCongTrans(PolyNtt(PolyInvNtt(a)), Scale(c * 256, a), Scale(R, a), Q);
  }

  /** The transform is linear modulo Q. */
  lemma {:induction false} NttLinear(a: Poly, x: Poly, c: int, y: Poly)
    requires |a| == |x| == |y| == N && SeqCong(a, Add(x, Scale(c, y)), Q)
    ensures SeqCong(PolyNtt(a), Add(PolyNtt(x), Scale(c, PolyNtt(y))), Q)
  {
    HalvesN();
    Twiddled();
    CodeNttLinear(FORWARD, ROOT, a, x, c, y, 1, 8, Q);
  }

  lemma {:induction false} PointwiseCong(a: Poly, b: Poly)
    requires |a| == |b|
    ensures SeqCong(Pointwise(a, b), Scale(RINV, Product(a, b)), Q)
  {
    forall i | 0 <= i < |a| ensures Cong(Pointwise(a, b)[i], Scale(RINV, Product(a, b))[i], Q) {
      MontgomeryCong(a[i] * b[i]);
    }
  }

  /** Undoing 1/2^32 in front of a transform. */
  lemma {:induction false} InvNttOfScaledNtt(a: Poly, b: Poly)
    requires |a| == |b| == N && SeqCong(a, Scale(RINV, PolyNtt(b)), Q)
    ensures SeqCong(PolyInvNtt(a), b, Q)
  {
    var s := Scale(RINV, b);
    NttOfScaled(RINV, b);
    SeqCongSym(PolyNtt(s), Scale(RINV, PolyNtt(b)), Q);
    SeqCongTrans(a, Scale(RINV, PolyNtt(b)), PolyNtt(s), Q);
    InvNttOfNttIsR(a, s);
    SeqCongSame(s, Q);
    RescaleCong(R, RINV, s, b, 1);
    assert Scale(1, b) == b;
    SeqCongTrans(PolyInvNtt(a), Scale(R, s), b, Q);
  }

  lemma {:induction false} NttOfScaled(c: int, b: Poly)
    requires |b| == N
    ensures SeqCong(PolyNtt(Scale(c, b)), Scale(c, PolyNtt(b)), Q)
  {
    HalvesN();
    SeqCongSame(b, Q);
    SeqCongSame(Scale(c, b), Q);
    NttMeaning(Scale(c, b), Scale(c, b));
    NttMeaning(b, b);
    NttScale(ROOT, c, b, 1, 8);
    ScaleCong(c, c, PolyNtt(b), RefNtt(b), Q);
    SeqCongSym(Scale(c, PolyNtt(b)), Scale(c, RefNtt(b)), Q);
    SeqCongTrans(PolyNtt(Scale(c, b)), Scale(c, RefNtt(b)), Scale(c, PolyNtt(b)), Q);
  }

  /** Transforming a product gives the pointwise product. */
  lemma {:induction false} NttOfProduct(a: Poly, b: Poly)
    requires |a| == |b| == N
    ensures SeqCong(PolyNtt(Mul(a, b, -1)), Product(PolyNtt(a), PolyNtt(b)), Q)
  {
    HalvesN();
    Twiddled();
    Roots();
    CodeNttOfMul(FORWARD, ROOT, a, b, 1, 8, -1, Q);
    assert Pow2(8) == 256;
    LeafMulIsProduct(ROOT, PolyNtt(a), PolyNtt(b), 1, 8, -1);
  }

  /** Transform, multiply pointwise, transform back: the product in Z_Q[X]/(X^256 + 1). */
  lemma {:induction false} NttMultiplies(a: Poly, b: Poly)
    requires |a| == |b| == N
    ensures SeqCong(PolyInvNtt(Pointwise(PolyNtt(a), PolyNtt(b))), Mul(a, b, -1), Q)
  {
    var x, y, p := PolyNtt(a), PolyNtt(b), Mul(a, b, -1);
    NttOfProduct(a, b);
    SeqCongSym(PolyNtt(p), Product(x, y), Q);
    ScaleCong(RINV, RINV, Product(x, y), PolyNtt(p), Q);
    PointwiseCong(x, y);
    SeqCongTrans(Pointwise(x, y), Scale(RINV, Product(x, y)), Scale(RINV, PolyNtt(p)), Q);
    InvNttOfScaledNtt(Pointwise(x, y), p);
  }
}
