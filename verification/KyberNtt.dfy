/**
  The Kyber transform. It stops one level early: X^256 + 1 splits into 128 quadratic factors modulo
  3329, and products are taken modulo those.
 */
module KyberNtt {
  import opened ModArith
  import opened PolyRing
  import opened NttTheory
  import opened RootTrees
  import opened KyberParams
  import opened KyberReduce
  import opened KyberZetas
  import opened PairRing
  import opened KyberPairs

  const MONT_F := 1441    // 2^32 / 128 modulo Q

  const FORWARD: (int, int) -> int := (k, x) => MontgomeryReduce(Zeta(k) * x)
  const INVERSE: (int, int) -> int := (m, x) => MontgomeryReduce(Zeta(m) * -x)
  const REDUCE: int -> int := x => BarrettReduce(x)

  /** The 256th roots of unity at the nodes, and their inverses seen from the mirrored node. */
  const ROOT: int -> int := k => if 0 <= k < 128 then NodeRoot(PSI, 64, k) else 0
  const INVROOT: int -> int := k => if 0 <= k < 128 then -NodeRoot(PSI, 64, k) else 0

  lemma {:induction false} HalvesN()
    ensures Halves(N, 7)
  {
    assert Halves(2, 0) && Halves(4, 1) && Halves(8, 2) && Halves(16, 3) && Halves(32, 4);
    assert Halves(64, 5) && Halves(128, 6);
  }

  function Reduced(a: Poly): (b: Poly)
    ensures |b| == |a|
  {
    seq(|a|, i requires 0 <= i < |a| => BarrettReduce(a[i]))
  }

  /** The layers of the transform, before its last reduction. */
  function NttCore(a: Poly): (b: Poly)
    requires |a| == N
    ensures |b| == N
  {
    HalvesN();
    CodeNtt(FORWARD, a, 1, 7)
  }

  function PolyNtt(a: Poly): (b: Poly)
    requires |a| == N
    ensures |b| == N
  {
    Reduced(NttCore(a))
  }

  function MontScale(c: int, a: Poly): (b: Poly)
    ensures |b| == |a|
  {
    seq(|a|, i requires 0 <= i < |a| => MontgomeryReduce(a[i] * c))
  }

  function InvNttCore(a: Poly): (b: Poly)
    requires |a| == N
    ensures |b| == N
  {
    HalvesN();
    CodeInvNtt(INVERSE, REDUCE, a, 1, 7)
  }

  function PolyInvNtt(a: Poly): (b: Poly)
    requires |a| == N
    ensures |b| == N
  {
    MontScale(MONT_F, InvNttCore(a))
  }

  /** The zeta of coefficient pair p: both signs of one table entry in turn. */
  const PAIRZETA: int -> int := p => if p % 2 == 0 then Zeta(64 + p / 2) else -Zeta(64 + p / 2)

  /** The constant of the quadratic factor of pair p: X^2 - PAIRROOT(p). */
  const PAIRROOT: int -> int := p => if p % 2 == 0 then ROOT(64 + p / 2) else -ROOT(64 + p / 2)

  function Basemul(a: Poly, b: Poly): (c: Poly)
    requires |a| == |b| && |a| % 2 == 0
    ensures |c| == |a|
  {
    PairwiseReduced(PAIRZETA, a, b)
  }

  function Leaf(a: Poly, b: Poly): (c: Poly)
    requires |a| == |b| && |a| % 2 == 0
    ensures |c| == |a|
  {
    Pairwise(PAIRROOT, a, b)
  }

  // ----- meaning of the reductions

  lemma {:induction false} ReducedCong(a: Poly)
    ensures SeqCong(Reduced(a), a, Q)
  {
    forall i | 0 <= i < |a| ensures Cong(Reduced(a)[i], a[i], Q) {
      BarrettCong(a[i]);
    }
  }

  lemma {:induction false} MontScaleCong(c: int, a: Poly)
    ensures SeqCong(MontScale(c, a), Scale(c * RINV, a), Q)
  {
    forall i | 0 <= i < |a| ensures Cong(MontgomeryReduce(a[i] * c), (c * RINV) * a[i], Q) {
      MontgomeryCong(a[i] * c);
      assert (a[i] * c) * RINV == (c * RINV) * a[i];
    }
  }

  lemma {:induction false} ReducedTwiddle(zeta: int, root: int, x: int)
    requires Cong(zeta, R * root, Q)
    ensures Cong(MontgomeryReduce(zeta * x), root * x, Q)
  {
    MontgomeryCong(zeta * x);
    CongMul(zeta, R * root, x * RINV, x * RINV, Q);
    assert R * RINV == 1 + 3327 * Q;
    CongIntro(R * RINV, 1, Q, 3327);
    CongMul(R * RINV, 1, root * x, root * x, Q);
    assert (R * root) * (x * RINV) == (R * RINV) * (root * x);
    assert zeta * (x * RINV) == (zeta * x) * RINV;
  }

  /** The table holds the roots times 2^16; entry 0, which the transform does not use, holds 2^16 itself. */
  lemma {:induction false} TableRoot(k: int)
    ensures Cong(Zeta(k), R * ROOT(k), Q)
  {
    if 1 <= k < 128 {
      TableIsRoots(k);
    } else if k == 0 {
      BitRevZero(64, 1);
    }
  }

  lemma {:induction false} Twiddled()
    ensures Twiddles(FORWARD, ROOT, Q) && Twiddles(INVERSE, INVROOT, Q) && Reduces(REDUCE, Q)
  {
    forall k, x ensures Cong(FORWARD(k, x), ROOT(k) * x, Q) && Cong(INVERSE(k, x), INVROOT(k) * x, Q) {
      TwiddledAt(k, x);
    }
    forall x ensures Cong(REDUCE(x), x, Q) {
      BarrettCong(x);
    }
  }

  lemma {:induction false} TwiddledAt(k: int, x: int)
    ensures Cong(FORWARD(k, x), ROOT(k) * x, Q) && Cong(INVERSE(k, x), INVROOT(k) * x, Q)
  {
    TableRoot(k);
    ReducedTwiddle(Zeta(k), ROOT(k), x);
    NegatedTwiddle(Zeta(k), ROOT(k), x);
  }

  lemma {:induction false} NegatedTwiddle(zeta: int, root: int, x: int)
    requires Cong(zeta, R * root, Q)
    ensures Cong(MontgomeryReduce(zeta * -x), -root * x, Q)
  {
    ReducedTwiddle(zeta, root, -x);
    assert root * -x == -root * x;
  }

  lemma {:induction false} RootNodeExponent()
    ensures BitRev(1, 64, 1) == 64 && PowerOfTwo(64)
  {
    assert BitRev(1, 4, 16) == 64;
    assert BitRev(1, 16, 4) == BitRev(1, 4, 16);
    assert PowerOfTwo(4) && PowerOfTwo(16);
  }

  /** The table describes the splitting of X^256 + 1 into quadratic factors. */
  lemma {:induction false} Roots()
    ensures RootTree(Q, ROOT, 1, -1, 7)
  {
    RootNodeExponent();
    PsiHasOrder256();
    PowAdd(PSI, 64, 64);
    assert Pow2(6) == 64;
    AtHeightWithin(1, 7, 64);
    RootTreeBelow(PSI, 64, ROOT, 1, -1, 7, Q);
  }

  lemma {:induction false} InverseRoots()
    ensures InverseTree(Q, ROOT, INVROOT, 1, 1, 7)
  {
    RootNodeExponent();
    var e := BitRev(1, 64, 1);
    assert e + e == 128;
    PsiHasOrder256();
    assert Pow2(6) == 64;
    AtHeightWithin(1, 7, 64);
    InverseTreeBelow(PSI, 64, ROOT, INVROOT, 1, 1, 7, Q);
  }

  // ----- the transform as an exact integer function of the roots

  function RefNtt(a: Poly): (b: Poly)
    requires |a| == N
    ensures |b| == N
  {
    HalvesN();
    Ntt(ROOT, a, 1, 7)
  }

  function RefInvNtt(a: Poly): (b: Poly)
    requires |a| == N
    ensures |b| == N
  {
    HalvesN();
    InvNtt(INVROOT, a, 1, 7)
  }

  lemma {:induction false} RefNttCong(a: Poly, b: Poly)
    requires |a| == |b| == N && SeqCong(a, b, Q)
    ensures SeqCong(RefNtt(a), RefNtt(b), Q)
  {
    HalvesN();
    NttCong(ROOT, a, b, 1, 7, Q);
  }

  lemma {:induction false} RefNttAdd(a: Poly, b: Poly)
    requires |a| == |b| == N
    ensures RefNtt(Add(a, b)) == Add(RefNtt(a), RefNtt(b))
  {
    HalvesN();
    NttAdd(ROOT, a, b, 1, 7);
  }

  lemma {:induction false} RefNttScale(c: int, a: Poly)
    requires |a| == N
    ensures RefNtt(Scale(c, a)) == Scale(c, RefNtt(a))
  {
    HalvesN();
    NttScale(ROOT, c, a, 1, 7);
  }

  lemma {:induction false} NttMeaning(a: Poly, b: Poly)
    requires |a| == |b| == N && SeqCong(a, b, Q)
    ensures SeqCong(PolyNtt(a), RefNtt(b), Q)
  {
    HalvesN();
    Twiddled();
    CodeNttCong(FORWARD, ROOT, a, b, 1, 7, Q);
    ReducedCong(NttCore(a));
    SeqCongTrans(PolyNtt(a), NttCore(a), RefNtt(b), Q);
  }

  lemma {:induction false} InvNttMeaning(a: Poly, b: Poly)
    requires |a| == |b| == N && SeqCong(a, b, Q)
    ensures SeqCong(PolyInvNtt(a), Scale(MONT_F * RINV, RefInvNtt(b)), Q)
  {
    HalvesN();
    var v := InvNttCore(a);
    assert SeqCong(v, RefInvNtt(b), Q) by {
      Twiddled();
      CodeInvNttCong(INVERSE, REDUCE, INVROOT, a, b, 1, 7, Q);
    }
    MontScaleCong(MONT_F, v);
    ScaleCong(MONT_F * RINV, MONT_F * RINV, v, RefInvNtt(b), Q);
    SeqCongTrans(PolyInvNtt(a), Scale(MONT_F * RINV, v), Scale(MONT_F * RINV, RefInvNtt(b)), Q);
  }

  lemma {:induction false} RefInvOfRef(b: Poly)
    requires |b| == N
    ensures SeqCong(RefInvNtt(RefNtt(b)), Scale(128, b), Q)
  {
    assert Pow2(7) == 128;
    HalvesN();
    InverseRoots();
    InvNttOfNtt(ROOT, INVROOT, b, 1, 1, 7, Q);
  }

  lemma {:induction false} RefOfRefInv(c: int, b: Poly)
    requires |b| == N
    ensures SeqCong(RefNtt(Scale(c, RefInvNtt(b))), Scale(c * 128, b), Q)
  {
    assert Pow2(7) == 128;
    HalvesN();
    InverseRoots();
    ScaledNttOfInv(ROOT, INVROOT, c, b, 1, 1, 7, Q);
  }

  /** The transform forgets nothing modulo Q. */
  lemma {:induction false} RefNttInjective(a: Poly, b: Poly)
    requires |a| == |b| == N && SeqCong(RefNtt(a), RefNtt(b), Q)
    ensures SeqCong(a, b, Q)
  {
    var x, y := RefInvNtt(RefNtt(a)), RefInvNtt(RefNtt(b));
    RefInvCong(RefNtt(a), RefNtt(b));
    RefInvOfRef(a);
    RefInvOfRef(b);
    SeqCongSym(x, Scale(128, a), Q);
    SeqCongTrans(Scale(128, a), x, y, Q);
    SeqCongTrans(Scale(128, a), y, Scale(128, b), Q);
    forall i | 0 <= i < N ensures Cong(a[i], b[i], Q) {
      assert Cong(Scale(128, a)[i], Scale(128, b)[i], Q);
      assert 128 * 3303 == 127 * Q + 1;
      CongCancel(a[i], b[i], 128, 3303, Q);
    }
  }

  lemma {:induction false} RefInvCong(a: Poly, b: Poly)
    requires |a| == |b| == N && SeqCong(a, b, Q)
    ensures SeqCong(RefInvNtt(a), RefInvNtt(b), Q)
  {
    HalvesN();
    InvNttCong(INVROOT, a, b, 1, 7, Q);
  }

  /** The transform of the inverse transform is the input times 2^16: the Montgomery factor of the products. */
  lemma {:induction false} RefOfPolyInv(a: Poly)
    requires |a| == N
    ensures SeqCong(RefNtt(PolyInvNtt(a)), Scale(R, a), Q)
  {
    var c := MONT_F * RINV;
    SeqCongSame(a, Q);
    InvNttMeaning(a, a);
    RefNttCong(PolyInvNtt(a), Scale(c, RefInvNtt(a)));
    RefOfRefInv(c, a);
    ScaleCong(c * 128, R, a, a, Q);
    SeqCongTrans(RefNtt(Scale(c, RefInvNtt(a))), Scale(c * 128, a), Scale(R, a), Q);
    SeqCongTrans(RefNtt(PolyInvNtt(a)), RefNtt(Scale(c, RefInvNtt(a))), Scale(R, a), Q);
  }

  /** Transform and inverse transform multiply by the Montgomery factor 2^16. */
  lemma {:induction false} InvNttOfNttIsR(a: Poly)
    requires |a| == N
    ensures SeqCong(PolyInvNtt(PolyNtt(a)), Scale(R, a), Q)
  {
    var b := PolyInvNtt(PolyNtt(a));
    RefOfPolyInv(PolyNtt(a));
    SeqCongSame(a, Q);
    NttMeaning(a, a);
    ScaleCong(R, R, PolyNtt(a), RefNtt(a), Q);
    RefNttScale(R, a);
    SeqCongTrans(RefNtt(b), Scale(R, PolyNtt(a)), RefNtt(Scale(R, a)), Q);
    RefNttInjective(b, Scale(R, a));
  }

  // ----- products of pairs

  lemma {:induction false} PairZetaRoot(p: int)
    ensures Cong(PAIRZETA(p), R * PAIRROOT(p), Q)
  {
    var k := 64 + p / 2;
    TableRoot(k);
    Negated(Zeta(k), ROOT(k));
  }

  lemma {:induction false} Negated(z: int, r: int)
    requires Cong(z, R * r, Q)
    ensures Cong(-z, R * -r, Q)
  {
    CongSub(0, 0, z, R * r, Q);
  }

  /** The source's products are the products of pairs, over the Montgomery factor. */
  lemma {:induction false} BasemulCong(a: Poly, b: Poly)
    requires |a| == |b| && |a| % 2 == 0
    ensures SeqCong(Basemul(a, b), Scale(RINV, Leaf(a, b)), Q)
  {
    forall p ensures Cong(PAIRZETA(p), R * PAIRROOT(p), Q) {
      PairZetaRoot(p);
    }
    PairwiseReducedCong(PAIRZETA, PAIRROOT, a, b);
  }

  /** Pair p below node k is the leaf of node k * 2^(t-1) + p / 2, left or right. */
  function LeafRoot(z: int -> int, k: int, t: nat, p: nat): int
    requires t > 0
  {
    var n := k * Pow2(t - 1) + p / 2;
    if p % 2 == 0 then z(n) else -z(n)
  }

  lemma {:induction false} LeafOfHalves(z: int -> int, k: int, t: nat, p: nat)
    requires t > 1 && p < Pow2(t)
    ensures p < Pow2(t - 1) ==> LeafRoot(z, k, t, p) == LeafRoot(z, 2 * k, t - 1, p)
    ensures p >= Pow2(t - 1) ==> LeafRoot(z, k, t, p) == LeafRoot(z, 2 * k + 1, t - 1, p - Pow2(t - 1))
  {
    var w := Pow2(t - 2);
    assert Pow2(t - 1) == 2 * w;
    assert k * (2 * w) == (2 * k) * w;
    assert (2 * k + 1) * w == (2 * k) * w + w;
    if p >= 2 * w {
      assert (p - 2 * w) / 2 == p / 2 - w && (p - 2 * w) % 2 == p % 2;
    }
  }

  lemma {:induction false} MulPair(a: Poly, b: Poly, r: int, i: nat)
    requires |a| == |b| == 2 && i < 2
    ensures Mul(a, b, r)[i] == QuadraticAt(a, b, r, i)
  {
    var s := Shift(b, r);
    assert s == [r * b[1], b[0]];
    assert Mul(a[1..], s, r) == Add(Scale(a[1], s), Mul(a[1..][1..], Shift(s, r), r));
    assert Mul(a[1..], s, r)[i] == a[1] * s[i] + 0;
    assert Mul(a, b, r)[i] == a[0] * b[i] + a[1] * s[i];
    assert a[1] * (r * b[1]) == r * (a[1] * b[1]);
  }

  /** The products at the leaves are products of pairs. */
  lemma {:induction false} LeafMulAt(z: int -> int, a: Poly, b: Poly, k: int, t: nat, r: int, i: nat)
    requires t > 0 && |a| == |b| == 2 * Pow2(t) && Halves(|a|, t) && i < |a|
    ensures LeafMul(z, a, b, k, t, r)[i] == QuadraticAt(a, b, LeafRoot(z, k, t, i / 2), i)
    decreases t, |a|
  {
    if i < |a| / 2 {
      LeafMulLow(z, a, b, k, t, r, i);
    } else {
      LeafMulHigh(z, a, b, k, t, r, i);
    }
  }

  lemma {:induction false} LeafMulLow(z: int -> int, a: Poly, b: Poly, k: int, t: nat, r: int, i: nat)
    requires t > 0 && |a| == |b| == 2 * Pow2(t) && Halves(|a|, t) && i < |a| / 2
    ensures LeafMul(z, a, b, k, t, r)[i] == QuadraticAt(a, b, LeafRoot(z, k, t, i / 2), i)
    decreases t, |a| - 1
  {
    LeafMulSplit(z, a, b, k, t, r, i);
    LeafMulOfHalf(z, Lo(a), Lo(b), 2 * k, t - 1, z(k), i);
    LeafOfLow(z, a, b, k, t, i);
  }

  lemma {:induction false} LeafMulHigh(z: int -> int, a: Poly, b: Poly, k: int, t: nat, r: int, i: nat)
    requires t > 0 && |a| == |b| == 2 * Pow2(t) && Halves(|a|, t) && |a| / 2 <= i < |a|
    ensures LeafMul(z, a, b, k, t, r)[i] == QuadraticAt(a, b, LeafRoot(z, k, t, i / 2), i)
    decreases t, |a| - 1
  {
    LeafMulSplit(z, a, b, k, t, r, i);
    LeafMulOfHalf(z, Hi(a), Hi(b), 2 * k + 1, t - 1, -z(k), i - |a| / 2);
    LeafOfHigh(z, a, b, k, t, i);
  }

  lemma {:induction false} LeafMulSplit(z: int -> int, a: Poly, b: Poly, k: int, t: nat, r: int, i: nat)
    requires t > 0 && |a| == |b| && Halves(|a|, t) && i < |a|
    ensures LeafMul(z, a, b, k, t, r)[i] ==
      if i < |a| / 2 then LeafMul(z, Lo(a), Lo(b), 2 * k, t - 1, z(k))[i]
      else LeafMul(z, Hi(a), Hi(b), 2 * k + 1, t - 1, -z(k))[i - |a| / 2]
  {
  }

  lemma {:induction false} LeafMulOfHalf(z: int -> int, a: Poly, b: Poly, k: int, t: nat, r: int, i: nat)
    requires |a| == |b| == 2 * Pow2(t) && Halves(|a|, t) && i < |a|
    ensures LeafMul(z, a, b, k, t, r)[i] == QuadraticAt(a, b, if t == 0 then r else LeafRoot(z, k, t, i / 2), i)
    decreases t, |a| + 1
  {
    if t == 0 {
      MulPair(a, b, r, i);
    } else {
      LeafMulAt(z, a, b, k, t, r, i);
    }
  }

  lemma {:induction false} LeafOfLow(z: int -> int, a: Poly, b: Poly, k: int, t: nat, i: nat)
    requires t > 0 && |a| == |b| == 2 * Pow2(t) && i < |a| / 2
    ensures QuadraticAt(Lo(a), Lo(b), if t == 1 then z(k) else LeafRoot(z, 2 * k, t - 1, i / 2), i)
         == QuadraticAt(a, b, LeafRoot(z, k, t, i / 2), i)
  {
    if t == 1 {
      assert Pow2(0) == 1 && Pow2(1) == 2;
    } else {
      LeafOfHalves(z, k, t, i / 2);
    }
  }

  lemma {:induction false} LeafOfHigh(z: int -> int, a: Poly, b: Poly, k: int, t: nat, i: nat)
    requires t > 0 && |a| == |b| == 2 * Pow2(t) && |a| / 2 <= i < |a|
    ensures QuadraticAt(Hi(a), Hi(b), if t == 1 then -z(k) else LeafRoot(z, 2 * k + 1, t - 1, (i - |a| / 2) / 2),
      i - |a| / 2)
         == QuadraticAt(a, b, LeafRoot(z, k, t, i / 2), i)
  {
    var h := |a| / 2;
    assert h == 2 * Pow2(t - 1);
    assert (i - h) / 2 == i / 2 - Pow2(t - 1) && (i - h) % 2 == i % 2;
    if t == 1 {
      assert Pow2(0) == 1 && Pow2(1) == 2;
    } else {
      LeafOfHalves(z, k, t, i / 2);
    }
  }

  lemma {:induction false} LeafIsLeafMul(a: Poly, b: Poly)
    requires |a| == |b| == N
    ensures Halves(N, 7) && LeafMul(ROOT, a, b, 1, 7, -1) == Leaf(a, b)
  {
    HalvesN();
    assert Pow2(7) == 128 && Pow2(6) == 64;
    var m := LeafMul(ROOT, a, b, 1, 7, -1);
    forall i: nat | i < N ensures m[i] == Leaf(a, b)[i] {
      LeafMulAt(ROOT, a, b, 1, 7, -1, i);
      assert LeafRoot(ROOT, 1, 7, i / 2) == PAIRROOT(i / 2);
    }
  }

  /** Transforming a product in Z[X]/(X^256 + 1) gives the product pair by pair. */
  lemma {:induction false} RefNttOfMul(a: Poly, b: Poly)
    requires |a| == |b| == N
    ensures SeqCong(RefNtt(Mul(a, b, -1)), Leaf(RefNtt(a), RefNtt(b)), Q)
  {
    HalvesN();
    Roots();
    NttOfMul(ROOT, a, b, 1, 7, -1, Q);
    LeafIsLeafMul(RefNtt(a), RefNtt(b));
  }

  /** Transform, multiply pair by pair, transform back: the product in Z_Q[X]/(X^256 + 1). */
  lemma {:induction false} NttMultiplies(a: Poly, b: Poly)
    requires |a| == |b| == N
    ensures SeqCong(PolyInvNtt(Basemul(PolyNtt(a), PolyNtt(b))), Mul(a, b, -1), Q)
  {
    var c, p := PolyInvNtt(Basemul(PolyNtt(a), PolyNtt(b))), Mul(a, b, -1);
    var x, y := Leaf(PolyNtt(a), PolyNtt(b)), Leaf(RefNtt(a), RefNtt(b));
    SeqCongSame(a, Q);
    SeqCongSame(b, Q);
    NttMeaning(a, a);
    NttMeaning(b, b);
    PairwiseCong(PAIRROOT, PolyNtt(a), RefNtt(a), PolyNtt(b), RefNtt(b), Q);
    RefOfPolyInv(Basemul(PolyNtt(a), PolyNtt(b)));
    BasemulCong(PolyNtt(a), PolyNtt(b));
    TimesR(Basemul(PolyNtt(a), PolyNtt(b)), x);
    RefNttOfMul(a, b);
    SeqCongTrans(RefNtt(c), Scale(R, Basemul(PolyNtt(a), PolyNtt(b))), x, Q);
    SeqCongTrans(RefNtt(c), x, y, Q);
    SeqCongSym(RefNtt(p), y, Q);
    SeqCongTrans(RefNtt(c), y, RefNtt(p), Q);
    RefNttInjective(c, p);
  }

  /** The Montgomery factor cancels. */
  lemma {:induction false} TimesR(a: Poly, b: Poly)
    requires SeqCong(a, Scale(RINV, b), Q)
    ensures SeqCong(Scale(R, a), b, Q)
  {
    ScaleCong(R, R, a, Scale(RINV, b), Q);
    ScaleScale(R, RINV, b);
    SeqCongSame(b, Q);
    ScaleCong(R * RINV, 1, b, b, Q);
    assert Scale(1, b) == b;
    SeqCongTrans(Scale(R, a), Scale(R * RINV, b), b, Q);
  }
}
