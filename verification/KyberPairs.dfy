/** Products of polynomials pair by pair, as the Kyber code reduces them. */
module KyberPairs {
  import opened ModArith
  import opened PolyRing
  import opened PairRing
  import opened KyberParams
  import opened KyberReduce

  /** The same coefficient in the source: every product reduced, the root given times 2^16. */
  function ReducedAt(a: Poly, b: Poly, zeta: int, i: nat): int
    requires |a| == |b| && i / 2 * 2 + 1 < |a|
  {
    var p := i / 2;
    if i % 2 == 0 then
      MontgomeryReduce(MontgomeryReduce(a[2 * p + 1] * b[2 * p + 1]) * zeta) + MontgomeryReduce(a[2 * p] * b[2 * p])
    else MontgomeryReduce(a[2 * p] * b[2 * p + 1]) + MontgomeryReduce(a[2 * p + 1] * b[2 * p])
  }

  function PairwiseReduced(zeta: int -> int, a: Poly, b: Poly): (c: Poly)
    requires |a| == |b| && |a| % 2 == 0
    ensures |c| == |a|
  {
    seq(|a|, i requires 0 <= i < |a| => ReducedAt(a, b, zeta(i / 2), i))
  }

  lemma {:induction false} EvenCong(x: int, y: int, zeta: int, root: int)
    requires Cong(zeta, R * root, Q)
    ensures Cong(MontgomeryReduce(MontgomeryReduce(x) * zeta) + MontgomeryReduce(y), RINV * (y + root * x), Q)
  {
    var m := MontgomeryReduce(x);
    MontgomeryCong(x);
    MontgomeryCong(y);
    MontgomeryCong(m * zeta);
    CongMul(m, x * RINV, zeta, R * root, Q);
    CongMul(m * zeta, (x * RINV) * (R * root), RINV, RINV, Q);
    assert R * RINV == 1 + 3327 * Q;
    CongIntro(R * RINV, 1, Q, 3327);
    CongMul(R * RINV, 1, x * root * RINV, x * root * RINV, Q);
    assert ((x * RINV) * (R * root)) * RINV == (R * RINV) * (x * root * RINV);
    CongAdd(MontgomeryReduce(m * zeta), x * root * RINV, MontgomeryReduce(y), y * RINV, Q);
    assert x * root * RINV + y * RINV == RINV * (y + root * x);
  }

  lemma {:induction false} OddCong(x: int, y: int)
    ensures Cong(MontgomeryReduce(x) + MontgomeryReduce(y), RINV * (x + y), Q)
  {
    MontgomeryCong(x);
    MontgomeryCong(y);
    CongAdd(MontgomeryReduce(x), x * RINV, MontgomeryReduce(y), y * RINV, Q);
  }

  lemma {:induction false} ReducedAtCong(a: Poly, b: Poly, zeta: int, root: int, i: nat)
    requires |a| == |b| && i / 2 * 2 + 1 < |a| && Cong(zeta, R * root, Q)
    ensures Cong(ReducedAt(a, b, zeta, i), RINV * QuadraticAt(a, b, root, i), Q)
  {
    var p := i / 2;
    if i % 2 == 0 {
      EvenCong(a[2 * p + 1] * b[2 * p + 1], a[2 * p] * b[2 * p], zeta, root);
    } else {
      OddCong(a[2 * p] * b[2 * p + 1], a[2 * p + 1] * b[2 * p]);
    }
  }

  lemma {:induction false} PairwiseReducedCong(zeta: int -> int, root: int -> int, a: Poly, b: Poly)
    requires |a| == |b| && |a| % 2 == 0 && forall p :: Cong(zeta(p), R * root(p), Q)
    ensures SeqCong(PairwiseReduced(zeta, a, b), Scale(RINV, Pairwise(root, a, b)), Q)
  {
    forall i | 0 <= i < |a| ensures Cong(PairwiseReduced(zeta, a, b)[i], Scale(RINV, Pairwise(root, a, b))[i], Q) {
      ReducedAtCong(a, b, zeta(i / 2), root(i / 2), i);
    }
  }
}
