/**
  What the computations of Dilithium mean in the ring of polynomials modulo X^256 + 1 and Q. The entries of the matrix
  are drawn in the transform domain; the polynomials they stand for are those with these transforms.
 */
module DilithiumMeaning {
  import opened ModArith
  import opened PolyRing
  import opened NttTheory
  import opened DilithiumParams
  import opened DilithiumReduce
  import opened DilithiumNtt
  import opened DilithiumScheme
  import opened DilithiumAlgebra

  /** a[0] z[0] + a[1] z[1] + ... */
  function SumOfProducts(a: seq<Poly>, z: seq<Poly>): (p: Poly)
    requires |a| == |z| && IsVec(a) && IsVec(z)
    ensures |p| == N
  {
    if a == [] then Zeros(N) else Add(Mul(a[0], z[0], -1), SumOfProducts(a[1..], z[1..]))
  }

  /** The row holds the transforms of the polynomials a. */
  ghost predicate StandsFor(row: seq<Poly>, a: seq<Poly>) {
    |row| == |a| && IsVec(row) && IsVec(a) && forall j :: 0 <= j < |a| ==> SeqCong(PolyNtt(a[j]), row[j], Q)
  }

  /** There are such polynomials, whatever the row. */
  lemma {:induction false} Untransformed(row: seq<Poly>) returns (a: seq<Poly>)
    requires IsVec(row)
    ensures StandsFor(row, a)
  {
    a := seq(|row|, j requires 0 <= j < |row| => Scale(RINV, PolyInvNtt(row[j])));
    forall j | 0 <= j < |row| ensures SeqCong(PolyNtt(a[j]), row[j], Q) {
      BackAgain(row[j]);
    }
  }

  lemma {:induction false} BackAgain(x: Poly)
    requires |x| == N
    ensures SeqCong(PolyNtt(Scale(RINV, PolyInvNtt(x))), x, Q)
  {
    var y := PolyInvNtt(x);
    NttOfScaled(RINV, y);
    NttOfInvNttIsR(x);
    RescaleCong(RINV, R, PolyNtt(y), x, 1);
    assert Scale(1, x) == x;
    SeqCongTrans(PolyNtt(Scale(RINV, y)), Scale(RINV, PolyNtt(y)), x, Q);
  }

  // ----- sums of products in the transform domain

  lemma {:induction false} NttOfSum(row: seq<Poly>, a: seq<Poly>, z: seq<Poly>, l: nat)
    requires StandsFor(row, a) && |a| == |z| && IsVec(z) && l < N
    ensures Cong(PolyNtt(SumOfProducts(a, z))[l], DotAt(row, VecNtt(z), l), Q)
    decreases |a|
  {
    if a == [] {
      NttOfZeros(l);
    } else {
      var p, s := Mul(a[0], z[0], -1), SumOfProducts(a[1..], z[1..]);
      NttOfSum(row[1..], a[1..], z[1..], l);
      assert VecNtt(z)[1..] == VecNtt(z[1..]);
      ProductAt(row[0], a[0], z[0], l);
      SumAt(p, s, l);
      CongAdd(PolyNtt(p)[l], row[0][l] * PolyNtt(z[0])[l], PolyNtt(s)[l], DotAt(row[1..], VecNtt(z[1..]), l), Q);
    }
  }

  lemma {:induction false} SumAt(p: Poly, s: Poly, l: nat)
    requires |p| == |s| == N && l < N
    ensures Cong(PolyNtt(Add(p, s))[l], PolyNtt(p)[l] + PolyNtt(s)[l], Q)
  {
    assert Scale(1, s) == s;
    SeqCongSame(Add(p, s), Q);
    NttLinearAt(Add(p, s), p, 1, s, l);
  }

  lemma {:induction false} NttOfZeros(l: nat)
    requires l < N
    ensures Cong(PolyNtt(Zeros(N))[l], 0, Q)
  {
    var z := Zeros(N);
    assert Scale(0, z) == z;
    NttOfScaled(0, z);
    assert Cong(PolyNtt(Scale(0, z))[l], Scale(0, PolyNtt(z))[l], Q);
  }

  lemma {:induction false} ProductAt(r: Poly, a: Poly, z: Poly, l: nat)
    requires |r| == |a| == |z| == N && SeqCong(PolyNtt(a), r, Q) && l < N
    ensures Cong(PolyNtt(Mul(a, z, -1))[l], r[l] * PolyNtt(z)[l], Q)
  {
    NttOfProduct(a, z);
    assert Cong(PolyNtt(a)[l], r[l], Q);
    CongMul(PolyNtt(a)[l], r[l], PolyNtt(z)[l], PolyNtt(z)[l], Q);
    assert Cong(PolyNtt(Mul(a, z, -1))[l], Product(PolyNtt(a), PolyNtt(z))[l], Q);
  }

  /** Polynomials with congruent transforms are congruent. */
  lemma {:induction false} NttInjective(x: Poly, y: Poly)
    requires |x| == |y| == N && SeqCong(PolyNtt(x), PolyNtt(y), Q)
    ensures SeqCong(x, y, Q)
  {
    var t := PolyNtt(x);
    SeqCongSame(t, Q);
    InvNttOfNttIsR(t, x);
    InvNttOfNttIsR(t, y);
    SeqCongSym(PolyInvNtt(t), Scale(R, x), Q);
    SeqCongTrans(Scale(R, x), PolyInvNtt(t), Scale(R, y), Q);
    RescaleCong(RINV, R, Scale(R, x), y, 1);
    RescaleCong(RINV, R, Scale(R, x), x, 1) by { SeqCongSame(Scale(R, x), Q); }
    assert Scale(1, x) == x && Scale(1, y) == y;
    SeqCongSym(Scale(RINV, Scale(R, x)), x, Q);
    SeqCongTrans(x, Scale(RINV, Scale(R, x)), y, Q);
  }

  // ----- keys, commitments, responses

  /** The public polynomial is A s1 + s2. */
  lemma {:induction false} PublicMeans(row: seq<Poly>, a: seq<Poly>, s1: seq<Poly>, s2: Poly)
    requires StandsFor(row, a) && |s1| == |a| && IsVec(s1) && |s2| == N
    ensures SeqCong(PublicPoly(row, VecNtt(s1), s2), Add(SumOfProducts(a, s1), s2), Q)
  {
    var t, u := PublicPoly(row, VecNtt(s1), s2), Add(SumOfProducts(a, s1), s2);
    forall l | 0 <= l < N ensures Cong(PolyNtt(t)[l], PolyNtt(u)[l], Q) {
      NttOfPublicPoly(row, VecNtt(s1), s2, l);
      NttOfSum(row, a, s1, l);
      SumAt(SumOfProducts(a, s1), s2, l);
      CongAdd(PolyNtt(SumOfProducts(a, s1))[l], DotAt(row, VecNtt(s1), l), PolyNtt(s2)[l], PolyNtt(s2)[l], Q);
    }
    NttInjective(t, u);
  }

  /** The commitment is A y. */
  lemma {:induction false} CommitmentMeans(row: seq<Poly>, a: seq<Poly>, y: seq<Poly>)
    requires StandsFor(row, a) && |y| == |a| && IsVec(y)
    ensures SeqCong(Commitment(row, VecNtt(y)), SumOfProducts(a, y), Q)
  {
    var w, u := Commitment(row, VecNtt(y)), SumOfProducts(a, y);
    forall l | 0 <= l < N ensures Cong(PolyNtt(w)[l], PolyNtt(u)[l], Q) {
      NttOfCommitment(row, VecNtt(y), l);
      NttOfSum(row, a, y, l);
    }
    NttInjective(w, u);
  }

  /** The response is y + c s1. */
  lemma {:induction false} ResponseMeans(c: Poly, s1: Poly, y: Poly)
    requires |c| == |s1| == |y| == N
    ensures SeqCong(Response(PolyNtt(c), PolyNtt(s1), y), Add(Mul(c, s1, -1), y), Q)
  {
    var p, m := ChallengeTimes(PolyNtt(c), PolyNtt(s1)), Mul(c, s1, -1);
    NttMultiplies(c, s1);
    ReducedCong(Add(p, y));
    forall l | 0 <= l < N ensures Cong(Add(p, y)[l], Add(m, y)[l], Q) {
      assert Cong(p[l], m[l], Q);
      CongAdd(p[l], m[l], y[l], y[l], Q);
    }
    SeqCongTrans(Reduced(Add(p, y)), Add(p, y), Add(m, y), Q);
  }

  // ----- the verifier

  /** A z - 2^13 c t1, one row. */
  function RingRow(a: seq<Poly>, z: seq<Poly>, c: Poly, t1: Poly): (v: Poly)
    requires |a| == |z| && IsVec(a) && IsVec(z) && |c| == |t1| == N
    ensures |v| == N
  {
    Sub(SumOfProducts(a, z), Scale(0x2000, Mul(c, t1, -1)))
  }

  lemma {:induction false} NttOfRingRow(row: seq<Poly>, a: seq<Poly>, z: seq<Poly>, c: Poly, t1: Poly, l: nat)
    requires StandsFor(row, a) && |a| == |z| && IsVec(z) && |c| == |t1| == N && l < N
    ensures Cong(PolyNtt(RingRow(a, z, c, t1))[l],
      DotAt(row, VecNtt(z), l) - 0x2000 * (PolyNtt(c)[l] * PolyNtt(t1)[l]), Q)
  {
    var s, m := SumOfProducts(a, z), Mul(c, t1, -1);
    var v := RingRow(a, z, c, t1);
    assert v == Add(s, Scale(-0x2000, m));
    SeqCongSame(v, Q);
    NttLinearAt(v, s, -0x2000, m, l);
    NttOfSum(row, a, z, l);
    SeqCongSame(PolyNtt(c), Q);
    ProductAt(PolyNtt(c), c, t1, l);
    CongMul(-0x2000, -0x2000, PolyNtt(m)[l], PolyNtt(c)[l] * PolyNtt(t1)[l], Q);
    CongAdd(PolyNtt(s)[l], DotAt(row, VecNtt(z), l), -0x2000 * PolyNtt(m)[l],
      -0x2000 * (PolyNtt(c)[l] * PolyNtt(t1)[l]), Q);
  }

  lemma {:induction false} ShiftedAt(t1: Poly, l: nat)
    requires |t1| == N && l < N
    ensures Cong(PolyNtt(Shifted(t1))[l], 0x2000 * PolyNtt(t1)[l], Q)
  {
    assert Shifted(t1) == Scale(0x2000, t1);
    NttOfScaled(0x2000, t1);
    assert Cong(PolyNtt(Scale(0x2000, t1))[l], Scale(0x2000, PolyNtt(t1))[l], Q);
  }

  lemma {:induction false} VerifierSum(acc: int, pw: int, dot: int, c: int, u: int, t: int, m: int)
    requires Cong(acc, RINV * dot, Q) && Cong(pw, c * u * RINV, Q) && Cong(u, 0x2000 * t, Q)
    requires Cong(m, dot - 0x2000 * (c * t), Q)
    ensures Cong(acc - pw, RINV * m, Q)
  {
    CongMul(c, c, u, 0x2000 * t, Q);
    assert c * (0x2000 * t) == 0x2000 * (c * t);
    CongSub(dot, dot, c * u, 0x2000 * (c * t), Q);
    CongTrans(dot - c * u, dot - 0x2000 * (c * t), m, Q);
    CongMul(RINV, RINV, dot - c * u, m, Q);
    CongSub(acc, RINV * dot, pw, c * u * RINV, Q);
    assert RINV * (dot - c * u) == RINV * dot - c * u * RINV;
  }

  lemma {:induction false} VerifierAtPlace(row: seq<Poly>, a: seq<Poly>, z: seq<Poly>, c: Poly, t1: Poly, l: nat)
    requires StandsFor(row, a) && |a| == |z| && IsVec(z) && |c| == |t1| == N && l < N
    ensures Cong(Accumulate(row, VecNtt(z))[l] - Pointwise(PolyNtt(c), PolyNtt(Shifted(t1)))[l],
      RINV * PolyNtt(RingRow(a, z, c, t1))[l], Q)
  {
    var x, u := PolyNtt(c)[l], PolyNtt(Shifted(t1))[l];
    AccumulateAt(row, VecNtt(z), l);
    MontgomeryCong(x * u);
    ShiftedAt(t1, l);
    NttOfRingRow(row, a, z, c, t1, l);
    VerifierSum(Accumulate(row, VecNtt(z))[l], MontgomeryReduce(x * u), DotAt(row, VecNtt(z), l), x, u, PolyNtt(t1)[l],
      PolyNtt(RingRow(a, z, c, t1))[l]);
  }

  /** The verifier's polynomial is that row. */
  lemma {:induction false} VerifierMeans(row: seq<Poly>, a: seq<Poly>, z: seq<Poly>, c: Poly, t1: Poly)
    requires StandsFor(row, a) && |a| == |z| && IsVec(z) && |c| == |t1| == N
    ensures SeqCong(VerifierPoly(row, VecNtt(z), PolyNtt(c), t1), RingRow(a, z, c, t1), Q)
  {
    var m := RingRow(a, z, c, t1);
    var x := Sub(Accumulate(row, VecNtt(z)), Pointwise(PolyNtt(c), PolyNtt(Shifted(t1))));
    forall l | 0 <= l < N ensures Cong(x[l], RINV * PolyNtt(m)[l], Q) {
      VerifierAtPlace(row, a, z, c, t1, l);
    }
    ReducedCong(x);
    SeqCongTrans(Reduced(x), x, Scale(RINV, PolyNtt(m)), Q);
    InvNttOfScaledNtt(Reduced(x), m);
    CanonicalCong(PolyInvNtt(Reduced(x)));
    SeqCongTrans(VerifierPoly(row, VecNtt(z), PolyNtt(c), t1), PolyInvNtt(Reduced(x)), m, Q);
  }
}
