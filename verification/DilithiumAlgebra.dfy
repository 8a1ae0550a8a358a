/**
  Why verification works: in the transform domain, what the verifier computes is what the signer
  committed to, moved by the two challenge products the signer knows.
 */
module DilithiumAlgebra {
  import opened ModArith
  import opened PolyRing
  import opened NttTheory
  import opened DilithiumParams
  import opened DilithiumReduce
  import opened DilithiumNtt
  import opened DilithiumScheme

  // ----- the steps that change representatives only

  lemma {:induction false} ReducedCong(a: Poly)
    ensures SeqCong(Reduced(a), a, Q)
  {
    forall i | 0 <= i < |a| ensures Cong(Reduced(a)[i], a[i], Q) {
      Reduce32Cong(a[i]);
    }
  }

  lemma {:induction false} CanonicalCong(a: Poly)
    ensures SeqCong(Canonical(a), a, Q)
  {
    forall i | 0 <= i < |a| ensures Cong(Canonical(a)[i], a[i], Q) {
      if a[i] < 0 {
        CongIntro(a[i] + Q, a[i], Q, 1);
      }
    }
  }

  // ----- products seen in the transform domain

  lemma {:induction false} NttOfChallengeTimes(chat: Poly, shat: Poly)
    requires |chat| == |shat| == N
    ensures SeqCong(PolyNtt(ChallengeTimes(chat, shat)), Product(chat, shat), Q)
  {
    var p, x := Pointwise(chat, shat), Product(chat, shat);
    NttOfInvNttIsR(p);
    PointwiseCong(chat, shat);
    RescaleCong(R, RINV, p, x, 1);
    assert Scale(1, x) == x;
    SeqCongTrans(PolyNtt(PolyInvNtt(p)), Scale(R, p), x, Q);
  }

  /** The sum over a row of the products of coefficient l. */
  function DotAt(u: seq<Poly>, v: seq<Poly>, l: nat): int
    requires |u| == |v| && IsVec(u) && IsVec(v) && l < N
  {
    if u == [] then 0 else u[0][l] * v[0][l] + DotAt(u[1..], v[1..], l)
  }

  lemma {:induction false} AccumulateAt(u: seq<Poly>, v: seq<Poly>, l: nat)
    requires |u| == |v| && IsVec(u) && IsVec(v) && l < N
    ensures Cong(Accumulate(u, v)[l], RINV * DotAt(u, v, l), Q)
    decreases |u|
  {
    if u == [] {
    } else {
      var x, d := u[0][l] * v[0][l], DotAt(u[1..], v[1..], l);
      MontgomeryCong(x);
      AccumulateAt(u[1..], v[1..], l);
      CongAdd(MontgomeryReduce(x), x * RINV, Accumulate(u[1..], v[1..])[l], RINV * d, Q);
      assert x * RINV + RINV * d == RINV * (x + d);
    }
  }

  lemma {:induction false} UndoRinv(a: int, x: int)
    requires Cong(a, RINV * x, Q)
    ensures Cong(R * a, x, Q)
  {
    CongMul(R, R, a, RINV * x, Q);
    CongMul(R * RINV, 1, x, x, Q);
    assert R * (RINV * x) == (R * RINV) * x;
  }

  lemma {:induction false} NttOfRowTimes(row: seq<Poly>, v: seq<Poly>, l: nat)
    requires |row| == |v| && IsVec(row) && IsVec(v) && l < N
    ensures Cong(PolyNtt(RowTimes(row, v))[l], DotAt(row, v, l), Q)
  {
    var acc := Accumulate(row, v);
    var red := Reduced(acc);
    NttOfInvNttIsR(red);
    ReducedCong(acc);
    AccumulateAt(row, v, l);
    assert Cong(red[l], acc[l], Q);
    UndoRinv(red[l], DotAt(row, v, l));
    assert Cong(PolyNtt(RowTimes(row, v))[l], Scale(R, red)[l], Q);
  }

  /** The transform of x + c * y, one coefficient. */
  lemma {:induction false} NttLinearAt(a: Poly, x: Poly, c: int, y: Poly, l: nat)
    requires |a| == |x| == |y| == N && SeqCong(a, Add(x, Scale(c, y)), Q) && l < N
    ensures Cong(PolyNtt(a)[l], PolyNtt(x)[l] + c * PolyNtt(y)[l], Q)
  {
    NttLinear(a, x, c, y);
    assert Cong(PolyNtt(a)[l], Add(PolyNtt(x), Scale(c, PolyNtt(y)))[l], Q);
  }

  lemma {:induction false} NttOfResponse(chat: Poly, s1hat: Poly, y: Poly, l: nat)
    requires |chat| == |s1hat| == |y| == N && l < N
    ensures Cong(PolyNtt(Response(chat, s1hat, y))[l], PolyNtt(y)[l] + chat[l] * s1hat[l], Q)
  {
    var p := ChallengeTimes(chat, s1hat);
    ReducedCong(Add(p, y));
    assert Add(p, y) == Add(y, Scale(1, p));
    NttLinearAt(Response(chat, s1hat, y), y, 1, p, l);
    NttOfChallengeTimes(chat, s1hat);
    assert Cong(PolyNtt(p)[l], Product(chat, s1hat)[l], Q);
    CongAdd(PolyNtt(y)[l], PolyNtt(y)[l], PolyNtt(p)[l], chat[l] * s1hat[l], Q);
  }

  lemma {:induction false} ReplaceFirst(t: int, a: int, d: int, e: int)
    requires Cong(t, a + 1 * e, Q) && Cong(a, d, Q)
    ensures Cong(t, d + e, Q)
  {
    CongAdd(a, d, e, e, Q);
  }

  lemma {:induction false} NttOfPublicPoly(row: seq<Poly>, s1hat: seq<Poly>, s2: Poly, l: nat)
    requires |row| == |s1hat| && IsVec(row) && IsVec(s1hat) && |s2| == N && l < N
    ensures Cong(PolyNtt(PublicPoly(row, s1hat, s2))[l], DotAt(row, s1hat, l) + PolyNtt(s2)[l], Q)
  {
    var a := RowTimes(row, s1hat);
    CanonicalCong(Add(a, s2));
    assert Add(a, s2) == Add(a, Scale(1, s2));
    NttLinearAt(PublicPoly(row, s1hat, s2), a, 1, s2, l);
    NttOfRowTimes(row, s1hat, l);
    ReplaceFirst(PolyNtt(PublicPoly(row, s1hat, s2))[l], PolyNtt(a)[l], DotAt(row, s1hat, l), PolyNtt(s2)[l]);
  }

  lemma {:induction false} NttOfCommitment(row: seq<Poly>, yhat: seq<Poly>, l: nat)
    requires |row| == |yhat| && IsVec(row) && IsVec(yhat) && l < N
    ensures Cong(PolyNtt(Commitment(row, yhat))[l], DotAt(row, yhat, l), Q)
  {
    var a := RowTimes(row, yhat);
    CanonicalCong(a);
    assert a == Add(a, Scale(0, a));
    NttLinearAt(Commitment(row, yhat), a, 0, a, l);
    NttOfRowTimes(row, yhat, l);
  }

  // ----- the verifier's polynomial

  /** w moved by the challenge products: w - c s2 + c t0. */
  function Moved(w: Poly, chat: Poly, s2hat: Poly, t0hat: Poly): (a: Poly)
    requires |w| == |chat| == |s2hat| == |t0hat| == N
    ensures |a| == N
  {
    Add(Sub(w, ChallengeTimes(chat, s2hat)), ChallengeTimes(chat, t0hat))
  }

  lemma {:induction false} NttOfMoved(w: Poly, chat: Poly, s2hat: Poly, t0hat: Poly, l: nat)
    requires |w| == |chat| == |s2hat| == |t0hat| == N && l < N
    ensures Cong(PolyNtt(Moved(w, chat, s2hat, t0hat))[l], PolyNtt(w)[l] - chat[l] * s2hat[l] + chat[l] * t0hat[l], Q)
  {
    var p, q := ChallengeTimes(chat, s2hat), ChallengeTimes(chat, t0hat);
    var x := Sub(w, p);
    assert x == Add(w, Scale(-1, p));
    SeqCongSame(x, Q);
    NttLinearAt(x, w, -1, p, l);
    assert Add(x, q) == Add(x, Scale(1, q));
    SeqCongSame(Add(x, q), Q);
    NttLinearAt(Add(x, q), x, 1, q, l);
    NttOfChallengeTimes(chat, s2hat);
    NttOfChallengeTimes(chat, t0hat);
    assert Cong(PolyNtt(p)[l], Product(chat, s2hat)[l], Q) && Cong(PolyNtt(q)[l], Product(chat, t0hat)[l], Q);
    CongSub(PolyNtt(w)[l], PolyNtt(w)[l], PolyNtt(p)[l], chat[l] * s2hat[l], Q);
    CongAdd(PolyNtt(x)[l], PolyNtt(w)[l] - chat[l] * s2hat[l], PolyNtt(q)[l], chat[l] * t0hat[l], Q);
  }

  /** A row times the responses is the row times the masks plus the challenge times the row times s1. */
  lemma {:induction false} DotOfResponses(row: seq<Poly>, zhat: seq<Poly>, yhat: seq<Poly>, shat: seq<Poly>,
      chat: Poly, l: nat)
    requires |row| == |zhat| == |yhat| == |shat| && IsVec(row) && IsVec(zhat) && IsVec(yhat) && IsVec(shat)
    requires |chat| == N && l < N
    requires forall j :: 0 <= j < |row| ==> Cong(zhat[j][l], yhat[j][l] + chat[l] * shat[j][l], Q)
    ensures Cong(DotAt(row, zhat, l), DotAt(row, yhat, l) + chat[l] * DotAt(row, shat, l), Q)
    decreases |row|
  {
    if row == [] {
    } else {
      var a, c := row[0][l], chat[l];
      var y, s := yhat[0][l], shat[0][l];
      var dy, ds := DotAt(row[1..], yhat[1..], l), DotAt(row[1..], shat[1..], l);
      DotOfResponses(row[1..], zhat[1..], yhat[1..], shat[1..], chat, l);
      assert Cong(zhat[0][l], y + c * s, Q);
      CongMul(a, a, zhat[0][l], y + c * s, Q);
      CongAdd(a * zhat[0][l], a * (y + c * s), DotAt(row[1..], zhat[1..], l), dy + c * ds, Q);
      Regroup(a, c, y, s, dy, ds);
    }
  }

  lemma {:induction false} Regroup(a: int, c: int, y: int, s: int, dy: int, ds: int)
    ensures a * (y + c * s) + (dy + c * ds) == (a * y + dy) + c * (a * s + ds)
  {
  }

  /** The verifier's combination, one coefficient in the transform domain. */
  lemma {:induction false} VerifierAt(acc: int, pw: int, dz: int, dy: int, ds: int, c: int, t1: int, t0: int, s2: int,
      m: int)
    requires Cong(acc, RINV * dz, Q) && Cong(dz, dy + c * ds, Q)
    requires Cong(pw, c * t1 * RINV, Q) && Cong(t1 + t0, ds + s2, Q)
    requires Cong(m, dy - c * s2 + c * t0, Q)
    ensures Cong(acc - pw, RINV * m, Q)
  {
    CongSub(t1 + t0, ds + s2, t0, t0, Q);
    CongMul(c, c, t1, ds + s2 - t0, Q);
    CongSub(dz, dy + c * ds, c * t1, c * (ds + s2 - t0), Q);
    Cancel(c, dy, ds, s2, t0);
    assert Cong(dz - c * t1, m, Q);
    CongMul(RINV, RINV, dz - c * t1, m, Q);
    CongSub(acc, RINV * dz, pw, c * t1 * RINV, Q);
    assert RINV * dz - c * t1 * RINV == RINV * (dz - c * t1);
  }

  lemma {:induction false} Cancel(c: int, dy: int, ds: int, s2: int, t0: int)
    ensures (dy + c * ds) - c * (ds + s2 - t0) == dy - c * s2 + c * t0
  {
  }

  /** The secrets behind one row of a key: t = A s1 + s2 = 2^13 t1 + t0. */
  ghost predicate KeyRow(row: seq<Poly>, s1hat: seq<Poly>, s2: Poly, t1: Poly, t0: Poly) {
    && |row| == |s1hat| && IsVec(row) && IsVec(s1hat) && |s2| == |t1| == |t0| == N
    && SeqCong(PublicPoly(row, s1hat, s2), Add(Shifted(t1), t0), Q)
  }

  /** The verifier's polynomial is the commitment moved by the challenge products. */
  lemma {:induction false} VerifierSees(row: seq<Poly>, s1hat: seq<Poly>, s2: Poly, t1: Poly, t0: Poly,
                     y: seq<Poly>, chat: Poly, z: seq<Poly>)
    requires KeyRow(row, s1hat, s2, t1, t0)
    requires |y| == |z| == |row| && IsVec(y) && IsVec(z) && |chat| == N
    requires forall j :: 0 <= j < |row| ==> z[j] == Response(chat, s1hat[j], y[j])
    ensures SeqCong(VerifierPoly(row, VecNtt(z), chat, t1),
                    Moved(Commitment(row, VecNtt(y)), chat, PolyNtt(s2), PolyNtt(t0)), Q)
  {
    var zhat, yhat := VecNtt(z), VecNtt(y);
    var m := Moved(Commitment(row, yhat), chat, PolyNtt(s2), PolyNtt(t0));
    var t1hat := PolyNtt(Shifted(t1));
    var x := Sub(Accumulate(row, zhat), Pointwise(chat, t1hat));
    forall l | 0 <= l < N ensures Cong(x[l], RINV * PolyNtt(m)[l], Q) {
      VerifierCoefficient(row, s1hat, s2, t1, t0, y, chat, z, l);
    }
    ReducedCong(x);
    SeqCongTrans(Reduced(x), x, Scale(RINV, PolyNtt(m)), Q);
    InvNttOfScaledNtt(Reduced(x), m);
    CanonicalCong(PolyInvNtt(Reduced(x)));
    SeqCongTrans(VerifierPoly(row, zhat, chat, t1), PolyInvNtt(Reduced(x)), m, Q);
  }

  lemma {:induction false} VerifierCoefficient(row: seq<Poly>, s1hat: seq<Poly>, s2: Poly, t1: Poly, t0: Poly,
                            y: seq<Poly>, chat: Poly, z: seq<Poly>, l: nat)
    requires KeyRow(row, s1hat, s2, t1, t0) && l < N
    requires |y| == |z| == |row| && IsVec(y) && IsVec(z) && |chat| == N
    requires forall j :: 0 <= j < |row| ==> z[j] == Response(chat, s1hat[j], y[j])
    ensures Cong(Accumulate(row, VecNtt(z))[l] - Pointwise(chat, PolyNtt(Shifted(t1)))[l],
                 RINV * PolyNtt(Moved(Commitment(row, VecNtt(y)), chat, PolyNtt(s2), PolyNtt(t0)))[l], Q)
  {
    var w := Commitment(row, VecNtt(y));
    var c, t1l, t0l, s2l := chat[l], PolyNtt(Shifted(t1))[l], PolyNtt(t0)[l], PolyNtt(s2)[l];
    var dz, dy, ds := DotAt(row, VecNtt(z), l), DotAt(row, VecNtt(y), l), DotAt(row, s1hat, l);
    AccumulateAt(row, VecNtt(z), l);
    ResponsesAt(row, s1hat, y, chat, z, l);
    MontgomeryCong(c * t1l);
    PublicAt(row, s1hat, s2, t1, t0, l);
    MovedAt(row, y, chat, PolyNtt(s2), PolyNtt(t0), l);
    VerifierAt(Accumulate(row, VecNtt(z))[l], MontgomeryReduce(c * t1l), dz, dy, ds, c, t1l, t0l, s2l,
               PolyNtt(Moved(w, chat, PolyNtt(s2), PolyNtt(t0)))[l]);
  }

  lemma {:induction false} ResponsesAt(row: seq<Poly>, s1hat: seq<Poly>, y: seq<Poly>, chat: Poly, z: seq<Poly>, l: nat)
    requires |row| == |s1hat| == |y| == |z| && IsVec(row) && IsVec(s1hat) && IsVec(y) && IsVec(z) && |chat| == N
      && l < N
    requires forall j :: 0 <= j < |row| ==> z[j] == Response(chat, s1hat[j], y[j])
    ensures Cong(DotAt(row, VecNtt(z), l), DotAt(row, VecNtt(y), l) + chat[l] * DotAt(row, s1hat, l), Q)
  {
    var zhat, yhat := VecNtt(z), VecNtt(y);
    forall j | 0 <= j < |row| ensures Cong(zhat[j][l], yhat[j][l] + chat[l] * s1hat[j][l], Q) {
      NttOfResponse(chat, s1hat[j], y[j], l);
      assert zhat[j] == PolyNtt(Response(chat, s1hat[j], y[j])) && yhat[j] == PolyNtt(y[j]);
    }
    DotOfResponses(row, zhat, yhat, s1hat, chat, l);
  }

  lemma {:induction false} MovedAt(row: seq<Poly>, y: seq<Poly>, chat: Poly, s2hat: Poly, t0hat: Poly, l: nat)
    requires |row| == |y| && IsVec(row) && IsVec(y) && |chat| == |s2hat| == |t0hat| == N && l < N
    ensures Cong(PolyNtt(Moved(Commitment(row, VecNtt(y)), chat, s2hat, t0hat))[l],
                 DotAt(row, VecNtt(y), l) - chat[l] * s2hat[l] + chat[l] * t0hat[l], Q)
  {
    var w := Commitment(row, VecNtt(y));
    var e := chat[l] * t0hat[l] - chat[l] * s2hat[l];
    NttOfMoved(w, chat, s2hat, t0hat, l);
    NttOfCommitment(row, VecNtt(y), l);
    CongAdd(PolyNtt(w)[l], DotAt(row, VecNtt(y), l), e, e, Q);
  }

  lemma {:induction false} PublicAt(row: seq<Poly>, s1hat: seq<Poly>, s2: Poly, t1: Poly, t0: Poly, l: nat)
    requires KeyRow(row, s1hat, s2, t1, t0) && l < N
    ensures Cong(PolyNtt(Shifted(t1))[l] + PolyNtt(t0)[l], DotAt(row, s1hat, l) + PolyNtt(s2)[l], Q)
  {
    var t := PublicPoly(row, s1hat, s2);
    assert Scale(1, t0) == t0;
    NttLinearAt(t, Shifted(t1), 1, t0, l);
    NttOfPublicPoly(row, s1hat, s2, l);
  }
}
