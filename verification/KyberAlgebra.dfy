/**
  Why decryption works: seen in the transform domain modulo Q, all matrix terms cancel and only the
  message and the noise remain.
 */
module KyberAlgebra {
  import opened ModArith
  import opened PolyRing
  import opened PairRing
  import opened KyberParams
  import opened KyberReduce
  import opened KyberNtt
  import opened KyberPke

  function D(u: seq<Poly>, v: seq<Poly>): (d: Poly)
    requires |u| == |v| && Vector(u, N) && Vector(v, N)
    ensures |d| == N
  {
    Dot(PAIRROOT, u, v, N)
  }

  function RefVec(v: seq<Poly>): (w: seq<Poly>)
    requires Vector(v, N)
    ensures |w| == |v| && Vector(w, N)
  {
    if v == [] then [] else [RefNtt(v[0])] + RefVec(v[1..])
  }

  predicate VecCong(u: seq<Poly>, v: seq<Poly>) {
    |u| == |v| && forall i :: 0 <= i < |u| ==> SeqCong(u[i], v[i], Q)
  }

  lemma {:induction false} RefVecAt(v: seq<Poly>, i: nat)
    requires Vector(v, N) && i < |v|
    ensures RefVec(v)[i] == RefNtt(v[i])
    decreases |v|
  {
    if i > 0 {
      RefVecAt(v[1..], i - 1);
    }
  }

  lemma {:induction false} VecNttMeaning(v: seq<Poly>)
    requires Vector(v, N)
    ensures VecCong(VecNtt(v), RefVec(v))
  {
    forall i: nat | i < |v| ensures SeqCong(VecNtt(v)[i], RefVec(v)[i], Q) {
      SeqCongSame(v[i], Q);
      NttMeaning(v[i], v[i]);
      RefVecAt(v, i);
    }
  }

  // ----- products

  lemma {:induction false} AccumulateCong(u: seq<Poly>, v: seq<Poly>)
    requires |u| == |v| && Vector(u, N) && Vector(v, N)
    ensures SeqCong(Accumulate(u, v), Scale(RINV, D(u, v)), Q)
    decreases |u|
  {
    if u == [] {
      assert Scale(RINV, Zeros(N)) == Zeros(N);
      SeqCongSame(Zeros(N), Q);
    } else {
      BasemulCong(u[0], v[0]);
      AccumulateCong(u[1..], v[1..]);
      AddCong(Basemul(u[0], v[0]), Scale(RINV, Leaf(u[0], v[0])), Accumulate(u[1..], v[1..]),
        Scale(RINV, D(u[1..], v[1..])), Q);
      ScaleAdd(RINV, Leaf(u[0], v[0]), D(u[1..], v[1..]));
    }
  }

  lemma {:induction false} DCong(u: seq<Poly>, u': seq<Poly>, v: seq<Poly>, v': seq<Poly>)
    requires Vector(u, N) && Vector(v, N) && |u| == |v| && Vector(u', N) && Vector(v', N) && VecCong(u, u')
      && VecCong(v, v')
    ensures SeqCong(D(u, v), D(u', v'), Q)
  {
    DotCong(PAIRROOT, u, u', v, v', N, Q);
  }

  /** A reduced product is the product of representatives, over the Montgomery factor. */
  lemma {:induction false} VecMulCong(u: seq<Poly>, u': seq<Poly>, v: seq<Poly>, v': seq<Poly>)
    requires Vector(u, N) && Vector(v, N) && |u| == |v| && Vector(u', N) && Vector(v', N) && VecCong(u, u')
      && VecCong(v, v')
    ensures SeqCong(VecMul(u, v), Scale(RINV, D(u', v')), Q)
  {
    ReducedCong(Accumulate(u, v));
    AccumulateCong(u, v);
    DCong(u, u', v, v');
    ScaleCong(RINV, RINV, D(u, v), D(u', v'), Q);
    SeqCongTrans(VecMul(u, v), Accumulate(u, v), Scale(RINV, D(u, v)), Q);
    SeqCongTrans(VecMul(u, v), Scale(RINV, D(u, v)), Scale(RINV, D(u', v')), Q);
  }

  lemma {:induction false} VecCongSame(v: seq<Poly>)
    ensures VecCong(v, v)
  {
    forall i | 0 <= i < |v| ensures SeqCong(v[i], v[i], Q) {
      SeqCongSame(v[i], Q);
    }
  }

  /** One polynomial of the public vector: A s + e. */
  lemma {:induction false} PublicCong(row: seq<Poly>, shat: seq<Poly>, s: seq<Poly>, ehat: Poly, e: Poly)
    requires |row| == |shat| == |s| && Vector(row, N) && Vector(shat, N) && Vector(s, N) && |ehat| == |e| == N
    requires VecCong(shat, s) && SeqCong(ehat, e, Q)
    ensures SeqCong(PublicPoly(row, shat, ehat), Add(D(row, s), e), Q)
  {
    var p, d := VecMul(row, shat), D(row, s);
    var m := MontScale(MONT_SQUARED, p);
    VecCongSame(row);
    VecMulCong(row, row, shat, s);
    MontScaleCong(MONT_SQUARED, p);
    ScaleCong(MONT_SQUARED * RINV, R, p, Scale(RINV, d), Q);
    SeqCongTrans(m, Scale(MONT_SQUARED * RINV, p), Scale(R, Scale(RINV, d)), Q);
    SeqCongSame(Scale(RINV, d), Q);
    TimesR(Scale(RINV, d), d);
    SeqCongTrans(m, Scale(R, Scale(RINV, d)), d, Q);
    AddCong(m, d, ehat, e, Q);
    ReducedCong(Add(m, ehat));
    SeqCongTrans(PublicPoly(row, shat, ehat), Add(m, ehat), Add(d, e), Q);
  }

  /** The product of two vectors, taken out of the transform domain and looked at in it. */
  lemma {:induction false} RefOfVecMul(u: seq<Poly>, u': seq<Poly>, v: seq<Poly>, v': seq<Poly>)
    requires Vector(u, N) && Vector(v, N) && |u| == |v| && Vector(u', N) && Vector(v', N) && VecCong(u, u')
      && VecCong(v, v')
    ensures SeqCong(RefNtt(PolyInvNtt(VecMul(u, v))), D(u', v'), Q)
  {
    RefOfPolyInv(VecMul(u, v));
    VecMulCong(u, u', v, v');
    TimesR(VecMul(u, v), D(u', v'));
    SeqCongTrans(RefNtt(PolyInvNtt(VecMul(u, v))), Scale(R, VecMul(u, v)), D(u', v'), Q);
  }

  /** One polynomial of the ciphertext: a row times r, plus an error. */
  lemma {:induction false} CipherCong(row: seq<Poly>, row': seq<Poly>, rhat: seq<Poly>, r: seq<Poly>, e: Poly)
    requires |row| == |rhat| && Vector(row, N) && Vector(row', N) && Vector(rhat, N) && Vector(r, N) && |e| == N
    requires VecCong(row, row') && VecCong(rhat, r)
    ensures SeqCong(RefNtt(CipherPoly(row, rhat, e)), Add(D(row', r), RefNtt(e)), Q)
  {
    var p := PolyInvNtt(VecMul(row, rhat));
    RefOfVecMul(row, row', rhat, r);
    ReducedCong(Add(p, e));
    RefNttCong(CipherPoly(row, rhat, e), Add(p, e));
    RefNttAdd(p, e);
    SeqCongSame(RefNtt(e), Q);
    AddCong(RefNtt(p), D(row', r), RefNtt(e), RefNtt(e), Q);
    SeqCongTrans(RefNtt(CipherPoly(row, rhat, e)), RefNtt(Add(p, e)), Add(D(row', r), RefNtt(e)), Q);
  }

  lemma {:induction false} SubIsAdd(a: Poly, b: Poly)
    requires |a| == |b|
    ensures Sub(a, b) == Add(a, Scale(-1, b))
  {
  }

  lemma {:induction false} RefNttSub(a: Poly, b: Poly)
    requires |a| == |b| == N
    ensures RefNtt(Sub(a, b)) == Sub(RefNtt(a), RefNtt(b))
  {
    SubIsAdd(a, b);
    RefNttScale(-1, b);
    RefNttAdd(a, Scale(-1, b));
    SubIsAdd(RefNtt(a), RefNtt(b));
  }

  lemma {:induction false} DecryptCong(s: seq<Poly>, s': seq<Poly>, u: seq<Poly>, v: Poly)
    requires |s| == |u| && Vector(s, N) && Vector(s', N) && Vector(u, N) && |v| == N && VecCong(s, s')
    ensures SeqCong(RefNtt(Decrypt(s, u, v)), Sub(RefNtt(v), D(s', RefVec(u))), Q)
  {
    var p := PolyInvNtt(VecMul(s, VecNtt(u)));
    VecNttMeaning(u);
    RefOfVecMul(s, s', VecNtt(u), RefVec(u));
    ReducedCong(Sub(v, p));
    RefNttCong(Decrypt(s, u, v), Sub(v, p));
    RefNttSub(v, p);
    SeqCongSame(RefNtt(v), Q);
    SubCong(RefNtt(v), RefNtt(v), RefNtt(p), D(s', RefVec(u)), Q);
    SeqCongTrans(RefNtt(Decrypt(s, u, v)), RefNtt(Sub(v, p)), Sub(RefNtt(v), D(s', RefVec(u))), Q);
  }

  // ----- products in the polynomial ring

  /** The scalar product of two vectors over Z[X]/(X^256 + 1). */
  function RingDot(x: seq<Poly>, y: seq<Poly>): (d: Poly)
    requires |x| == |y| && Vector(x, N) && Vector(y, N)
    ensures |d| == N
  {
    if x == [] then Zeros(N) else Add(Mul(x[0], y[0], -1), RingDot(x[1..], y[1..]))
  }

  lemma {:induction false} RefNttZeros()
    ensures RefNtt(Zeros(N)) == Zeros(N)
  {
    RefNttScale(0, Zeros(N));
    assert Scale(0, Zeros(N)) == Zeros(N);
    assert Scale(0, RefNtt(Zeros(N))) == Zeros(N);
  }

  lemma {:induction false} RefOfRingDot(x: seq<Poly>, y: seq<Poly>)
    requires |x| == |y| && Vector(x, N) && Vector(y, N)
    ensures SeqCong(RefNtt(RingDot(x, y)), D(RefVec(x), RefVec(y)), Q)
    decreases |x|
  {
    if x == [] {
      RefNttZeros();
      SeqCongSame(Zeros(N), Q);
    } else {
      RefNttOfMul(x[0], y[0]);
      RefOfRingDot(x[1..], y[1..]);
      RefNttAdd(Mul(x[0], y[0], -1), RingDot(x[1..], y[1..]));
      AddCong(RefNtt(Mul(x[0], y[0], -1)), Leaf(RefNtt(x[0]), RefNtt(y[0])), RefNtt(RingDot(x[1..], y[1..])),
        D(RefVec(x[1..]), RefVec(y[1..])), Q);
      assert RefVec(x)[1..] == RefVec(x[1..]) && RefVec(y)[1..] == RefVec(y[1..]);
    }
  }

  // ----- the cancellation

  lemma {:induction false} DotCommutes(u: seq<Poly>, v: seq<Poly>)
    requires |u| == |v| && Vector(u, N) && Vector(v, N)
    ensures D(u, v) == D(v, u)
    decreases |u|
  {
    if u != [] {
      PairwiseCommutes(PAIRROOT, u[0], v[0]);
      DotCommutes(u[1..], v[1..]);
    }
  }

  /** The message part of the ciphertext: the matrix term, the key error times r, and what was added. */
  lemma {:induction false} MessagePart(a: seq<seq<Poly>>, t: seq<Poly>, s: seq<Poly>, e: seq<Poly>, r: seq<Poly>)
    requires MatrixOf(a, |s|, N) && |a| == |t| == |e| == |r| && Vector(t, N) && Vector(s, N) && Vector(e, N)
      && Vector(r, N)
    requires VecCong(t, AddVec(MatVec(PAIRROOT, a, s, N), e, N))
    ensures SeqCong(D(t, r), Add(D(s, TransposeVec(PAIRROOT, a, r, |s|, N)), D(e, r)), Q)
  {
    var w := MatVec(PAIRROOT, a, s, N);
    VecCongSame(r);
    DCong(t, AddVec(w, e, N), r, r);
    DotCommutes(AddVec(w, e, N), r);
    DotAdd(PAIRROOT, r, w, e, N);
    DotCommutes(r, w);
    DotCommutes(r, e);
    Exchange(PAIRROOT, a, s, r, N);
  }

  /** The vector part, multiplied by the secret. */
  lemma {:induction false} VectorPart(a: seq<seq<Poly>>, s: seq<Poly>, r: seq<Poly>, f: seq<Poly>, u: seq<Poly>)
    requires MatrixOf(a, |s|, N) && |a| == |r| && |s| == |f| == |u| && Vector(s, N) && Vector(r, N) && Vector(f, N)
      && Vector(u, N)
    requires VecCong(u, AddVec(TransposeVec(PAIRROOT, a, r, |s|, N), f, N))
    ensures SeqCong(D(s, u), Add(D(s, TransposeVec(PAIRROOT, a, r, |s|, N)), D(s, f)), Q)
  {
    var w := TransposeVec(PAIRROOT, a, r, |s|, N);
    VecCongSame(s);
    DCong(s, s, u, AddVec(w, f, N));
    DotAdd(PAIRROOT, s, w, f, N);
  }

  /** What remains in one coefficient: mp = v - su, the matrix term w cancelling. */
  lemma {:induction false} CancelAt(mp: int, v: int, su: int, tr: int, w: int, er: int, sf: int, k: int)
    requires Cong(mp, v - su, Q) && Cong(v, tr + k, Q) && Cong(tr, w + er, Q) && Cong(su, w + sf, Q)
    ensures Cong(mp, k + er - sf, Q)
  {
    CongAdd(tr, w + er, k, k, Q);
    CongTrans(v, tr + k, w + er + k, Q);
    CongSub(v, w + er + k, su, w + sf, Q);
    CongTrans(mp, v - su, (w + er + k) - (w + sf), Q);
  }

  /**
    The noise: the two products of small vectors, the error of the message part, and the rounding of the
    ciphertext.
   */
  function Noise(s: seq<Poly>, e: seq<Poly>, r: seq<Poly>, f: seq<Poly>, g: Poly): (n: Poly)
    requires |s| == |e| == |r| == |f| && Vector(s, N) && Vector(e, N) && Vector(r, N) && Vector(f, N) && |g| == N
    ensures |n| == N
  {
    Add(Sub(RingDot(e, r), RingDot(s, f)), g)
  }

  lemma {:induction false} RefOfNoise(s: seq<Poly>, e: seq<Poly>, r: seq<Poly>, f: seq<Poly>, g: Poly, k: Poly)
    requires |s| == |e| == |r| == |f| && Vector(s, N) && Vector(e, N) && Vector(r, N) && Vector(f, N) && |g| == |k| == N
    ensures SeqCong(RefNtt(Add(k, Noise(s, e, r, f, g))),
                    Add(RefNtt(Add(k, g)), Sub(D(RefVec(e), RefVec(r)), D(RefVec(s), RefVec(f)))), Q)
  {
    var x, y := RingDot(e, r), RingDot(s, f);
    assert Add(k, Noise(s, e, r, f, g)) == Add(Add(k, g), Sub(x, y));
    RefNttAdd(Add(k, g), Sub(x, y));
    RefNttSub(x, y);
    RefOfRingDot(e, r);
    RefOfRingDot(s, f);
    SubCong(RefNtt(x), D(RefVec(e), RefVec(r)), RefNtt(y), D(RefVec(s), RefVec(f)), Q);
    SeqCongSame(RefNtt(Add(k, g)), Q);
    AddCong(RefNtt(Add(k, g)), RefNtt(Add(k, g)), Sub(RefNtt(x), RefNtt(y)),
      Sub(D(RefVec(e), RefVec(r)), D(RefVec(s), RefVec(f))), Q);
  }

  /**
    Decryption leaves the message polynomial k and the noise: s, e, r, f, g are the secret, the key
    error, the ephemeral vector, and the errors on the two parts of the ciphertext, rounding included.
   */
  lemma {:induction false} OnlyNoiseRemains(a: seq<seq<Poly>>, t: seq<Poly>, s: seq<Poly>, e: seq<Poly>, r: seq<Poly>,
                                            f: seq<Poly>, g: Poly, k: Poly, shat: seq<Poly>, u: seq<Poly>, v: Poly)
    requires |a| == |t| == |s| == |e| == |r| == |f| == |u| == |shat| && MatrixOf(a, |s|, N)
    requires Vector(t, N) && Vector(s, N) && Vector(e, N) && Vector(r, N) && Vector(f, N) && Vector(u, N)
      && Vector(shat, N)
    requires |g| == |k| == |v| == N
    requires VecCong(shat, RefVec(s)) && VecCong(t, AddVec(MatVec(PAIRROOT, a, RefVec(s), N), RefVec(e), N))
    requires VecCong(RefVec(u), AddVec(TransposeVec(PAIRROOT, a, RefVec(r), |s|, N), RefVec(f), N))
    requires SeqCong(RefNtt(v), Add(D(t, RefVec(r)), RefNtt(Add(k, g))), Q)
    ensures SeqCong(Decrypt(shat, u, v), Add(k, Noise(s, e, r, f, g)), Q)
  {
    var mp := Decrypt(shat, u, v);
    var S, E, Rv, F, U := RefVec(s), RefVec(e), RefVec(r), RefVec(f), RefVec(u);
    var w, su, tr := D(S, TransposeVec(PAIRROOT, a, Rv, |s|, N)), D(S, U), D(t, Rv);
    var kg := RefNtt(Add(k, g));
    var all := Add(kg, Sub(D(E, Rv), D(S, F)));
    DecryptCong(shat, S, u, v);
    MessagePart(a, t, S, E, Rv);
    VectorPart(a, S, Rv, F, U);
    CancelAll(RefNtt(mp), RefNtt(v), su, tr, w, D(E, Rv), D(S, F), kg);
    RefOfNoise(s, e, r, f, g, k);
    SeqCongSym(RefNtt(Add(k, Noise(s, e, r, f, g))), all, Q);
    SeqCongTrans(RefNtt(mp), all, RefNtt(Add(k, Noise(s, e, r, f, g))), Q);
    RefNttInjective(mp, Add(k, Noise(s, e, r, f, g)));
  }

  lemma {:induction false} CancelAll(mp: Poly, v: Poly, su: Poly, tr: Poly, w: Poly, er: Poly, sf: Poly, k: Poly)
    requires |mp| == |v| == |su| == |tr| == |w| == |er| == |sf| == |k|
    requires SeqCong(mp, Sub(v, su), Q) && SeqCong(v, Add(tr, k), Q) && SeqCong(tr, Add(w, er), Q)
      && SeqCong(su, Add(w, sf), Q)
    ensures SeqCong(mp, Add(k, Sub(er, sf)), Q)
  {
    forall l | 0 <= l < |mp| ensures Cong(mp[l], Add(k, Sub(er, sf))[l], Q) {
      assert Cong(mp[l], Sub(v, su)[l], Q) && Cong(v[l], Add(tr, k)[l], Q) && Cong(tr[l], Add(w, er)[l], Q)
        && Cong(su[l], Add(w, sf)[l], Q);
      CancelAt(mp[l], v[l], su[l], tr[l], w[l], er[l], sf[l], k[l]);
    }
  }
}
