/**
  The number theoretic transform as a tree of reductions.

  Node k of the tree holds a polynomial modulo X^n - r. Given z(k) with z(k)^2 = r modulo q, it
  splits into X^(n/2) - z(k) at node 2k and X^(n/2) + z(k) at node 2k+1. The root is node 1 with
  r = -1, so the zeta tables of the source, read in order, are exactly the z(k). The reference
  transforms Ntt and InvNtt are over the integers; CodeNtt and CodeInvNtt are what the source
  computes, with its own reduced products, and are congruent to them modulo q.
 */
module NttTheory {
  import opened ModArith
  import opened PolyRing

  /** n can be halved t times. */
  predicate Halves(n: nat, t: nat) {
    t == 0 || (n % 2 == 0 && Halves(n / 2, t - 1))
  }

  function Lo(a: Poly): Poly { a[..|a| / 2] }

  function Hi(a: Poly): Poly { a[|a| / 2..] }

  /** The residues of a modulo the leaves below node k. */
  function Ntt(z: int -> int, a: Poly, k: int, t: nat): (b: Poly)
    requires Halves(|a|, t)
    ensures |b| == |a|
    decreases t, |a|
  {
    if t == 0 then a
    else Ntt(z, Fold(a, z(k)), 2 * k, t - 1) + Ntt(z, Fold(a, -z(k)), 2 * k + 1, t - 1)
  }

  /** Joins two residues, leaving a factor 2: undoes folding by z and by -z when v = 1/z. */
  function Join(x: Poly, y: Poly, v: int): (j: Poly)
    requires |x| == |y|
    ensures |j| == 2 * |x|
  {
    Add(x, y) + Scale(v, Sub(x, y))
  }

  /**
    The inverse transform, up to the factor 2^t. It walks the zeta table backwards: m counts nodes
    from the right end of their level, so the left child is 2m+1 and the right child 2m.
   */
  function InvNtt(v: int -> int, b: Poly, m: int, t: nat): (a: Poly)
    requires Halves(|b|, t)
    ensures |a| == |b|
    decreases t, |b|
  {
    if t == 0 then b
    else Join(InvNtt(v, Lo(b), 2 * m + 1, t - 1), InvNtt(v, Hi(b), 2 * m, t - 1), v(m))
  }

  /** Leaf by leaf products: what the source computes between transforms. */
  function LeafMul(z: int -> int, a: Poly, b: Poly, k: int, t: nat, r: int): (p: Poly)
    requires |a| == |b| && Halves(|a|, t)
    ensures |p| == |a|
    decreases t, |a|
  {
    if t == 0 then Mul(a, b, r)
    else LeafMul(z, Lo(a), Lo(b), 2 * k, t - 1, z(k)) + LeafMul(z, Hi(a), Hi(b), 2 * k + 1, t - 1, -z(k))
  }

  /** z(k) is a square root of r modulo q, and so on down the tree. */
  predicate RootTree(q: int, z: int -> int, k: int, r: int, t: nat)
    requires q > 0
    decreases t, z
  {
    t > 0 ==>
      && Cong(z(k) * z(k), r, q)
      && RootTree(q, z, 2 * k, z(k), t - 1)
      && RootTree(q, z, 2 * k + 1, -z(k), t - 1)
  }

  /** v at the mirrored node is the inverse of z at the node, modulo q. */
  predicate InverseTree(q: int, z: int -> int, v: int -> int, k: int, m: int, t: nat)
    requires q > 0
    decreases t, z
  {
    t > 0 ==>
      && Cong(z(k) * v(m), 1, q)
      && InverseTree(q, z, v, 2 * k, 2 * m + 1, t - 1)
      && InverseTree(q, z, v, 2 * k + 1, 2 * m, t - 1)
  }

  // ----- linearity

  lemma {:induction false} NttAdd(z: int -> int, a: Poly, b: Poly, k: int, t: nat)
    requires |a| == |b| && Halves(|a|, t)
    ensures Ntt(z, Add(a, b), k, t) == Add(Ntt(z, a, k, t), Ntt(z, b, k, t))
    decreases t
  {
    if t == 0 {
    } else {
      FoldAdd(a, b, z(k));
      FoldAdd(a, b, -z(k));
      NttAdd(z, Fold(a, z(k)), Fold(b, z(k)), 2 * k, t - 1);
      NttAdd(z, Fold(a, -z(k)), Fold(b, -z(k)), 2 * k + 1, t - 1);
      var x, y := Ntt(z, Fold(a, z(k)), 2 * k, t - 1), Ntt(z, Fold(a, -z(k)), 2 * k + 1, t - 1);
      var u, v := Ntt(z, Fold(b, z(k)), 2 * k, t - 1), Ntt(z, Fold(b, -z(k)), 2 * k + 1, t - 1);
      assert Ntt(z, Add(a, b), k, t) == Add(x, u) + Add(y, v);
      AddConcat(x, y, u, v);
    }
  }

  lemma {:induction false} AddConcat(a: Poly, b: Poly, c: Poly, d: Poly)
    requires |a| == |c| && |b| == |d|
    ensures Add(a + b, c + d) == Add(a, c) + Add(b, d)
  {
  }

  lemma {:induction false} NttScale(z: int -> int, c: int, a: Poly, k: int, t: nat)
    requires Halves(|a|, t)
    ensures Ntt(z, Scale(c, a), k, t) == Scale(c, Ntt(z, a, k, t))
    decreases t
  {
    if t == 0 {
    } else {
      FoldScale(c, a, z(k));
      FoldScale(c, a, -z(k));
      NttScale(z, c, Fold(a, z(k)), 2 * k, t - 1);
      NttScale(z, c, Fold(a, -z(k)), 2 * k + 1, t - 1);
      ScaleConcat(c, Ntt(z, Fold(a, z(k)), 2 * k, t - 1), Ntt(z, Fold(a, -z(k)), 2 * k + 1, t - 1));
    }
  }

  lemma {:induction false} ConcatCong(a: Poly, b: Poly, c: Poly, d: Poly, q: int)
    requires q > 0 && SeqCong(a, b, q) && SeqCong(c, d, q)
    ensures SeqCong(a + c, b + d, q)
  {
    forall i | 0 <= i < |a + c| ensures Cong((a + c)[i], (b + d)[i], q) {
      if i < |a| {
        assert Cong(a[i], b[i], q);
      } else {
        assert Cong(c[i - |a|], d[i - |a|], q);
      }
    }
  }

  lemma {:induction false} NttCong(z: int -> int, a: Poly, b: Poly, k: int, t: nat, q: int)
    requires q > 0 && Halves(|a|, t) && SeqCong(a, b, q)
    ensures SeqCong(Ntt(z, a, k, t), Ntt(z, b, k, t), q)
    decreases t
  {
    if t == 0 {
    } else {
      FoldCong(a, b, z(k), z(k), q);
      FoldCong(a, b, -z(k), -z(k), q);
      NttCong(z, Fold(a, z(k)), Fold(b, z(k)), 2 * k, t - 1, q);
      NttCong(z, Fold(a, -z(k)), Fold(b, -z(k)), 2 * k + 1, t - 1, q);
      ConcatCong(Ntt(z, Fold(a, z(k)), 2 * k, t - 1), Ntt(z, Fold(b, z(k)), 2 * k, t - 1),
                 Ntt(z, Fold(a, -z(k)), 2 * k + 1, t - 1), Ntt(z, Fold(b, -z(k)), 2 * k + 1, t - 1), q);
    }
  }

  lemma {:induction false} JoinCong(x: Poly, x': Poly, y: Poly, y': Poly, v: int, w: int, q: int)
    requires q > 0 && |x| == |y| && SeqCong(x, x', q) && SeqCong(y, y', q) && Cong(v, w, q)
    ensures SeqCong(Join(x, y, v), Join(x', y', w), q)
  {
    AddCong(x, x', y, y', q);
    SubCong(x, x', y, y', q);
    ScaleCong(v, w, Sub(x, y), Sub(x', y'), q);
    ConcatCong(Add(x, y), Add(x', y'), Scale(v, Sub(x, y)), Scale(w, Sub(x', y')), q);
  }

  lemma {:induction false} InvNttCong(v: int -> int, a: Poly, b: Poly, m: int, t: nat, q: int)
    requires q > 0 && Halves(|a|, t) && SeqCong(a, b, q)
    ensures SeqCong(InvNtt(v, a, m, t), InvNtt(v, b, m, t), q)
    decreases t
  {
    if t == 0 {
    } else {
      InvNttCong(v, Lo(a), Lo(b), 2 * m + 1, t - 1, q);
      InvNttCong(v, Hi(a), Hi(b), 2 * m, t - 1, q);
      JoinCong(InvNtt(v, Lo(a), 2 * m + 1, t - 1), InvNtt(v, Lo(b), 2 * m + 1, t - 1),
               InvNtt(v, Hi(a), 2 * m, t - 1), InvNtt(v, Hi(b), 2 * m, t - 1), v(m), v(m), q);
    }
  }

  // ----- the two transforms undo each other

  lemma {:induction false} FoldJoinAt(x: int, y: int, z: int, v: int, q: int)
    requires q > 0 && Cong(z * v, 1, q)
    ensures Cong((x + y) + z * (v * (x - y)), 2 * x, q)
    ensures Cong((x + y) + -z * (v * (x - y)), 2 * y, q)
  {
    CongMul(z * v, 1, x - y, x - y, q);
    assert z * (v * (x - y)) == (z * v) * (x - y);
    assert -z * (v * (x - y)) == -((z * v) * (x - y));
    CongAdd(x + y, x + y, (z * v) * (x - y), x - y, q);
    CongSub(x + y, x + y, (z * v) * (x - y), x - y, q);
  }

  /** Folding a joined pair by z gives back twice the left part, by -z twice the right part. */
  lemma {:induction false} FoldJoin(x: Poly, y: Poly, z: int, v: int, q: int)
    requires q > 0 && |x| == |y| && Cong(z * v, 1, q)
    ensures SeqCong(Fold(Join(x, y, v), z), Scale(2, x), q)
    ensures SeqCong(Fold(Join(x, y, v), -z), Scale(2, y), q)
  {
    var j, h := Join(x, y, v), |x|;
    forall i | 0 <= i < h
      ensures Cong(Fold(j, z)[i], 2 * x[i], q) && Cong(Fold(j, -z)[i], 2 * y[i], q)
    {
      assert j[i] == x[i] + y[i] && j[i + h] == v * (x[i] - y[i]);
      FoldJoinAt(x[i], y[i], z, v, q);
    }
  }

  lemma {:induction false} ScaledHalves(x: Poly, y: Poly, b: Poly, p: int, q: int)
    requires q > 0 && SeqCong(x, Scale(p, Lo(b)), q) && SeqCong(y, Scale(p, Hi(b)), q)
    ensures SeqCong(x + y, Scale(p, b), q)
  {
    ConcatCong(x, Scale(p, Lo(b)), y, Scale(p, Hi(b)), q);
    ScaleConcat(p, Lo(b), Hi(b));
    assert b == Lo(b) + Hi(b);
  }

  /** The transform of the inverse transform is the input times 2^t. */
  lemma {:induction false} NttOfInvNtt(z: int -> int, v: int -> int, b: Poly, k: int, m: int, t: nat, q: int)
    requires q > 0 && Halves(|b|, t) && InverseTree(q, z, v, k, m, t)
    ensures SeqCong(Ntt(z, InvNtt(v, b, m, t), k, t), Scale(Pow2(t), b), q)
    decreases t, 1
  {
    if t == 0 {
      assert Scale(1, b) == b;
    } else {
      var x, y := InvNtt(v, Lo(b), 2 * m + 1, t - 1), InvNtt(v, Hi(b), 2 * m, t - 1);
      FoldJoin(x, y, z(k), v(m), q);
      NttOfJoin(z, v, b, Join(x, y, v(m)), k, m, t, q);
    }
  }

  lemma {:induction false} NttOfJoin(z: int -> int, v: int -> int, b: Poly, j: Poly, k: int, m: int, t: nat, q: int)
    requires q > 0 && t > 0 && Halves(|b|, t) && |j| == |b|
    requires InverseTree(q, z, v, 2 * k, 2 * m + 1, t - 1) && InverseTree(q, z, v, 2 * k + 1, 2 * m, t - 1)
    requires SeqCong(Fold(j, z(k)), Scale(2, InvNtt(v, Lo(b), 2 * m + 1, t - 1)), q)
    requires SeqCong(Fold(j, -z(k)), Scale(2, InvNtt(v, Hi(b), 2 * m, t - 1)), q)
    ensures SeqCong(Ntt(z, j, k, t), Scale(Pow2(t), b), q)
    decreases t, 0
  {
    var lo, hi := Fold(j, z(k)), Fold(j, -z(k));
    NttHalf(z, v, Lo(b), lo, 2 * k, 2 * m + 1, t - 1, q);
    NttHalf(z, v, Hi(b), hi, 2 * k + 1, 2 * m, t - 1, q);
    ScaledHalves(Ntt(z, lo, 2 * k, t - 1), Ntt(z, hi, 2 * k + 1, t - 1), b, Pow2(t), q);
  }

  lemma {:induction false} NttHalf(z: int -> int, v: int -> int, b: Poly, f: Poly, k: int, m: int, t: nat, q: int)
    requires q > 0 && Halves(|b|, t) && InverseTree(q, z, v, k, m, t)
    requires SeqCong(f, Scale(2, InvNtt(v, b, m, t)), q)
    ensures SeqCong(Ntt(z, f, k, t), Scale(2 * Pow2(t), b), q)
    decreases t, 2
  {
    var x := InvNtt(v, b, m, t);
    NttCong(z, f, Scale(2, x), k, t, q);
    NttScale(z, 2, x, k, t);
    NttOfInvNtt(z, v, b, k, m, t, q);
    ScaleCong(2, 2, Ntt(z, x, k, t), Scale(Pow2(t), b), q);
    ScaleScale(2, Pow2(t), b);
  }

  lemma {:induction false} JoinFoldAt(x: int, y: int, z: int, v: int, q: int)
    requires q > 0 && Cong(z * v, 1, q)
    ensures (x + z * y) + (x + -z * y) == 2 * x
    ensures Cong(v * ((x + z * y) - (x + -z * y)), 2 * y, q)
  {
    calc {
      v * ((x + z * y) - (x + -z * y));
      v * (2 * (z * y));
      (z * v) * (2 * y);
    }
    CongMul(z * v, 1, 2 * y, 2 * y, q);
  }

  /** Joining the two folds of a gives back twice a. */
  lemma {:induction false} JoinFold(a: Poly, z: int, v: int, q: int)
    requires q > 0 && |a| % 2 == 0 && Cong(z * v, 1, q)
    ensures SeqCong(Join(Fold(a, z), Fold(a, -z), v), Scale(2, a), q)
  {
    var h := |a| / 2;
    var j := Join(Fold(a, z), Fold(a, -z), v);
    forall i | 0 <= i < |a| ensures Cong(j[i], 2 * a[i], q) {
      if i < h {
        JoinFoldAt(a[i], a[i + h], z, v, q);
      } else {
        JoinFoldAt(a[i - h], a[i], z, v, q);
      }
    }
  }

  lemma {:induction false} SubScale(c: int, x: Poly, y: Poly)
    requires |x| == |y|
    ensures Sub(Scale(c, x), Scale(c, y)) == Scale(c, Sub(x, y))
  {
    forall i | 0 <= i < |x| ensures c * x[i] - c * y[i] == c * (x[i] - y[i]) { }
  }

  lemma {:induction false} ScaleConcat(c: int, x: Poly, y: Poly)
    ensures Scale(c, x + y) == Scale(c, x) + Scale(c, y)
  {
  }

  lemma {:induction false} JoinScale(c: int, x: Poly, y: Poly, v: int)
    requires |x| == |y|
    ensures Join(Scale(c, x), Scale(c, y), v) == Scale(c, Join(x, y, v))
  {
    ScaleAdd(c, x, y);
    SubScale(c, x, y);
    ScaleScale(v, c, Sub(x, y));
    ScaleScale(c, v, Sub(x, y));
    assert v * c == c * v;
    ScaleConcat(c, Add(x, y), Scale(v, Sub(x, y)));
  }

  lemma {:induction false} JoinOfScaledFolds(a: Poly, z: int, v: int, p: int, q: int)
    requires q > 0 && |a| % 2 == 0 && Cong(z * v, 1, q)
    ensures SeqCong(Join(Scale(p, Fold(a, z)), Scale(p, Fold(a, -z)), v), Scale(2 * p, a), q)
  {
    JoinScale(p, Fold(a, z), Fold(a, -z), v);
    JoinFold(a, z, v, q);
    ScaleCong(p, p, Join(Fold(a, z), Fold(a, -z), v), Scale(2, a), q);
    ScaleScale(p, 2, a);
  }

  /** The inverse transform of the transform is the input times 2^t. */
  lemma {:induction false} InvNttOfNtt(z: int -> int, v: int -> int, a: Poly, k: int, m: int, t: nat, q: int)
    requires q > 0 && Halves(|a|, t) && InverseTree(q, z, v, k, m, t)
    ensures SeqCong(InvNtt(v, Ntt(z, a, k, t), m, t), Scale(Pow2(t), a), q)
    decreases t
  {
    if t == 0 {
      assert Scale(1, a) == a;
    } else {
      var x, y := Fold(a, z(k)), Fold(a, -z(k));
      var b, p := Ntt(z, a, k, t), Pow2(t - 1);
      assert Lo(b) == Ntt(z, x, 2 * k, t - 1) && Hi(b) == Ntt(z, y, 2 * k + 1, t - 1);
      InvNttOfNtt(z, v, x, 2 * k, 2 * m + 1, t - 1, q);
      InvNttOfNtt(z, v, y, 2 * k + 1, 2 * m, t - 1, q);
      JoinCong(InvNtt(v, Lo(b), 2 * m + 1, t - 1), Scale(p, x),
               InvNtt(v, Hi(b), 2 * m, t - 1), Scale(p, y), v(m), v(m), q);
      JoinOfScaledFolds(a, z(k), v(m), p, q);
    }
  }

  // ----- convolution

  /** Reducing a product modulo X^h - z is the product of the reductions, when z^2 = r modulo q. */
  lemma {:induction false} FoldMulCong(a: Poly, b: Poly, z: int, r: int, q: int)
    requires q > 0 && |a| == |b| && |b| % 2 == 0 && Cong(z * z, r, q)
    ensures SeqCong(Fold(Mul(a, b, r), z), Mul(Fold(a, z), Fold(b, z), z), q)
  {
    assert SeqCong(a, a, q) && SeqCong(b, b, q);
    MulCong(a, a, b, b, r, z * z, q);
    FoldCong(Mul(a, b, r), Mul(a, b, z * z), z, z, q);
    FoldIsHomomorphism(a, b, z);
  }

  /** The transform turns multiplication in Z_q[X]/(X^n - r) into multiplication leaf by leaf. */
  lemma {:induction false} NttOfMul(z: int -> int, a: Poly, b: Poly, k: int, t: nat, r: int, q: int)
    requires q > 0 && |a| == |b| && Halves(|a|, t) && RootTree(q, z, k, r, t)
    ensures SeqCong(Ntt(z, Mul(a, b, r), k, t), LeafMul(z, Ntt(z, a, k, t), Ntt(z, b, k, t), k, t, r), q)
    decreases t, 0
  {
    if t == 0 {
    } else {
      var w := z(k);
      assert (-w) * (-w) == w * w;
      NttOfMulHalf(z, a, b, w, 2 * k, t - 1, r, q);
      NttOfMulHalf(z, a, b, -w, 2 * k + 1, t - 1, r, q);
      var x, y := Ntt(z, a, k, t), Ntt(z, b, k, t);
      NttParts(z, a, k, t);
      NttParts(z, b, k, t);
      ConcatCong(Ntt(z, Fold(Mul(a, b, r), w), 2 * k, t - 1), LeafMul(z, Lo(x), Lo(y), 2 * k, t - 1, w),
                 Ntt(z, Fold(Mul(a, b, r), -w), 2 * k + 1, t - 1), LeafMul(z, Hi(x), Hi(y), 2 * k + 1, t - 1, -w), q);
    }
  }

  lemma {:induction false} NttParts(z: int -> int, a: Poly, k: int, t: nat)
    requires t > 0 && Halves(|a|, t)
    ensures Lo(Ntt(z, a, k, t)) == Ntt(z, Fold(a, z(k)), 2 * k, t - 1)
    ensures Hi(Ntt(z, a, k, t)) == Ntt(z, Fold(a, -z(k)), 2 * k + 1, t - 1)
  {
  }

  lemma {:induction false} NttOfMulHalf(z: int -> int, a: Poly, b: Poly, w: int, k: int, t: nat, r: int, q: int)
    requires q > 0 && |a| == |b| && |a| % 2 == 0 && Halves(|a| / 2, t)
    requires Cong(w * w, r, q) && RootTree(q, z, k, w, t)
    ensures SeqCong(Ntt(z, Fold(Mul(a, b, r), w), k, t),
                    LeafMul(z, Ntt(z, Fold(a, w), k, t), Ntt(z, Fold(b, w), k, t), k, t, w), q)
    decreases t, 1
  {
    FoldMulCong(a, b, w, r, q);
    NttCong(z, Fold(Mul(a, b, r), w), Mul(Fold(a, w), Fold(b, w), w), k, t, q);
    NttOfMul(z, Fold(a, w), Fold(b, w), k, t, w, q);
  }

  // ----- what the source computes

  /** One butterfly stage of the source, f(k, x) being its reduced product zeta[k] * x. */
  function LowHalf(f: (int, int) -> int, a: Poly, k: int): (x: Poly)
    ensures |x| == |a| / 2
  {
    seq(|a| / 2, j requires 0 <= j < |a| / 2 => a[j] + f(k, a[j + |a| / 2]))
  }

  function HighHalf(f: (int, int) -> int, a: Poly, k: int): (x: Poly)
    ensures |x| == |a| / 2
  {
    seq(|a| / 2, j requires 0 <= j < |a| / 2 => a[j] - f(k, a[j + |a| / 2]))
  }

  function CodeNtt(f: (int, int) -> int, a: Poly, k: int, t: nat): (b: Poly)
    requires Halves(|a|, t)
    ensures |b| == |a|
    decreases t, |a|
  {
    if t == 0 then a
    else CodeNtt(f, LowHalf(f, a, k), 2 * k, t - 1) + CodeNtt(f, HighHalf(f, a, k), 2 * k + 1, t - 1)
  }

  /** g reduces the sums, f(m, x) is the reduced product -zeta[m] * x. */
  function CodeJoin(f: (int, int) -> int, g: int -> int, x: Poly, y: Poly, m: int): (j: Poly)
    requires |x| == |y|
    ensures |j| == 2 * |x|
  {
    seq(|x|, i requires 0 <= i < |x| => g(x[i] + y[i])) + seq(|x|, i requires 0 <= i < |x| => f(m, x[i] - y[i]))
  }

  function CodeInvNtt(f: (int, int) -> int, g: int -> int, b: Poly, m: int, t: nat): (a: Poly)
    requires Halves(|b|, t)
    ensures |a| == |b|
    decreases t, |b|
  {
    if t == 0 then b
    else CodeJoin(f, g, CodeInvNtt(f, g, Lo(b), 2 * m + 1, t - 1), CodeInvNtt(f, g, Hi(b), 2 * m, t - 1), m)
  }

  /** f(k, x) is z(k) * x modulo q. */
  ghost predicate Twiddles(f: (int, int) -> int, z: int -> int, q: int)
    requires q > 0
  {
    forall k, x :: Cong(f(k, x), z(k) * x, q)
  }

  ghost predicate Reduces(g: int -> int, q: int)
    requires q > 0
  {
    forall x :: Cong(g(x), x, q)
  }

  lemma {:induction false} CodeNttCong(f: (int, int) -> int, z: int -> int, a: Poly, b: Poly, k: int, t: nat, q: int)
    requires q > 0 && Twiddles(f, z, q) && Halves(|a|, t) && SeqCong(a, b, q)
    ensures SeqCong(CodeNtt(f, a, k, t), Ntt(z, b, k, t), q)
    decreases t
  {
    if t == 0 {
    } else {
      HalvesCong(f, z, a, b, k, q);
      CodeNttCong(f, z, LowHalf(f, a, k), Fold(b, z(k)), 2 * k, t - 1, q);
      CodeNttCong(f, z, HighHalf(f, a, k), Fold(b, -z(k)), 2 * k + 1, t - 1, q);
      ConcatCong(CodeNtt(f, LowHalf(f, a, k), 2 * k, t - 1), Ntt(z, Fold(b, z(k)), 2 * k, t - 1),
                 CodeNtt(f, HighHalf(f, a, k), 2 * k + 1, t - 1), Ntt(z, Fold(b, -z(k)), 2 * k + 1, t - 1), q);
    }
  }

  lemma {:induction false} HalvesCong(f: (int, int) -> int, z: int -> int, a: Poly, b: Poly, k: int, q: int)
    requires q > 0 && Twiddles(f, z, q) && |a| % 2 == 0 && SeqCong(a, b, q)
    ensures SeqCong(LowHalf(f, a, k), Fold(b, z(k)), q) && SeqCong(HighHalf(f, a, k), Fold(b, -z(k)), q)
  {
    var h := |a| / 2;
    forall j | 0 <= j < h
      ensures Cong(LowHalf(f, a, k)[j], Fold(b, z(k))[j], q)
      ensures Cong(HighHalf(f, a, k)[j], Fold(b, -z(k))[j], q)
    {
      ButterflyCong(f(k, a[j + h]), z(k), a[j], a[j + h], b[j], b[j + h], q);
    }
  }

  lemma {:induction false} ButterflyCong(p: int, z: int, x: int, y: int, x': int, y': int, q: int)
    requires q > 0 && Cong(p, z * y, q) && Cong(x, x', q) && Cong(y, y', q)
    ensures Cong(x + p, x' + z * y', q) && Cong(x - p, x' + -z * y', q)
  {
    CongMul(z, z, y, y', q);
    CongAdd(x, x', p, z * y', q);
    CongSub(x, x', p, z * y', q);
    assert -z * y' == -(z * y');
  }

  lemma {:induction false} CodeInvNttCong(f: (int, int) -> int, g: int -> int, v: int -> int, a: Poly, b: Poly,
                                          m: int, t: nat, q: int)
    requires q > 0 && Twiddles(f, v, q) && Reduces(g, q) && Halves(|a|, t) && SeqCong(a, b, q)
    ensures SeqCong(CodeInvNtt(f, g, a, m, t), InvNtt(v, b, m, t), q)
    decreases t
  {
    if t == 0 {
    } else {
      CodeInvNttCong(f, g, v, Lo(a), Lo(b), 2 * m + 1, t - 1, q);
      CodeInvNttCong(f, g, v, Hi(a), Hi(b), 2 * m, t - 1, q);
      CodeJoinCong(f, g, v, CodeInvNtt(f, g, Lo(a), 2 * m + 1, t - 1), InvNtt(v, Lo(b), 2 * m + 1, t - 1),
                   CodeInvNtt(f, g, Hi(a), 2 * m, t - 1), InvNtt(v, Hi(b), 2 * m, t - 1), m, q);
    }
  }

  lemma {:induction false} CodeJoinCong(f: (int, int) -> int, g: int -> int, v: int -> int, x: Poly, x': Poly, y: Poly,
      y': Poly,
                     m: int, q: int)
    requires q > 0 && Twiddles(f, v, q) && Reduces(g, q)
    requires |x| == |y| && SeqCong(x, x', q) && SeqCong(y, y', q)
    ensures SeqCong(CodeJoin(f, g, x, y, m), Join(x', y', v(m)), q)
  {
    var h := |x|;
    var c, j := CodeJoin(f, g, x, y, m), Join(x', y', v(m));
    forall i | 0 <= i < |c| ensures Cong(c[i], j[i], q) {
      if i < h {
        CongAdd(x[i], x'[i], y[i], y'[i], q);
        assert Cong(g(x[i] + y[i]), x[i] + y[i], q);
      } else {
        var l := i - h;
        CongSub(x[l], x'[l], y[l], y'[l], q);
        CongMul(v(m), v(m), x[l] - y[l], x'[l] - y'[l], q);
        assert Cong(f(m, x[l] - y[l]), v(m) * (x[l] - y[l]), q);
      }
    }
  }

  // ----- what the source computes, end to end

  lemma {:induction false} ScaledNttOfInv(z: int -> int, v: int -> int, c: int, b: Poly, k: int, m: int, t: nat, q: int)
    requires q > 0 && Halves(|b|, t) && InverseTree(q, z, v, k, m, t)
    ensures SeqCong(Ntt(z, Scale(c, InvNtt(v, b, m, t)), k, t), Scale(c * Pow2(t), b), q)
  {
    var n := InvNtt(v, b, m, t);
    NttScale(z, c, n, k, t);
    NttOfInvNtt(z, v, b, k, m, t, q);
    ScaleCong(c, c, Ntt(z, n, k, t), Scale(Pow2(t), b), q);
    ScaleScale(c, Pow2(t), b);
  }

  /** The source's transform is linear modulo q. */
  lemma {:induction false} CodeNttLinear(f: (int, int) -> int, z: int -> int, a: Poly, x: Poly, c: int, y: Poly,
      k: int, t: nat, q: int)
    requires q > 0 && Twiddles(f, z, q) && |a| == |x| == |y| && Halves(|a|, t)
    requires SeqCong(a, Add(x, Scale(c, y)), q)
    ensures SeqCong(CodeNtt(f, a, k, t), Add(CodeNtt(f, x, k, t), Scale(c, CodeNtt(f, y, k, t))), q)
  {
    var u, w := Ntt(z, x, k, t), Ntt(z, y, k, t);
    var u', w' := CodeNtt(f, x, k, t), CodeNtt(f, y, k, t);
    SeqCongSame(x, q);
    SeqCongSame(y, q);
    CodeNttCong(f, z, a, Add(x, Scale(c, y)), k, t, q);
    NttAdd(z, x, Scale(c, y), k, t);
    NttScale(z, c, y, k, t);
    CodeNttCong(f, z, x, x, k, t, q);
    CodeNttCong(f, z, y, y, k, t, q);
    ScaleCong(c, c, w', w, q);
    AddCong(u', u, Scale(c, w'), Scale(c, w), q);
    SeqCongSym(Add(u', Scale(c, w')), Add(u, Scale(c, w)), q);
    SeqCongTrans(CodeNtt(f, a, k, t), Add(u, Scale(c, w)), Add(u', Scale(c, w')), q);
  }

  /** The source's transform turns ring products into leaf products. */
  lemma {:induction false} CodeNttOfMul(f: (int, int) -> int, z: int -> int, a: Poly, b: Poly, k: int, t: nat, r: int,
      q: int)
    requires q > 0 && Twiddles(f, z, q) && RootTree(q, z, k, r, t) && |a| == |b| && Halves(|a|, t)
    ensures SeqCong(CodeNtt(f, Mul(a, b, r), k, t), LeafMul(z, CodeNtt(f, a, k, t), CodeNtt(f, b, k, t), k, t, r), q)
  {
    var p := Mul(a, b, r);
    var x, y := Ntt(z, a, k, t), Ntt(z, b, k, t);
    SeqCongSame(a, q);
    SeqCongSame(b, q);
    SeqCongSame(p, q);
    CodeNttCong(f, z, p, p, k, t, q);
    NttOfMul(z, a, b, k, t, r, q);
    SeqCongTrans(CodeNtt(f, p, k, t), Ntt(z, p, k, t), LeafMul(z, x, y, k, t, r), q);
    CodeNttCong(f, z, a, a, k, t, q);
    CodeNttCong(f, z, b, b, k, t, q);
    SeqCongSym(CodeNtt(f, a, k, t), x, q);
    SeqCongSym(CodeNtt(f, b, k, t), y, q);
    LeafMulCong(z, x, CodeNtt(f, a, k, t), y, CodeNtt(f, b, k, t), k, t, r, q);
    SeqCongTrans(CodeNtt(f, p, k, t), LeafMul(z, x, y, k, t, r),
                 LeafMul(z, CodeNtt(f, a, k, t), CodeNtt(f, b, k, t), k, t, r), q);
  }

  lemma {:induction false} LeafMulCong(z: int -> int, a: Poly, a': Poly, b: Poly, b': Poly, k: int, t: nat, r: int,
      q: int)
    requires q > 0 && |a| == |b| && Halves(|a|, t) && SeqCong(a, a', q) && SeqCong(b, b', q)
    ensures SeqCong(LeafMul(z, a, b, k, t, r), LeafMul(z, a', b', k, t, r), q)
    decreases t
  {
    if t == 0 {
      MulCong(a, a', b, b', r, r, q);
    } else {
      LeafMulCong(z, Lo(a), Lo(a'), Lo(b), Lo(b'), 2 * k, t - 1, z(k), q);
      LeafMulCong(z, Hi(a), Hi(a'), Hi(b), Hi(b'), 2 * k + 1, t - 1, -z(k), q);
      ConcatCong(LeafMul(z, Lo(a), Lo(b), 2 * k, t - 1, z(k)), LeafMul(z, Lo(a'), Lo(b'), 2 * k, t - 1, z(k)),
                 LeafMul(z, Hi(a), Hi(b), 2 * k + 1, t - 1, -z(k)),
                   LeafMul(z, Hi(a'), Hi(b'), 2 * k + 1, t - 1, -z(k)), q);
    }
  }

  // ----- leaves of length one

  function Product(a: Poly, b: Poly): (c: Poly)
    requires |a| == |b|
    ensures |c| == |a|
  {
    seq(|a|, i requires 0 <= i < |a| => a[i] * b[i])
  }

  lemma {:induction false} ProductCong(a: Poly, a': Poly, b: Poly, b': Poly, q: int)
    requires q > 0 && |a| == |b| && SeqCong(a, a', q) && SeqCong(b, b', q)
    ensures SeqCong(Product(a, b), Product(a', b'), q)
  {
    forall i | 0 <= i < |a| ensures Cong(a[i] * b[i], a'[i] * b'[i], q) {
      CongMul(a[i], a'[i], b[i], b'[i], q);
    }
  }

  lemma {:induction false} ProductHalves(a: Poly, b: Poly)
    requires |a| == |b| && |a| % 2 == 0
    ensures Product(a, b) == Product(Lo(a), Lo(b)) + Product(Hi(a), Hi(b))
  {
  }

  lemma {:induction false} ConstantProduct(a: Poly, b: Poly, r: int)
    requires |a| == |b| == 1
    ensures Mul(a, b, r) == Product(a, b)
  {
    assert Mul(a[1..], Shift(b, r), r) == Zeros(1);
    assert Mul(a, b, r)[0] == a[0] * b[0] + 0;
  }

  lemma {:induction false} LeafMulIsProduct(z: int -> int, a: Poly, b: Poly, k: int, t: nat, r: int)
    requires |a| == |b| == Pow2(t) && Halves(|a|, t)
    ensures LeafMul(z, a, b, k, t, r) == Product(a, b)
    decreases t
  {
    if t == 0 {
      ConstantProduct(a, b, r);
    } else {
      LeafMulIsProduct(z, Lo(a), Lo(b), 2 * k, t - 1, z(k));
      LeafMulIsProduct(z, Hi(a), Hi(b), 2 * k + 1, t - 1, -z(k));
      LeafMulStep(z, a, b, k, t, r, Product(Lo(a), Lo(b)), Product(Hi(a), Hi(b)));
    }
  }

  lemma {:induction false} LeafMulStep(z: int -> int, a: Poly, b: Poly, k: int, t: nat, r: int, p: Poly, q: Poly)
    requires t > 0 && |a| == |b| && Halves(|a|, t)
    requires LeafMul(z, Lo(a), Lo(b), 2 * k, t - 1, z(k)) == p == Product(Lo(a), Lo(b))
    requires LeafMul(z, Hi(a), Hi(b), 2 * k + 1, t - 1, -z(k)) == q == Product(Hi(a), Hi(b))
    ensures LeafMul(z, a, b, k, t, r) == Product(a, b)
  {
    ProductHalves(a, b);
  }
}
