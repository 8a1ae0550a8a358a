/**
  Polynomials as coefficient sequences, and the ring Z[X] / (X^n - r).

  Multiplication is the schoolbook one: a(X) * b = sum of a[j] * X^j * b, where multiplying by X
  moves every coefficient up by one and brings the last one round with a factor r. The lattice
  schemes use r = -1 (X^256 = -1).
 */
module PolyRing {
  import opened ModArith

  type Poly = seq<int>

  function Add(a: Poly, b: Poly): (c: Poly)
    requires |a| == |b|
    ensures |c| == |a|
  {
    seq(|a|, i requires 0 <= i < |a| => a[i] + b[i])
  }

  function Sub(a: Poly, b: Poly): (c: Poly)
    requires |a| == |b|
    ensures |c| == |a|
  {
    seq(|a|, i requires 0 <= i < |a| => a[i] - b[i])
  }

  function Scale(c: int, a: Poly): (s: Poly)
    ensures |s| == |a|
  {
    seq(|a|, i requires 0 <= i < |a| => c * a[i])
  }

  function Zeros(n: nat): (z: Poly)
    ensures |z| == n
  {
    seq(n, _ => 0)
  }

  /** X * b in Z[X] / (X^|b| - r). */
  function Shift(b: Poly, r: int): (s: Poly)
    ensures |s| == |b|
  {
    if b == [] then [] else [r * b[|b| - 1]] + b[..|b| - 1]
  }

  /** a * b in Z[X] / (X^|b| - r), for a polynomial a of any length. */
  function Mul(a: Poly, b: Poly, r: int): (p: Poly)
    ensures |p| == |b|
    decreases |a|
  {
    if a == [] then Zeros(|b|) else Add(Scale(a[0], b), Mul(a[1..], Shift(b, r), r))
  }

  /** Reduction of a modulo X^h - z, where h is half the length of a. */
  function Fold(a: Poly, z: int): (f: Poly)
    ensures |f| == |a| / 2
  {
    seq(|a| / 2, j requires 0 <= j < |a| / 2 => a[j] + z * a[j + |a| / 2])
  }

  // ----- linearity

  /** (a + b) + (c + d) == (a + c) + (b + d), coefficient by coefficient. */
  lemma {:induction false} AddSwap(a: Poly, b: Poly, c: Poly, d: Poly)
    requires |a| == |b| == |c| == |d|
    ensures Add(Add(a, b), Add(c, d)) == Add(Add(a, c), Add(b, d))
  {
  }

  lemma {:induction false} ScaleAdd(c: int, a: Poly, b: Poly)
    requires |a| == |b|
    ensures Scale(c, Add(a, b)) == Add(Scale(c, a), Scale(c, b))
  {
    forall i | 0 <= i < |a| ensures c * (a[i] + b[i]) == c * a[i] + c * b[i] { }
  }

  lemma {:induction false} ScaleSum(c: int, d: int, a: Poly)
    ensures Scale(c + d, a) == Add(Scale(c, a), Scale(d, a))
  {
    forall i | 0 <= i < |a| ensures (c + d) * a[i] == c * a[i] + d * a[i] { }
  }

  lemma {:induction false} ScaleScale(c: int, d: int, a: Poly)
    ensures Scale(c, Scale(d, a)) == Scale(c * d, a)
  {
    forall i | 0 <= i < |a| ensures c * (d * a[i]) == (c * d) * a[i] { }
  }

  lemma {:induction false} ShiftScale(c: int, a: Poly, r: int)
    ensures Shift(Scale(c, a), r) == Scale(c, Shift(a, r))
  {
    if a != [] {
      var n := |a| - 1;
      assert r * (c * a[n]) == c * (r * a[n]);
    }
  }

  lemma {:induction false} FoldAdd(a: Poly, b: Poly, z: int)
    requires |a| == |b|
    ensures Fold(Add(a, b), z) == Add(Fold(a, z), Fold(b, z))
  {
    var h := |a| / 2;
    forall j | 0 <= j < h ensures Fold(Add(a, b), z)[j] == Fold(a, z)[j] + Fold(b, z)[j] {
      assert z * (a[j + h] + b[j + h]) == z * a[j + h] + z * b[j + h];
    }
  }

  lemma {:induction false} FoldScale(c: int, a: Poly, z: int)
    ensures Fold(Scale(c, a), z) == Scale(c, Fold(a, z))
  {
    var h := |a| / 2;
    forall j | 0 <= j < h ensures Fold(Scale(c, a), z)[j] == c * Fold(a, z)[j] {
      assert c * a[j] + z * (c * a[j + h]) == c * (a[j] + z * a[j + h]);
    }
  }

  lemma {:induction false} FoldZeros(n: nat, z: int)
    ensures Fold(Zeros(n), z) == Zeros(n / 2)
  {
  }

  lemma {:induction false} MulScaleRight(a: Poly, c: int, b: Poly, r: int)
    ensures Mul(a, Scale(c, b), r) == Scale(c, Mul(a, b, r))
    decreases |a|
  {
    if a == [] {
    } else {
      ShiftScale(c, b, r);
      MulScaleRight(a[1..], c, Shift(b, r), r);
      ScaleScale(a[0], c, b);
      ScaleScale(c, a[0], b);
      ScaleAdd(c, Scale(a[0], b), Mul(a[1..], Shift(b, r), r));
      assert a[0] * c == c * a[0];
    }
  }

  lemma {:induction false} MulAddLeft(a: Poly, b: Poly, c: Poly, r: int)
    requires |a| == |b|
    ensures Mul(Add(a, b), c, r) == Add(Mul(a, c, r), Mul(b, c, r))
    decreases |a|
  {
    if a == [] {
    } else {
      var c' := Shift(c, r);
      calc {
        Mul(Add(a, b), c, r);
        { assert Add(a, b)[1..] == Add(a[1..], b[1..]); }
        Add(Scale(a[0] + b[0], c), Mul(Add(a[1..], b[1..]), c', r));
        { ScaleSum(a[0], b[0], c); MulAddLeft(a[1..], b[1..], c', r); }
        Add(Add(Scale(a[0], c), Scale(b[0], c)), Add(Mul(a[1..], c', r), Mul(b[1..], c', r)));
        { AddSwap(Scale(a[0], c), Scale(b[0], c), Mul(a[1..], c', r), Mul(b[1..], c', r)); }
        Add(Mul(a, c, r), Mul(b, c, r));
      }
    }
  }

  lemma {:induction false} MulScaleLeft(c: int, a: Poly, b: Poly, r: int)
    ensures Mul(Scale(c, a), b, r) == Scale(c, Mul(a, b, r))
    decreases |a|
  {
    if a == [] {
    } else {
      assert Scale(c, a)[1..] == Scale(c, a[1..]);
      MulScaleLeft(c, a[1..], Shift(b, r), r);
      ScaleScale(c, a[0], b);
      ScaleAdd(c, Scale(a[0], b), Mul(a[1..], Shift(b, r), r));
    }
  }

  // ----- splitting X^2h - z^2 into (X^h - z)(X^h + z)

  lemma {:induction false} FoldShiftFirst(b: Poly, z: int)
    requires |b| % 2 == 0 && b != []
    ensures Fold(Shift(b, z * z), z)[0] == Shift(Fold(b, z), z)[0]
  {
    var h := |b| / 2;
    var x, y := b[h - 1], b[2 * h - 1];
    assert Fold(Shift(b, z * z), z)[0] == (z * z) * y + z * x;
    assert Fold(b, z)[h - 1] == x + z * y;
    assert Shift(Fold(b, z), z)[0] == z * (x + z * y);
    assert (z * z) * y + z * x == z * (x + z * y);
  }

  lemma {:induction false} ShiftAt(b: Poly, r: int, j: nat)
    requires 0 < j < |b|
    ensures Shift(b, r)[j] == b[j - 1]
  {
  }

  lemma {:induction false} FoldShiftAt(b: Poly, z: int, r: int, j: nat)
    requires |b| % 2 == 0 && 0 < j < |b| / 2
    ensures Fold(Shift(b, r), z)[j] == Shift(Fold(b, z), z)[j]
  {
    var h := |b| / 2;
    var s, f := Shift(b, r), Fold(b, z);
    ShiftAt(b, r, j);
    ShiftAt(b, r, j + h);
    ShiftAt(f, z, j);
    assert Fold(s, z)[j] == s[j] + z * s[j + h];
    assert f[j - 1] == b[j - 1] + z * b[j - 1 + h];
  }

  /** Reducing modulo X^h - z commutes with multiplication by X. */
  lemma {:induction false} FoldShift(b: Poly, z: int)
    requires |b| % 2 == 0
    ensures Fold(Shift(b, z * z), z) == Shift(Fold(b, z), z)
  {
    forall j | 0 <= j < |b| / 2 ensures Fold(Shift(b, z * z), z)[j] == Shift(Fold(b, z), z)[j] {
      if j == 0 {
        FoldShiftFirst(b, z);
      } else {
        FoldShiftAt(b, z, z * z, j);
      }
    }
  }

  lemma {:induction false} FoldMul(a: Poly, b: Poly, z: int)
    requires |b| % 2 == 0
    ensures Fold(Mul(a, b, z * z), z) == Mul(a, Fold(b, z), z)
    decreases |a|
  {
    if a == [] {
      FoldZeros(|b|, z);
    } else {
      FoldAdd(Scale(a[0], b), Mul(a[1..], Shift(b, z * z), z * z), z);
      FoldScale(a[0], b, z);
      FoldMul(a[1..], Shift(b, z * z), z);
      FoldShift(b, z);
    }
  }

  /** Multiplying by X i times. */
  function ShiftN(b: Poly, i: nat, z: int): (s: Poly)
    ensures |s| == |b|
    decreases i
  {
    if i == 0 then b else ShiftN(Shift(b, z), i - 1, z)
  }

  lemma {:induction false} ScaleAppend(z: int, m: Poly, x: int)
    ensures Scale(z, m + [x]) == Scale(z, m) + [z * x]
  {
  }

  /** X^i times b, written out: the top i coefficients come round multiplied by z. */
  function Rotated(b: Poly, i: nat, z: int): (s: Poly)
    requires i <= |b|
  {
    Scale(z, b[|b| - i..]) + b[..|b| - i]
  }

  lemma {:induction false} ShiftNAt(b: Poly, i: nat, z: int)
    requires i <= |b|
    ensures ShiftN(b, i, z) == Rotated(b, i, z)
    decreases i
  {
    if i == 0 {
      assert b[|b|..] == [] && b[..|b|] == b;
    } else {
      ShiftNAt(Shift(b, z), i - 1, z);
      ShiftSplit(b, i, z);
    }
  }

  /** One more shift of a polynomial already rotated by i - 1. */
  lemma {:induction false} ShiftSplit(b: Poly, i: nat, z: int)
    requires 0 < i <= |b|
    ensures Rotated(Shift(b, z), i - 1, z) == Rotated(b, i, z)
  {
    var s, n := Shift(b, z), |b|;
    var m := b[n - i..n - 1];
    assert s[n - (i - 1)..] == m;
    assert s[..n - (i - 1)] == [z * b[n - 1]] + b[..n - i];
    assert b[n - i..] == m + [b[n - 1]];
    ScaleAppend(z, m, b[n - 1]);
    Reassociate(Scale(z, m), [z * b[n - 1]], b[..n - i]);
  }

  lemma {:induction false} Reassociate(a: Poly, b: Poly, c: Poly)
    ensures a + (b + c) == (a + b) + c
  {
  }

  lemma {:induction false} MulConcat(a: Poly, c: Poly, b: Poly, z: int)
    ensures Mul(a + c, b, z) == Add(Mul(a, b, z), Mul(c, ShiftN(b, |a|, z), z))
    decreases |a|
  {
    if a == [] {
      assert a + c == c;
    } else {
      assert (a + c)[1..] == a[1..] + c;
      MulConcat(a[1..], c, Shift(b, z), z);
    }
  }

  lemma {:induction false} FoldIsAdd(a: Poly, z: int)
    requires |a| % 2 == 0
    ensures Fold(a, z) == Add(a[..|a| / 2], Scale(z, a[|a| / 2..]))
  {
  }

  /** A left factor may be reduced modulo X^h - z before multiplying. */
  lemma {:induction false} MulFoldLeft(a: Poly, b: Poly, z: int)
    requires |a| == 2 * |b|
    ensures Mul(a, b, z) == Mul(Fold(a, z), b, z)
  {
    var h := |b|;
    var lo, hi := a[..h], a[h..];
    assert a == lo + hi;
    assert ShiftN(b, h, z) == Scale(z, b) by {
      ShiftNAt(b, h, z);
      assert b[0..] == b && b[..0] == [];
    }
    calc {
      Mul(a, b, z);
      { MulConcat(lo, hi, b, z); }
      Add(Mul(lo, b, z), Mul(hi, Scale(z, b), z));
      { MulScaleRight(hi, z, b, z); MulScaleLeft(z, hi, b, z); }
      Add(Mul(lo, b, z), Mul(Scale(z, hi), b, z));
      { MulAddLeft(lo, Scale(z, hi), b, z); }
      Mul(Add(lo, Scale(z, hi)), b, z);
      { FoldIsAdd(a, z); }
      Mul(Fold(a, z), b, z);
    }
  }

  /** Reduction modulo X^h - z is a ring homomorphism from Z[X]/(X^2h - z^2). */
  lemma {:induction false} FoldIsHomomorphism(a: Poly, b: Poly, z: int)
    requires |a| == |b| && |b| % 2 == 0
    ensures Fold(Mul(a, b, z * z), z) == Mul(Fold(a, z), Fold(b, z), z)
  {
    FoldMul(a, b, z);
    MulFoldLeft(a, Fold(b, z), z);
  }

  // ----- congruence

  lemma {:induction false} AddCong(a: Poly, b: Poly, c: Poly, d: Poly, q: int)
    requires q > 0 && |a| == |c| && SeqCong(a, b, q) && SeqCong(c, d, q)
    ensures SeqCong(Add(a, c), Add(b, d), q)
  {
    forall i | 0 <= i < |a| ensures Cong(a[i] + c[i], b[i] + d[i], q) {
      CongAdd(a[i], b[i], c[i], d[i], q);
    }
  }

  lemma {:induction false} SubCong(a: Poly, b: Poly, c: Poly, d: Poly, q: int)
    requires q > 0 && |a| == |c| && SeqCong(a, b, q) && SeqCong(c, d, q)
    ensures SeqCong(Sub(a, c), Sub(b, d), q)
  {
    forall i | 0 <= i < |a| ensures Cong(a[i] - c[i], b[i] - d[i], q) {
      CongSub(a[i], b[i], c[i], d[i], q);
    }
  }

  lemma {:induction false} ScaleCong(c: int, d: int, a: Poly, b: Poly, q: int)
    requires q > 0 && Cong(c, d, q) && SeqCong(a, b, q)
    ensures SeqCong(Scale(c, a), Scale(d, b), q)
  {
    forall i | 0 <= i < |a| ensures Cong(c * a[i], d * b[i], q) {
      CongMul(c, d, a[i], b[i], q);
    }
  }

  lemma {:induction false} ShiftCong(a: Poly, b: Poly, r: int, s: int, q: int)
    requires q > 0 && Cong(r, s, q) && SeqCong(a, b, q)
    ensures SeqCong(Shift(a, r), Shift(b, s), q)
  {
    if a != [] {
      var n := |a| - 1;
      CongMul(r, s, a[n], b[n], q);
      forall i | 0 <= i < |a| ensures Cong(Shift(a, r)[i], Shift(b, s)[i], q) {
        if i > 0 {
          assert Cong(a[i - 1], b[i - 1], q);
        }
      }
    }
  }

  lemma {:induction false} MulCong(a: Poly, b: Poly, c: Poly, d: Poly, r: int, s: int, q: int)
    requires q > 0 && Cong(r, s, q) && SeqCong(a, b, q) && SeqCong(c, d, q)
    ensures SeqCong(Mul(a, c, r), Mul(b, d, s), q)
    decreases |a|
  {
    if a == [] {
    } else {
      assert Cong(a[0], b[0], q);
      ScaleCong(a[0], b[0], c, d, q);
      ShiftCong(c, d, r, s, q);
      MulCong(a[1..], b[1..], Shift(c, r), Shift(d, s), r, s, q);
      AddCong(Scale(a[0], c), Scale(b[0], d), Mul(a[1..], Shift(c, r), r), Mul(b[1..], Shift(d, s), s), q);
    }
  }

  lemma {:induction false} FoldCong(a: Poly, b: Poly, z: int, w: int, q: int)
    requires q > 0 && Cong(z, w, q) && SeqCong(a, b, q)
    ensures SeqCong(Fold(a, z), Fold(b, w), q)
  {
    var h := |a| / 2;
    forall j | 0 <= j < h ensures Cong(Fold(a, z)[j], Fold(b, w)[j], q) {
      CongMul(z, w, a[j + h], b[j + h], q);
      CongAdd(a[j], b[j], z * a[j + h], w * b[j + h], q);
    }
  }
}
