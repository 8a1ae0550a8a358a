/**
  Polynomials as pairs of neighbouring coefficients, pair p taken modulo X^2 - root(p). These products
  are commutative, associative and bilinear, and so are the scalar and matrix products made of them.
 */
module PairRing {
  import opened ModArith
  import opened PolyRing

  /** Coefficient i of the product of two polynomials whose pair i / 2 is taken modulo X^2 - r. */
  function QuadraticAt(a: Poly, b: Poly, r: int, i: nat): int
    requires |a| == |b| && i / 2 * 2 + 1 < |a|
  {
    var p := i / 2;
    if i % 2 == 0 then a[2 * p] * b[2 * p] + r * (a[2 * p + 1] * b[2 * p + 1])
    else a[2 * p] * b[2 * p + 1] + a[2 * p + 1] * b[2 * p]
  }

  function Pairwise(root: int -> int, a: Poly, b: Poly): (c: Poly)
    requires |a| == |b| && |a| % 2 == 0
    ensures |c| == |a|
  {
    seq(|a|, i requires 0 <= i < |a| => QuadraticAt(a, b, root(i / 2), i))
  }

  // ----- congruence

  lemma {:induction false} QuadraticCong(a0: int, b0: int, a1: int, b1: int, c0: int, d0: int, c1: int, d1: int,
      r: int, q: int)
    requires q > 0 && Cong(a0, b0, q) && Cong(a1, b1, q) && Cong(c0, d0, q) && Cong(c1, d1, q)
    ensures Cong(a0 * c0 + r * (a1 * c1), b0 * d0 + r * (b1 * d1), q)
  {
    CongMul(a0, b0, c0, d0, q);
    CongMul(a1, b1, c1, d1, q);
    CongMul(r, r, a1 * c1, b1 * d1, q);
    CongAdd(a0 * c0, b0 * d0, r * (a1 * c1), r * (b1 * d1), q);
  }

  lemma {:induction false} PairwiseCong(root: int -> int, a: Poly, b: Poly, c: Poly, d: Poly, q: int)
    requires q > 0 && |a| == |b| == |c| == |d| && |a| % 2 == 0 && SeqCong(a, b, q) && SeqCong(c, d, q)
    ensures SeqCong(Pairwise(root, a, c), Pairwise(root, b, d), q)
  {
    var x, y := Pairwise(root, a, c), Pairwise(root, b, d);
    forall i: nat | i < |a| ensures Cong(x[i], y[i], q) {
      QuadraticAtCong(a, b, c, d, root(i / 2), i, q);
    }
  }

  lemma {:induction false} QuadraticAtCong(a: Poly, b: Poly, c: Poly, d: Poly, r: int, i: nat, q: int)
    requires q > 0 && |a| == |b| == |c| == |d| && i / 2 * 2 + 1 < |a| && SeqCong(a, b, q) && SeqCong(c, d, q)
    ensures Cong(QuadraticAt(a, c, r, i), QuadraticAt(b, d, r, i), q)
  {
    var p := i / 2;
    assert Cong(a[2 * p], b[2 * p], q) && Cong(a[2 * p + 1], b[2 * p + 1], q);
    assert Cong(c[2 * p], d[2 * p], q) && Cong(c[2 * p + 1], d[2 * p + 1], q);
    if i % 2 == 0 {
      QuadraticCong(a[2 * p], b[2 * p], a[2 * p + 1], b[2 * p + 1], c[2 * p], d[2 * p], c[2 * p + 1], d[2 * p + 1], r,
        q);
    } else {
      QuadraticCong(a[2 * p], b[2 * p], a[2 * p + 1], b[2 * p + 1], c[2 * p + 1], d[2 * p + 1], c[2 * p], d[2 * p], 1,
        q);
    }
  }

  // ----- ring laws

  lemma {:induction false} PairwiseCommutes(root: int -> int, a: Poly, b: Poly)
    requires |a| == |b| && |a| % 2 == 0
    ensures Pairwise(root, a, b) == Pairwise(root, b, a)
  {
    forall i: nat | i < |a| ensures QuadraticAt(a, b, root(i / 2), i) == QuadraticAt(b, a, root(i / 2), i) {
    }
  }

  lemma {:induction false} QuadraticAdd(a: Poly, b: Poly, c: Poly, r: int, i: nat)
    requires |a| == |b| == |c| && i / 2 * 2 + 1 < |a|
    ensures QuadraticAt(a, Add(b, c), r, i) == QuadraticAt(a, b, r, i) + QuadraticAt(a, c, r, i)
  {
    var p := i / 2;
    var x, y := a[2 * p], a[2 * p + 1];
    if i % 2 == 0 {
      SumOfProducts(x, y, b[2 * p], b[2 * p + 1], c[2 * p], c[2 * p + 1], r);
    } else {
      SumOfProducts(x, y, b[2 * p + 1], b[2 * p], c[2 * p + 1], c[2 * p], 1);
    }
  }

  lemma {:induction false} SumOfProducts(x: int, y: int, b: int, b': int, c: int, c': int, r: int)
    ensures x * (b + c) + r * (y * (b' + c')) == (x * b + r * (y * b')) + (x * c + r * (y * c'))
  {
    assert y * (b' + c') == y * b' + y * c';
    assert r * (y * b' + y * c') == r * (y * b') + r * (y * c');
  }

  lemma {:induction false} PairwiseAdd(root: int -> int, a: Poly, b: Poly, c: Poly)
    requires |a| == |b| == |c| && |a| % 2 == 0
    ensures Pairwise(root, a, Add(b, c)) == Add(Pairwise(root, a, b), Pairwise(root, a, c))
  {
    var x, y := Pairwise(root, a, Add(b, c)), Add(Pairwise(root, a, b), Pairwise(root, a, c));
    forall i: nat | i < |a| ensures x[i] == y[i] {
      QuadraticAdd(a, b, c, root(i / 2), i);
    }
  }

  lemma {:induction false} Associate(x: int, y: int, z: int)
    ensures (x * y) * z == x * (y * z) == y * (x * z)
  {
  }

  lemma {:induction false} DistributeTwice(x: int, y: int, z: int, r: int)
    ensures (x + r * y) * z == x * z + r * (y * z) && z * (x + r * y) == z * x + r * (z * y)
  {
    Associate(r, y, z);
    Associate(z, r, y);
    assert (x + r * y) * z == x * z + (r * y) * z;
  }

  /** The constant coefficient of a product of three pairs, either way round. */
  lemma {:induction false} EvenAssociates(a0: int, a1: int, b0: int, b1: int, c0: int, c1: int, r: int)
    ensures (a0 * b0 + r * (a1 * b1)) * c0 + r * ((a0 * b1 + a1 * b0) * c1)
      == a0 * (b0 * c0 + r * (b1 * c1)) + r * (a1 * (b0 * c1 + b1 * c0))
  {
    DistributeTwice(a0 * b0, a1 * b1, c0, r);
    DistributeTwice(a0 * b1, a1 * b0, c1, 1);
    DistributeTwice(b0 * c0, b1 * c1, a0, r);
    DistributeTwice(b0 * c1, b1 * c0, a1, 1);
    Associate(a0, b0, c0);
    Associate(a1, b1, c0);
    Associate(a0, b1, c1);
    Associate(a1, b0, c1);
    FourTerms((a0 * b0) * c0, (a1 * b1) * c0, (a0 * b1) * c1, (a1 * b0) * c1, r);
  }

  lemma {:induction false} FourTerms(x: int, y: int, z: int, w: int, r: int)
    ensures x + r * y + r * (z + w) == x + r * z + r * (w + y)
  {
    assert r * (z + w) == r * z + r * w && r * (w + y) == r * w + r * y;
  }

  /** And the linear coefficient. */
  lemma {:induction false} OddAssociates(a0: int, a1: int, b0: int, b1: int, c0: int, c1: int, r: int)
    ensures (a0 * b0 + r * (a1 * b1)) * c1 + (a0 * b1 + a1 * b0) * c0
      == a0 * (b0 * c1 + b1 * c0) + a1 * (b0 * c0 + r * (b1 * c1))
  {
    DistributeTwice(a0 * b0, a1 * b1, c1, r);
    DistributeTwice(a0 * b1, a1 * b0, c0, 1);
    DistributeTwice(b0 * c1, b1 * c0, a0, 1);
    DistributeTwice(b0 * c0, b1 * c1, a1, r);
    Associate(a0, b0, c1);
    Associate(a1, b1, c1);
    Associate(a0, b1, c0);
    Associate(a1, b0, c0);
  }

  lemma {:induction false} PairwiseAssociates(root: int -> int, a: Poly, b: Poly, c: Poly)
    requires |a| == |b| == |c| && |a| % 2 == 0
    ensures Pairwise(root, Pairwise(root, a, b), c) == Pairwise(root, a, Pairwise(root, b, c))
  {
    var ab, bc := Pairwise(root, a, b), Pairwise(root, b, c);
    var x, y := Pairwise(root, ab, c), Pairwise(root, a, bc);
    forall i: nat | i < |a| ensures x[i] == y[i] {
      AssociatesAt(a, b, c, ab, bc, root(i / 2), i);
    }
  }

  lemma {:induction false} AssociatesAt(a: Poly, b: Poly, c: Poly, ab: Poly, bc: Poly, r: int, i: nat)
    requires |a| == |b| == |c| == |ab| == |bc| && i / 2 * 2 + 1 < |a|
    requires forall j: nat {:trigger ab[j]} :: 0 <= j - i / 2 * 2 <= 1 ==> ab[j] == QuadraticAt(a, b, r, j)
    requires forall j: nat {:trigger bc[j]} :: 0 <= j - i / 2 * 2 <= 1 ==> bc[j] == QuadraticAt(b, c, r, j)
    ensures QuadraticAt(ab, c, r, i) == QuadraticAt(a, bc, r, i)
  {
    var p: nat := i / 2 * 2;
    assert ab[p] == QuadraticAt(a, b, r, p) && ab[p + 1] == QuadraticAt(a, b, r, p + 1);
    assert bc[p] == QuadraticAt(b, c, r, p) && bc[p + 1] == QuadraticAt(b, c, r, p + 1);
    if i % 2 == 0 {
      EvenAssociates(a[p], a[p + 1], b[p], b[p + 1], c[p], c[p + 1], r);
    } else {
      OddAssociates(a[p], a[p + 1], b[p], b[p + 1], c[p], c[p + 1], r);
    }
  }

  // ----- scalar and matrix products

  predicate Vector(v: seq<Poly>, n: nat) {
    forall i :: 0 <= i < |v| ==> |v[i]| == n
  }

  /** The sum of the products of two vectors of polynomials with n coefficients. */
  function Dot(root: int -> int, u: seq<Poly>, v: seq<Poly>, n: nat): (d: Poly)
    requires |u| == |v| && n % 2 == 0 && Vector(u, n) && Vector(v, n)
    ensures |d| == n
  {
    if u == [] then Zeros(n) else Add(Pairwise(root, u[0], v[0]), Dot(root, u[1..], v[1..], n))
  }

  function AddVec(u: seq<Poly>, v: seq<Poly>, n: nat): (w: seq<Poly>)
    requires |u| == |v| && Vector(u, n) && Vector(v, n)
    ensures |w| == |u| && Vector(w, n)
  {
    if u == [] then [] else [Add(u[0], v[0])] + AddVec(u[1..], v[1..], n)
  }

  /** Every entry times y. */
  function Times(root: int -> int, u: seq<Poly>, y: Poly, n: nat): (w: seq<Poly>)
    requires n % 2 == 0 && Vector(u, n) && |y| == n
    ensures |w| == |u| && Vector(w, n)
  {
    if u == [] then [] else [Pairwise(root, u[0], y)] + Times(root, u[1..], y, n)
  }

  lemma {:induction false} DotAdd(root: int -> int, x: seq<Poly>, u: seq<Poly>, v: seq<Poly>, n: nat)
    requires |x| == |u| == |v| && n % 2 == 0 && Vector(x, n) && Vector(u, n) && Vector(v, n)
    ensures Dot(root, x, AddVec(u, v, n), n) == Add(Dot(root, x, u, n), Dot(root, x, v, n))
    decreases |x|
  {
    if x == [] {
    } else {
      PairwiseAdd(root, x[0], u[0], v[0]);
      DotAdd(root, x[1..], u[1..], v[1..], n);
      assert AddVec(u, v, n)[1..] == AddVec(u[1..], v[1..], n);
      AddSwap(Pairwise(root, x[0], u[0]), Pairwise(root, x[0], v[0]), Dot(root, x[1..], u[1..], n),
        Dot(root, x[1..], v[1..], n));
    }
  }

  lemma {:induction false} PairwiseZeros(root: int -> int, a: Poly)
    requires |a| % 2 == 0
    ensures Pairwise(root, a, Zeros(|a|)) == Zeros(|a|)
  {
    var z := Pairwise(root, a, Zeros(|a|));
    forall i: nat | i < |a| ensures z[i] == 0 {
      assert QuadraticAt(a, Zeros(|a|), root(i / 2), i) == 0;
    }
  }

  /** A common factor can be taken out. */
  lemma {:induction false} DotTimes(root: int -> int, x: seq<Poly>, u: seq<Poly>, y: Poly, n: nat)
    requires |x| == |u| && n % 2 == 0 && Vector(x, n) && Vector(u, n) && |y| == n
    ensures Dot(root, x, Times(root, u, y, n), n) == Pairwise(root, Dot(root, u, x, n), y)
    decreases |x|
  {
    if x == [] {
      PairwiseZeros(root, y);
      PairwiseCommutes(root, y, Zeros(n));
    } else {
      var xu, d := Pairwise(root, u[0], x[0]), Dot(root, u[1..], x[1..], n);
      DotTimes(root, x[1..], u[1..], y, n);
      assert Times(root, u, y, n)[1..] == Times(root, u[1..], y, n);
      PairwiseCommutes(root, u[0], x[0]);
      PairwiseAssociates(root, x[0], u[0], y);
      PairwiseCommutes(root, Add(xu, d), y);
      PairwiseAdd(root, y, xu, d);
      PairwiseCommutes(root, y, xu);
      PairwiseCommutes(root, y, d);
    }
  }

  predicate MatrixOf(a: seq<seq<Poly>>, m: nat, n: nat) {
    forall i :: 0 <= i < |a| ==> |a[i]| == m && Vector(a[i], n)
  }

  /** A times x, row by row. */
  function MatVec(root: int -> int, a: seq<seq<Poly>>, x: seq<Poly>, n: nat): (v: seq<Poly>)
    requires n % 2 == 0 && MatrixOf(a, |x|, n) && Vector(x, n)
    ensures |v| == |a| && Vector(v, n)
  {
    if a == [] then [] else [Dot(root, a[0], x, n)] + MatVec(root, a[1..], x, n)
  }

  /** The transpose of A times y: the rows of A, each times its entry of y, added up. */
  function TransposeVec(root: int -> int, a: seq<seq<Poly>>, y: seq<Poly>, m: nat, n: nat): (v: seq<Poly>)
    requires n % 2 == 0 && |a| == |y| && MatrixOf(a, m, n) && Vector(y, n)
    ensures |v| == m && Vector(v, n)
  {
    if a == [] then seq(m, _ => Zeros(n)) else AddVec(Times(root, a[0], y[0], n),
      TransposeVec(root, a[1..], y[1..], m, n), n)
  }

  lemma {:induction false} DotZeros(root: int -> int, x: seq<Poly>, n: nat)
    requires n % 2 == 0 && Vector(x, n)
    ensures Dot(root, x, seq(|x|, _ => Zeros(n)), n) == Zeros(n)
    decreases |x|
  {
    if x == [] {
    } else {
      PairwiseZeros(root, x[0]);
      DotZeros(root, x[1..], n);
      assert seq(|x|, _ => Zeros(n))[1..] == seq(|x[1..]|, _ => Zeros(n));
    }
  }

  /** (A x) . y == x . (A^T y). */
  lemma {:induction false} Exchange(root: int -> int, a: seq<seq<Poly>>, x: seq<Poly>, y: seq<Poly>, n: nat)
    requires n % 2 == 0 && |a| == |y| && MatrixOf(a, |x|, n) && Vector(x, n) && Vector(y, n)
    ensures Dot(root, MatVec(root, a, x, n), y, n) == Dot(root, x, TransposeVec(root, a, y, |x|, n), n)
    decreases |a|
  {
    if a == [] {
      DotZeros(root, x, n);
    } else {
      var rest := TransposeVec(root, a[1..], y[1..], |x|, n);
      Exchange(root, a[1..], x, y[1..], n);
      DotTimes(root, x, a[0], y[0], n);
      DotAdd(root, x, Times(root, a[0], y[0], n), rest, n);
      assert MatVec(root, a, x, n)[1..] == MatVec(root, a[1..], x, n);
    }
  }

  /** Column j of a matrix. */
  function Column(a: seq<seq<Poly>>, j: nat, m: nat, n: nat): (c: seq<Poly>)
    requires MatrixOf(a, m, n) && j < m
    ensures |c| == |a| && Vector(c, n)
  {
    if a == [] then [] else [a[0][j]] + Column(a[1..], j, m, n)
  }

  lemma {:induction false} TimesAt(root: int -> int, u: seq<Poly>, y: Poly, n: nat, j: nat)
    requires n % 2 == 0 && Vector(u, n) && |y| == n && j < |u|
    ensures Times(root, u, y, n)[j] == Pairwise(root, u[j], y)
    decreases |u|
  {
    if j > 0 {
      TimesAt(root, u[1..], y, n, j - 1);
    }
  }

  lemma {:induction false} AddVecAt(u: seq<Poly>, v: seq<Poly>, n: nat, j: nat)
    requires |u| == |v| && Vector(u, n) && Vector(v, n) && j < |u|
    ensures AddVec(u, v, n)[j] == Add(u[j], v[j])
    decreases |u|
  {
    if j > 0 {
      AddVecAt(u[1..], v[1..], n, j - 1);
    }
  }

  /** Entry j of the transpose times y is the product of column j with y. */
  lemma {:induction false} TransposeVecAt(root: int -> int, a: seq<seq<Poly>>, y: seq<Poly>, m: nat, n: nat, j: nat)
    requires n % 2 == 0 && |a| == |y| && MatrixOf(a, m, n) && Vector(y, n) && j < m
    ensures TransposeVec(root, a, y, m, n)[j] == Dot(root, Column(a, j, m, n), y, n)
    decreases |a|
  {
    if a == [] {
    } else {
      TransposeVecAt(root, a[1..], y[1..], m, n, j);
      TimesAt(root, a[0], y[0], n, j);
      AddVecAt(Times(root, a[0], y[0], n), TransposeVec(root, a[1..], y[1..], m, n), n, j);
      assert Column(a, j, m, n)[1..] == Column(a[1..], j, m, n);
    }
  }

  lemma {:induction false} DotCong(root: int -> int, u: seq<Poly>, u': seq<Poly>, v: seq<Poly>, v': seq<Poly>, n: nat,
      q: int)
    requires q > 0 && n % 2 == 0 && |u| == |u'| == |v| == |v'| && Vector(u, n) && Vector(u', n) && Vector(v, n)
      && Vector(v', n)
    requires forall i :: 0 <= i < |u| ==> SeqCong(u[i], u'[i], q) && SeqCong(v[i], v'[i], q)
    ensures SeqCong(Dot(root, u, v, n), Dot(root, u', v', n), q)
    decreases |u|
  {
    if u == [] {
      SeqCongSame(Zeros(n), q);
    } else {
      PairwiseCong(root, u[0], u'[0], v[0], v'[0], q);
      DotCong(root, u[1..], u'[1..], v[1..], v'[1..], n, q);
      AddCong(Pairwise(root, u[0], v[0]), Pairwise(root, u'[0], v'[0]), Dot(root, u[1..], v[1..], n),
        Dot(root, u'[1..], v'[1..], n), q);
    }
  }
}
