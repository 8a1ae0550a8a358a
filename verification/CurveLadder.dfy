/**
  The ladder on the curve: doubling and differential addition of line coordinates follow the chords and tangents,
  with the point at infinity and all coincidences included. So the ladder works for every curve, and every function
  on the integers that adds points as integers add.
 */
module CurveLadder {
  import opened ModArith
  import opened PrimeFields
  import opened MontgomeryCurve
  import FieldElements
  import X25519

  /** The line coordinates X : Z of a point: X / Z, or Z = 0 at infinity. */
  ghost predicate Represents(p: int, u: X25519.Line, s: Point) {
    && p > 0
    && match s
       case Infinity => Cong(u.z, 0, p) && !Cong(u.x, 0, p)
       case Affine(x, _) => !Cong(u.z, 0, p) && Cong(u.x, x * u.z, p)
  }

  // ----- congruences used below

  lemma {:induction false} ZeroTimes(p: int, a: int, b: int)
    requires p > 0 && Cong(a, 0, p)
    ensures Cong(a * b, 0, p) && Cong(b * a, 0, p)
  {
    CongMul(a, 0, b, b, p);
    assert b * a == a * b;
  }

  /** What differential addition delivers, before it is said of which points. */
  ghost predicate AddsTo(p: int, x1: int, c: int, d: int, t: X25519.Line)
    requires p > 0
  {
    Cong(t.x, 4 * (c * c), p) && Cong(t.z, x1 * (4 * (d * d)), p)
  }

  lemma {:induction false} BothOrders(p: int, x1: int, u: X25519.Line, v: X25519.Line, c: int, d: int)
    requires p > 0 && c == u.x * v.x - u.z * v.z && d == u.x * v.z - v.x * u.z
    ensures AddsTo(p, x1, c, d, X25519.AddLine(p, x1, u, v)) && AddsTo(p, x1, c, d, X25519.AddLine(p, x1, v, u))
  {
    AddLineIs(p, x1, u, v);
    AddLineIs(p, x1, v, u);
    assert v.x * u.x - v.z * u.z == c && v.x * u.z - u.x * v.z == -d;
    assert (-d) * (-d) == d * d;
  }

  lemma {:induction false} Scaled(x: int, z: int, w: int, z': int)
    ensures (x * z) * (w * z') - z * z' == (z * z') * (x * w - 1)
    ensures (x * z) * z' - (w * z') * z == (z * z') * (x - w)
  {
  }

  /** Both cross products for two finite points. */
  lemma {:induction false} CrossOfFinite(p: int, u: X25519.Line, v: X25519.Line, x: int, w: int)
    requires p > 0 && Cong(u.x, x * u.z, p) && Cong(v.x, w * v.z, p)
    ensures Cong(u.x * v.x - u.z * v.z, (u.z * v.z) * (x * w - 1), p)
    ensures Cong(u.x * v.z - v.x * u.z, (u.z * v.z) * (x - w), p)
  {
    CongMul(u.x, x * u.z, v.x, w * v.z, p);
    CongSub(u.x * v.x, (x * u.z) * (w * v.z), u.z * v.z, u.z * v.z, p);
    CongMul(u.x, x * u.z, v.z, v.z, p);
    CongMul(v.x, w * v.z, u.z, u.z, p);
    CongSub(u.x * v.z, (x * u.z) * v.z, v.x * u.z, (w * v.z) * u.z, p);
    Scaled(x, u.z, w, v.z);
  }

  lemma {:induction false} FourSquares(p: int, c: int, q: int, e: int)
    requires p > 0 && Cong(c, q * e, p)
    ensures Cong(4 * (c * c), (4 * (q * q)) * (e * e), p)
  {
    CongMul(c, q * e, c, q * e, p);
    CongMul(4, 4, c * c, (q * e) * (q * e), p);
    assert 4 * ((q * e) * (q * e)) == (4 * (q * q)) * (e * e) by { Regroup(q, e, q, e); }
  }

  lemma {:induction false} FourSquaresNotZero(p: int, q: int)
    requires Prime(p) && !Cong(q, 0, p)
    ensures !Cong(4 * (q * q), 0, p)
  {
    TwoNotZero(p);
    SquareZero(p, q);
    NonZero(p, 4, q * q);
  }

  // ----- differential addition

  /** Two points with different x, and the sum s. */
  lemma {:induction false} AddDistinct(p: int, x1: int, u: X25519.Line, v: X25519.Line, t: X25519.Line, x: int, w: int,
      s: int)
    requires Prime(p) && !Cong(u.z, 0, p) && Cong(u.x, x * u.z, p) && !Cong(v.z, 0, p) && Cong(v.x, w * v.z, p)
    requires AddsTo(p, x1, u.x * v.x - u.z * v.z, u.x * v.z - v.x * u.z, t)
    requires !Cong(x1, 0, p) && !Cong(x - w, 0, p) && Cong(s * x1 * ((w - x) * (w - x)), (x * w - 1) * (x * w - 1), p)
    ensures !Cong(t.z, 0, p) && Cong(t.x, s * t.z, p)
  {
    var q := 4 * ((u.z * v.z) * (u.z * v.z));
    var e, k := (x * w - 1) * (x * w - 1), (x - w) * (x - w);
    CrossOfFinite(p, u, v, x, w);
    FourSquares(p, u.x * v.x - u.z * v.z, u.z * v.z, x * w - 1);
    FourSquares(p, u.x * v.z - v.x * u.z, u.z * v.z, x - w);
    CongMul(x1, x1, 4 * ((u.x * v.z - v.x * u.z) * (u.x * v.z - v.x * u.z)), q * k, p);
    assert Cong(t.x, q * e, p) && Cong(t.z, x1 * (q * k), p);
    NonZero(p, u.z, v.z);
    FourSquaresNotZero(p, u.z * v.z);
    SquareZero(p, x - w);
    NonZero(p, q, k);
    NonZero(p, x1, q * k);
    assert (w - x) * (w - x) == k;
    CongMul(q, q, s * x1 * k, e, p);
    CongMul(s, s, t.z, x1 * (q * k), p);
    assert s * (x1 * (q * k)) == q * (s * x1 * k);
  }

  /** Two points with the same x whose sum is the point at infinity. */
  lemma {:induction false} AddOpposite(p: int, x1: int, u: X25519.Line, v: X25519.Line, t: X25519.Line, x: int, w: int)
    requires Prime(p) && !Cong(u.z, 0, p) && Cong(u.x, x * u.z, p) && !Cong(v.z, 0, p) && Cong(v.x, w * v.z, p)
    requires AddsTo(p, x1, u.x * v.x - u.z * v.z, u.x * v.z - v.x * u.z, t)
    requires Cong(x, w, p) && !Cong(x * w - 1, 0, p)
    ensures Cong(t.z, 0, p) && !Cong(t.x, 0, p)
  {
    CrossOfFinite(p, u, v, x, w);
    var c, d := u.x * v.x - u.z * v.z, u.x * v.z - v.x * u.z;
    CongSub(x, w, w, w, p);
    ZeroTimes(p, x - w, u.z * v.z);
    ZeroTimes(p, d, d);
    ZeroTimes(p, d * d, 4);
    ZeroTimes(p, 4 * (d * d), x1);
    NonZero(p, u.z, v.z);
    NonZero(p, u.z * v.z, x * w - 1);
    FourSquaresNotZero(p, c);
  }

  /** The cross products of the point at infinity and a finite point. */
  lemma {:induction false} CrossOfInfinite(p: int, u: X25519.Line, v: X25519.Line, x: int, x1: int, q: int)
    requires p > 0 && Cong(u.z, 0, p) && Cong(v.x, x * v.z, p) && Cong(x, x1, p) && q == u.x * v.z
    ensures Cong(u.x * v.x - u.z * v.z, q * x1, p) && Cong(u.x * v.z - v.x * u.z, q * 1, p)
  {
    ZeroTimes(p, u.z, v.z);
    ZeroTimes(p, u.z, v.x);
    CongMul(x, x1, v.z, v.z, p);
    CongMul(u.x, u.x, v.x, x1 * v.z, p);
    CongSub(u.x * v.x, u.x * (x1 * v.z), u.z * v.z, 0, p);
    assert u.x * (x1 * v.z) == q * x1;
    CongSub(q, q, v.x * u.z, 0, p);
  }

  /** The point at infinity and a finite point, in either order. */
  lemma {:induction false} AddInfinite(p: int, x1: int, u: X25519.Line, v: X25519.Line, t: X25519.Line, x: int, c: int,
      d: int)
    requires Prime(p) && Cong(u.z, 0, p) && !Cong(u.x, 0, p) && !Cong(v.z, 0, p) && Cong(v.x, x * v.z, p)
    requires Cong(x, x1, p) && !Cong(x1, 0, p) && AddsTo(p, x1, c, d, t)
    requires c == u.x * v.x - u.z * v.z && d * d == (u.x * v.z - v.x * u.z) * (u.x * v.z - v.x * u.z)
    ensures !Cong(t.z, 0, p) && Cong(t.x, x1 * t.z, p)
  {
    var q := u.x * v.z;
    CrossOfInfinite(p, u, v, x, x1, q);
    FourSquares(p, c, q, x1);
    FourSquares(p, u.x * v.z - v.x * u.z, q, 1);
    NonZero(p, u.x, v.z);
    FourSquaresNotZero(p, q);
    Quotient(p, x1, 4 * (q * q), 4 * (c * c), 4 * (d * d), t);
  }

  lemma {:induction false} Quotient(p: int, x1: int, q: int, x: int, z: int, t: X25519.Line)
    requires Prime(p) && !Cong(q, 0, p) && !Cong(x1, 0, p) && Cong(x, q * (x1 * x1), p) && Cong(z, q, p)
    requires Cong(t.x, x, p) && Cong(t.z, x1 * z, p)
    ensures !Cong(t.z, 0, p) && Cong(t.x, x1 * t.z, p)
  {
    CongMul(x1, x1, z, q, p);
    NonZero(p, x1, q);
    CongMul(x1, x1, t.z, x1 * q, p);
    assert q * (x1 * x1) == x1 * (x1 * q);
  }

  lemma {:induction false} SameCoordinate(p: int, t: X25519.Line, x: int, x': int)
    requires p > 0 && Cong(t.x, x * t.z, p) && Cong(x', x, p)
    ensures Cong(t.x, x' * t.z, p)
  {
    CongMul(x', x, t.z, t.z, p);
  }

  /** The neighbours of a run: both on the curve, with the sum r, and the difference d of the coordinate x1. */
  ghost predicate Neighbours(p: int, b: int, s: Point, t: Point, r: Point, d: Point, x1: int) {
    && Prime(p) && !Cong(b, 0, p) && OnCurve(p, b, s) && OnCurve(p, b, t)
    && Sum(p, b, s, t, r) && Sum(p, b, t, Negative(s), d) && d.Affine? && Cong(d.x, x1, p) && !Cong(x1, 0, p)
  }

  lemma {:induction false} AddFinite(p: int, b: int, s: Point, t: Point, r: Point, d: Point, x1: int, u: X25519.Line,
      v: X25519.Line, l: X25519.Line)
    requires Neighbours(p, b, s, t, r, d, x1) && s.Affine? && t.Affine? && !Cong(s.x, t.x, p)
    requires Represents(p, u, s) && Represents(p, v, t)
    requires AddsTo(p, x1, u.x * v.x - u.z * v.z, u.x * v.z - v.x * u.z, l)
    ensures Represents(p, l, r)
  {
    var (x, y, w, z) := (s.x, s.y, t.x, t.y);
    var k := (w - x) * (w - x);
    Apart(p, x, w);
    MirroredSquares(x, y, w, z);
    ChordLaw(p, A, b, x, y, w, z, r.x, d.x);
    CongMul(r.x, r.x, d.x, x1, p);
    CongMul(r.x * d.x, r.x * x1, k, k, p);
    AddDistinct(p, x1, u, v, l, x, w, r.x);
  }

  lemma {:induction false} Apart(p: int, x: int, w: int)
    requires p > 0 && !Cong(x, w, p)
    ensures !Cong(w - x, 0, p) && !Cong(x - w, 0, p)
  {
    if Cong(w - x, 0, p) {
      CongAdd(w - x, 0, x, x, p);
    }
    if Cong(x - w, 0, p) {
      CongAdd(x - w, 0, w, w, p);
    }
  }

  lemma {:induction false} MirroredSquares(x: int, y: int, w: int, z: int)
    ensures (x - w) * (x - w) == (w - x) * (w - x) && (-y - z) * (-y - z) == (z + y) * (z + y)
  {
  }

  /** Finite points with the same x are opposite, since their difference is finite. */
  lemma {:induction false} AreOpposite(p: int, b: int, s: Point, t: Point, r: Point, d: Point, x1: int)
    requires Neighbours(p, b, s, t, r, d, x1) && s.Affine? && t.Affine? && Cong(s.x, t.x, p)
    ensures Cong(s.y + t.y, 0, p) && r == Infinity && !Cong(t.y - s.y, 0, p)
  {
    if !Cong(s.y + t.y, 0, p) {
      SameCubic(p, s.x, t.x);
      CongSub(b * (t.y * t.y), Cubic(A, t.x), b * (s.y * s.y), Cubic(A, s.x), p);
      CongSub(Cubic(A, t.x), Cubic(A, s.x), Cubic(A, s.x), Cubic(A, s.x), p);
      assert b * (t.y * t.y) - b * (s.y * s.y) == b * ((t.y - s.y) * (s.y + t.y));
      if !Cong(t.y - s.y, 0, p) {
        NonZero(p, t.y - s.y, s.y + t.y);
        NonZero(p, b, (t.y - s.y) * (s.y + t.y));
      }
    }
    assert t.y + -s.y == t.y - s.y;
  }

  lemma {:induction false} SameCubic(p: int, x: int, w: int)
    requires p > 0 && Cong(x, w, p)
    ensures Cong(Cubic(A, x), Cubic(A, w), p)
  {
    CongMul(x, w, x, w, p);
    CongMul(A, A, x, w, p);
    CongAdd(x * x, w * w, A * x, A * w, p);
    CongAdd(x * x + A * x, w * w + A * w, 1, 1, p);
    CongMul(x, w, x * x + A * x + 1, w * w + A * w + 1, p);
  }

  lemma {:induction false} AddMirrored(p: int, b: int, s: Point, t: Point, r: Point, d: Point, x1: int,
      u: X25519.Line, v: X25519.Line, l: X25519.Line)
    requires Neighbours(p, b, s, t, r, d, x1) && s.Affine? && t.Affine? && Cong(s.x, t.x, p)
    requires Represents(p, u, s) && Represents(p, v, t)
    requires AddsTo(p, x1, u.x * v.x - u.z * v.z, u.x * v.z - v.x * u.z, l)
    ensures Represents(p, l, r)
  {
    AreOpposite(p, b, s, t, r, d, x1);
    var (w, z) := (t.x, t.y);
    TangentLaw(p, A, b, w, z, s.x, d.x, 3 * (w * w) + 2 * A * w + 1, 2 * b * z);
    NotUnit(p, b, s, t, d.x);
    AddOpposite(p, x1, u, v, l, s.x, w);
  }

  /** x w is not 1: otherwise the difference would have coordinate 0, or be at infinity. */
  lemma {:induction false} NotUnit(p: int, b: int, s: Point, t: Point, dx: int)
    requires Prime(p) && !Cong(b, 0, p) && s.Affine? && t.Affine? && OnCurve(p, b, t) && Cong(s.x, t.x, p)
    requires !Cong(dx, 0, p) && Cong(dx * (4 * Cubic(A, t.x)), (t.x * t.x - 1) * (t.x * t.x - 1), p)
    requires Cong(s.y + t.y, 0, p) && !Cong(t.y - s.y, 0, p)
    ensures !Cong(s.x * t.x - 1, 0, p)
  {
    if Cong(s.x * t.x - 1, 0, p) {
      CongMul(s.x, t.x, t.x, t.x, p);
      CongSub(s.x * t.x, t.x * t.x, 1, 1, p);
      ZeroTimes(p, t.x * t.x - 1, t.x * t.x - 1);
      OrdinateNotZero(p, b, s, t);
      TwoNotZero(p);
      NonZero(p, 4, Cubic(A, t.x));
      NonZero(p, dx, 4 * Cubic(A, t.x));
    }
  }

  lemma {:induction false} OrdinateNotZero(p: int, b: int, s: Point, t: Point)
    requires Prime(p) && !Cong(b, 0, p) && s.Affine? && t.Affine? && OnCurve(p, b, t)
    requires Cong(s.y + t.y, 0, p) && !Cong(t.y - s.y, 0, p)
    ensures !Cong(Cubic(A, t.x), 0, p)
  {
    if Cong(t.y, 0, p) {
      CongAdd(t.y, 0, t.y, 0, p);
      CongSub(t.y + t.y, 0, s.y + t.y, 0, p);
    }
    SquareZero(p, t.y);
    NonZero(p, b, t.y * t.y);
  }

  lemma {:induction false} Mirrored(u: X25519.Line, v: X25519.Line, c: int, d: int)
    requires c == u.x * v.x - u.z * v.z && d == u.x * v.z - v.x * u.z
    ensures c == v.x * u.x - v.z * u.z && d * d == (v.x * u.z - u.x * v.z) * (v.x * u.z - u.x * v.z)
  {
    assert v.x * u.z - u.x * v.z == -d;
    assert (-d) * (-d) == d * d;
  }

  /** The point at infinity among the two. */
  lemma {:induction false} AddAtInfinity(p: int, b: int, s: Point, t: Point, r: Point, d: Point, x1: int,
      u: X25519.Line, v: X25519.Line, l: X25519.Line)
    requires Neighbours(p, b, s, t, r, d, x1) && (s.Infinity? || t.Infinity?)
    requires Represents(p, u, s) && Represents(p, v, t)
    requires AddsTo(p, x1, u.x * v.x - u.z * v.z, u.x * v.z - v.x * u.z, l)
    ensures Represents(p, l, r)
  {
    var (c, d) := (u.x * v.x - u.z * v.z, u.x * v.z - v.x * u.z);
    if s.Infinity? {
      AddInfinite(p, x1, u, v, l, t.x, c, d);
    } else {
      Mirrored(u, v, c, d);
      AddInfinite(p, x1, v, u, l, s.x, c, d);
    }
    SameCoordinate(p, l, x1, r.x);
  }

  /** Differential addition follows the curve. */
  lemma {:induction false} AddRepresents(p: int, b: int, s: Point, t: Point, r: Point, d: Point, x1: int,
      u: X25519.Line, v: X25519.Line)
    requires Neighbours(p, b, s, t, r, d, x1) && Represents(p, u, s) && Represents(p, v, t)
    ensures Represents(p, X25519.AddLine(p, x1, u, v), r) && Represents(p, X25519.AddLine(p, x1, v, u), r)
  {
    BothOrders(p, x1, u, v, u.x * v.x - u.z * v.z, u.x * v.z - v.x * u.z);
    AddOneOrder(p, b, s, t, r, d, x1, u, v, X25519.AddLine(p, x1, u, v));
    AddOneOrder(p, b, s, t, r, d, x1, u, v, X25519.AddLine(p, x1, v, u));
  }

  lemma {:induction false} AddOneOrder(p: int, b: int, s: Point, t: Point, r: Point, d: Point, x1: int,
      u: X25519.Line, v: X25519.Line, l: X25519.Line)
    requires Neighbours(p, b, s, t, r, d, x1) && Represents(p, u, s) && Represents(p, v, t)
    requires AddsTo(p, x1, u.x * v.x - u.z * v.z, u.x * v.z - v.x * u.z, l)
    ensures Represents(p, l, r)
  {
    if s.Infinity? || t.Infinity? {
      AddAtInfinity(p, b, s, t, r, d, x1, u, v, l);
    } else if Cong(s.x, t.x, p) {
      AddMirrored(p, b, s, t, r, d, x1, u, v, l);
    } else {
      AddFinite(p, b, s, t, r, d, x1, u, v, l);
    }
  }

  // ----- doubling

  lemma {:induction false} SquaresOfScaled(x: int, z: int)
    ensures (x * z) * (x * z) - z * z == (z * z) * (x * x - 1)
    ensures ((x * z) * z) * ((x * z) * (x * z) + A * ((x * z) * z) + z * z) == ((z * z) * (z * z)) * Cubic(A, x)
  {
    var q := z * z;
    assert (x * z) * (x * z) == q * (x * x) && (x * z) * z == q * x;
    assert q * (x * x) + A * (q * x) + q == q * (x * x + A * x + 1);
    Regroup(q, x, q, x * x + A * x + 1);
  }

  /** What doubling delivers for a finite point, with q the square of Z. */
  lemma {:induction false} DoubleFinite(p: int, u: X25519.Line, x: int, q: int)
    requires p > 0 && Cong(u.x, x * u.z, p) && q == u.z * u.z
    ensures Cong(X25519.Double(p, u).x, (q * q) * ((x * x - 1) * (x * x - 1)), p)
    ensures Cong(X25519.Double(p, u).z, (q * q) * (4 * Cubic(A, x)), p)
  {
    var v := x * u.z;
    DoubleIs(p, u);
    SquaresOfScaled(x, u.z);
    CongMul(u.x, v, u.x, v, p);
    CongSub(u.x * u.x, v * v, q, q, p);
    CongMul(u.x * u.x - q, q * (x * x - 1), u.x * u.x - q, q * (x * x - 1), p);
    Regroup(q, x * x - 1, q, x * x - 1);
    CongMul(u.x, v, u.z, u.z, p);
    CongMul(A, A, u.x * u.z, v * u.z, p);
    CongAdd(u.x * u.x, v * v, A * (u.x * u.z), A * (v * u.z), p);
    CongAdd(u.x * u.x + A * (u.x * u.z), v * v + A * (v * u.z), q, q, p);
    CongMul(4, 4, u.x * u.z, v * u.z, p);
    CongMul(4 * (u.x * u.z), 4 * (v * u.z), u.x * u.x + A * (u.x * u.z) + q, v * v + A * (v * u.z) + q, p);
    FourOut(v * u.z, v * v + A * (v * u.z) + q, q * q, Cubic(A, x));
  }

  lemma {:induction false} FourOut(a: int, b: int, q: int, c: int)
    requires a * b == q * c
    ensures (4 * a) * b == q * (4 * c)
  {
  }

  /** The curve has no point with x^2 = 1 and y = 0. */
  ghost predicate Smooth(p: int) {
    p > 0 && !Cong(A * A - 4, 0, p)
  }

  lemma {:induction false} RootIsNotUnit(p: int, x: int)
    requires Prime(p) && Smooth(p) && Cong(Cubic(A, x), 0, p)
    ensures !Cong(x * x - 1, 0, p)
  {
    if Cong(x * x - 1, 0, p) {
      CongAdd(x * x - 1, 0, 1, 1, p);
      UnitNotZero(p, x);
      if !Cong(x * x + A * x + 1, 0, p) {
        NonZero(p, x, x * x + A * x + 1);
      }
      UnitRoot(p, x);
    }
  }

  lemma {:induction false} UnitRoot(p: int, x: int)
    requires p > 0 && Cong(x * x, 1, p) && Cong(x * x + A * x + 1, 0, p)
    ensures Cong(A * A - 4, 0, p)
  {
    var y := A * x;
    CongAdd(x * x, 1, 1, 1, p);
    CongSub(x * x + y + 1, 0, x * x + 1, 2, p);
    assert Cong(y, -2, p);
    CongMul(y, -2, y, -2, p);
    Regroup(A, x, A, x);
    CongMul(A * A, A * A, x * x, 1, p);
    CongSub(A * A, 4, 4, 4, p);
  }

  lemma {:induction false} UnitNotZero(p: int, x: int)
    requires Prime(p) && Cong(x * x, 1, p)
    ensures !Cong(x, 0, p)
  {
    assert 1 % p == 1;
    if Cong(x, 0, p) {
      ZeroTimes(p, x, x);
    }
  }

  /** Doubling follows the curve. */
  lemma {:induction false} DoubleRepresents(p: int, b: int, s: Point, r: Point, u: X25519.Line)
    requires Prime(p) && Smooth(p) && !Cong(b, 0, p) && OnCurve(p, b, s) && Sum(p, b, s, s, r) && Represents(p, u, s)
    ensures Represents(p, X25519.Double(p, u), r)
  {
    if s.Infinity? {
      DoubleInfinity(p, u);
    } else if Cong(s.y + s.y, 0, p) {
      DoubleToInfinity(p, b, s, u);
    } else {
      DoubleTangent(p, b, s, r, u);
    }
  }

  lemma {:induction false} DoubleInfinity(p: int, u: X25519.Line)
    requires Prime(p) && Cong(u.z, 0, p) && !Cong(u.x, 0, p)
    ensures Cong(X25519.Double(p, u).z, 0, p) && !Cong(X25519.Double(p, u).x, 0, p)
  {
    DoubleIs(p, u);
    ZeroTimes(p, u.z, u.x);
    ZeroTimes(p, u.z, u.z);
    ZeroTimes(p, u.x * u.z, 4);
    ZeroTimes(p, 4 * (u.x * u.z), u.x * u.x + A * (u.x * u.z) + u.z * u.z);
    CongSub(u.x * u.x, u.x * u.x, u.z * u.z, 0, p);
    SquareZero(p, u.x);
    SquareZero(p, u.x * u.x - u.z * u.z);
  }

  lemma {:induction false} DoubleToInfinity(p: int, b: int, s: Point, u: X25519.Line)
    requires Prime(p) && Smooth(p) && s.Affine? && OnCurve(p, b, s) && Represents(p, u, s) && Cong(s.y + s.y, 0, p)
    ensures Cong(X25519.Double(p, u).z, 0, p) && !Cong(X25519.Double(p, u).x, 0, p)
  {
    var q := u.z * u.z;
    HalfZero(p, s.y);
    ZeroTimes(p, s.y, s.y);
    ZeroTimes(p, s.y * s.y, b);
    DoubleFinite(p, u, s.x, q);
    ZeroTimes(p, Cubic(A, s.x), 4);
    ZeroTimes(p, 4 * Cubic(A, s.x), q * q);
    RootIsNotUnit(p, s.x);
    SquareZero(p, u.z);
    SquareZero(p, q);
    SquareZero(p, s.x * s.x - 1);
    NonZero(p, q * q, (s.x * s.x - 1) * (s.x * s.x - 1));
  }

  lemma {:induction false} HalfZero(p: int, y: int)
    requires Prime(p) && Cong(y + y, 0, p)
    ensures Cong(y, 0, p)
  {
    TwoNotZero(p);
    if !Cong(y, 0, p) {
      NonZero(p, 2, y);
    }
  }

  lemma {:induction false} DoubleTangent(p: int, b: int, s: Point, r: Point, u: X25519.Line)
    requires Prime(p) && !Cong(b, 0, p) && s.Affine? && OnCurve(p, b, s) && Represents(p, u, s)
    requires Sum(p, b, s, s, r) && !Cong(s.y + s.y, 0, p)
    ensures Represents(p, X25519.Double(p, u), r)
  {
    var (x, q) := (s.x, u.z * u.z);
    var c := Cubic(A, x);
    TangentLaw(p, A, b, x, s.y, x, r.x, 3 * (x * x) + 2 * A * x + 1, 2 * b * s.y);
    DoubleFinite(p, u, x, q);
    OrdinateOf(p, b, s);
    SquareZero(p, u.z);
    SquareZero(p, q);
    TwoNotZero(p);
    NonZero(p, 4, c);
    NonZero(p, q * q, 4 * c);
    CongMul(q * q, q * q, r.x * (4 * c), (x * x - 1) * (x * x - 1), p);
    CongMul(r.x, r.x, X25519.Double(p, u).z, (q * q) * (4 * c), p);
    assert r.x * ((q * q) * (4 * c)) == (q * q) * (r.x * (4 * c));
  }

  lemma {:induction false} OrdinateOf(p: int, b: int, s: Point)
    requires Prime(p) && !Cong(b, 0, p) && s.Affine? && OnCurve(p, b, s) && !Cong(s.y + s.y, 0, p)
    ensures !Cong(Cubic(A, s.x), 0, p)
  {
    if Cong(s.y, 0, p) {
      CongAdd(s.y, 0, s.y, 0, p);
    }
    SquareZero(p, s.y);
    NonZero(p, b, s.y * s.y);
  }

  // ----- the ladder

  /** Names the numbers at which the laws below are used. */
  predicate At(m: int, n: int) { true }

  /**
    point(n) is the n-fold of a point with the coordinate x1, not 0, on one of the curves: the integers are taken
    to the curve, sums to sums.
   */
  ghost predicate Multiples(p: int, b: int, x1: int, point: int -> Point) {
    && Prime(p) && !Cong(b, 0, p) && !Cong(x1, 0, p)
    && point(0) == Infinity && point(1).Affine? && Cong(point(1).x, x1, p)
    && forall m, n {:trigger At(m, n)} :: At(m, n) ==>
         && OnCurve(p, b, point(m)) && point(-m) == Negative(point(m))
         && Sum(p, b, point(m), point(n), point(m + n))
  }

  /** The line arithmetic that the ladder asks for holds on the curve. */
  lemma {:induction false} CurveArithmetic(p: int, b: int, x1: int, point: int -> Point)
    requires Smooth(p) && Multiples(p, b, x1, point)
    ensures X25519.LineArithmetic(p, x1, (n, u) => Represents(p, u, point(n)))
  {
    assert 1 % p == 1 && 0 % p == 0;
    forall n: nat, u, v {:trigger X25519.At(n, u, v)} | Represents(p, u, point(n)) && Represents(p, v, point(n + 1))
      ensures Represents(p, X25519.Double(p, u), point(2 * n))
        && Represents(p, X25519.Double(p, v), point(2 * (n + 1)))
        && Represents(p, X25519.AddLine(p, x1, u, v), point(2 * n + 1))
        && Represents(p, X25519.AddLine(p, x1, v, u), point(2 * n + 1))
    {
      RungOnCurve(p, b, x1, point, n, u, v);
    }
  }

  lemma {:induction false} SumAt(p: int, b: int, x1: int, point: int -> Point, m: int, n: int, k: int)
    requires Multiples(p, b, x1, point) && k == m + n
    ensures OnCurve(p, b, point(m)) && point(-m) == Negative(point(m)) && Sum(p, b, point(m), point(n), point(k))
  {
    assert At(m, n);
  }

  lemma {:induction false} DoubledOnCurve(p: int, b: int, x1: int, point: int -> Point, n: int, u: X25519.Line)
    requires Smooth(p) && Multiples(p, b, x1, point) && Represents(p, u, point(n))
    ensures Represents(p, X25519.Double(p, u), point(2 * n))
  {
    SumAt(p, b, x1, point, n, n, 2 * n);
    DoubleRepresents(p, b, point(n), point(2 * n), u);
  }

  lemma {:induction false} NeighboursAt(p: int, b: int, x1: int, point: int -> Point, n: int)
    requires Multiples(p, b, x1, point)
    ensures Neighbours(p, b, point(n), point(n + 1), point(2 * n + 1), point(1), x1)
  {
    SumAt(p, b, x1, point, n, n + 1, 2 * n + 1);
    SumAt(p, b, x1, point, n + 1, -n, 1);
  }

  lemma {:induction false} RungOnCurve(p: int, b: int, x1: int, point: int -> Point, n: nat, u: X25519.Line,
      v: X25519.Line)
    requires Smooth(p) && Multiples(p, b, x1, point) && Represents(p, u, point(n)) && Represents(p, v, point(n + 1))
    ensures Represents(p, X25519.Double(p, u), point(2 * n))
    ensures Represents(p, X25519.Double(p, v), point(2 * (n + 1)))
    ensures Represents(p, X25519.AddLine(p, x1, u, v), point(2 * n + 1))
    ensures Represents(p, X25519.AddLine(p, x1, v, u), point(2 * n + 1))
  {
    DoubledOnCurve(p, b, x1, point, n, u);
    DoubledOnCurve(p, b, x1, point, n + 1, v);
    NeighboursAt(p, b, x1, point, n);
    AddRepresents(p, b, point(n), point(n + 1), point(2 * n + 1), point(1), x1, u, v);
  }

  // ----- what comes out

  /** X / Z by the inversion chain is the coordinate of the point, and 0 at infinity. */
  lemma {:induction false} QuotientIs(p: int, u: X25519.Line, s: Point)
    requires Prime(p) && p == FieldElements.Ones(250) * 32 + 13 && Represents(p, u, s)
    ensures X25519.Quotient(p, u) == if s.Infinity? then 0 else s.x % p
  {
    var e := FieldElements.Ones(250) * 32 + 11;
    var w := FieldElements.Power(p, u.z, e);
    if s.Infinity? {
      ZeroTimes(p, u.z, FieldElements.Power(p, u.z, e - 1));
      ZeroTimes(p, w, u.x);
    } else {
      Fermat(p, u.z);
      FieldElements.InvertIsInverse(p, u.z);
      Divide(p, u.x, u.z, w, s.x);
    }
  }

  lemma {:induction false} Divide(p: int, x: int, z: int, w: int, c: int)
    requires p > 0 && Cong(x, c * z, p) && FieldElements.Mul(p, w, z) == 1 % p
    ensures (x * w) % p == c % p
  {
    CongMul(x, c * z, w, w, p);
    FieldElements.ModCong(w * z, p);
    FieldElements.ModCong(1, p);
    CongMul(c, c, w * z, 1, p);
    assert (c * z) * w == c * (w * z);
  }
}
