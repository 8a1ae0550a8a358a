/**
  The curves b y^2 = x^3 + 486662 x^2 + x over the residues modulo a prime, their chords and tangents, and why
  the line formulas of the ladder follow them. With b = 1 this is Curve25519; the other b give its twist.
 */
module MontgomeryCurve {
  import opened ModArith
  import opened PrimeFields
  import FieldElements
  import X25519

  const A := 486662

  // ----- points

  datatype Point = Infinity | Affine(x: int, y: int)

  /** x^3 + a x^2 + x. */
  function Cubic(a: int, x: int): int { x * (x * x + a * x + 1) }

  ghost predicate OnCurve(p: int, b: int, s: Point)
    requires p > 0
  {
    s.Affine? ==> Cong(b * (s.y * s.y), Cubic(A, s.x), p)
  }

  ghost predicate Same(p: int, s: Point, t: Point)
    requires p > 0
  {
    match (s, t)
    case (Infinity, Infinity) => true
    case (Affine(x, y), Affine(x', y')) => Cong(x, x', p) && Cong(y, y', p)
    case _ => false
  }

  function Negative(s: Point): Point {
    if s.Infinity? then s else Affine(s.x, -s.y)
  }

  /**
    r lies on the line of slope m / n through s and t, mirrored:
    x(r) = b (m / n)^2 - A - x(s) - x(t), y(r) = (m / n) (x(s) - x(r)) - y(s).
   */
  ghost predicate OnLine(p: int, b: int, s: Point, t: Point, r: Point, m: int, n: int)
    requires p > 0 && s.Affine? && t.Affine?
  {
    && r.Affine?
    && Cong(r.x * (n * n), b * (m * m) - (A + s.x + t.x) * (n * n), p)
    && Cong(r.y * n, m * (s.x - r.x) - s.y * n, p)
  }

  /** Addition by chords and tangents. */
  ghost predicate Sum(p: int, b: int, s: Point, t: Point, r: Point)
    requires p > 0
  {
    if s.Infinity? then Same(p, r, t)
    else if t.Infinity? then Same(p, r, s)
    else if !Cong(s.x, t.x, p) then OnLine(p, b, s, t, r, t.y - s.y, t.x - s.x)
    else if Cong(s.y + t.y, 0, p) then r == Infinity
    else OnLine(p, b, s, t, r, 3 * (s.x * s.x) + 2 * A * s.x + 1, 2 * b * s.y)
  }

  // ----- the chord

  lemma {:induction false} Regroup(a: int, b: int, c: int, d: int)
    ensures (a * b) * (c * d) == (a * c) * (b * d)
  {
  }

  lemma {:induction false} SquareOfSum(u: int, v: int)
    ensures (u + v) * (u + v) == u * u + 2 * (u * v) + v * v
  {
  }

  lemma {:induction false} CrossTerm(a: int, s: int, t: int, r: int)
    ensures 2 * ((s * r) * (2 * a * t)) == 4 * a * t * s * r
  {
  }

  lemma {:induction false} SumSquared(a: int, s: int, t: int)
    ensures (s * (1 + t) + 2 * a * t) * (s * (1 + t) + 2 * a * t)
      == s * s * (1 + t) * (1 + t) + 4 * a * t * s * (1 + t) + 4 * a * a * t * t
  {
    var r := 1 + t;
    SquareOfSum(s * r, 2 * a * t);
    CrossTerm(a, s, t, r);
    Regroup(s, r, s, r);
    Regroup(2 * a, t, 2 * a, t);
    assert (s * s) * (r * r) == s * s * r * r;
    assert (2 * a * (2 * a)) * (t * t) == 4 * a * a * t * t;
  }

  lemma {:induction false} Foil(u: int, v: int, x: int, w: int, a: int)
    ensures (u + a * x) * (v + a * w) == u * v + a * (u * w + x * v) + a * a * (x * w)
  {
  }

  lemma {:induction false} Mixed(x: int, w: int, s: int, t: int)
    requires s == x + w && t == x * w
    ensures (x * x + 1) * (w * w + 1) == t * t + (s * s - 2 * t) + 1
    ensures (x * x + 1) * w + x * (w * w + 1) == t * s + s
  {
    assert (x * x + 1) * (w * w + 1) == (x * x) * (w * w) + x * x + w * w + 1;
    assert (x * x) * (w * w) == (x * w) * (x * w);
    assert (x * x + 1) * w == (x * w) * x + w;
    assert x * (w * w + 1) == (x * w) * w + x;
  }

  lemma {:induction false} Quadratics(x: int, w: int, a: int, s: int, t: int)
    requires s == x + w && t == x * w
    ensures (x * x + a * x + 1) * (w * w + a * w + 1) == t * t + (s * s - 2 * t) + 1 + a * (t * s + s) + a * a * t
  {
    Foil(x * x + 1, w * w + 1, x, w, a);
    Mixed(x, w, s, t);
  }

  lemma {:induction false} Spread(a: int, s: int, t: int, q: int)
    ensures 4 * (t * (q + a * (t * s + s) + a * a * t)) == 4 * (t * q) + 4 * a * t * s * (1 + t) + 4 * a * a * t * t
  {
  }

  lemma {:induction false} PlainShapes(s: int, t: int)
    ensures s * s * (1 + t) * (1 + t) - 4 * (t * (t * t + (s * s - 2 * t) + 1)) == (t - 1) * (t - 1) * (s * s - 4 * t)
  {
  }

  lemma {:induction false} Shapes(a: int, s: int, t: int)
    ensures s * s * (1 + t) * (1 + t) + 4 * a * t * s * (1 + t) + 4 * a * a * t * t
      - 4 * (t * (t * t + (s * s - 2 * t) + 1 + a * (t * s + s) + a * a * t))
      == (t - 1) * (t - 1) * (s * s - 4 * t)
  {
    Spread(a, s, t, t * t + (s * s - 2 * t) + 1);
    PlainShapes(s, t);
  }

  lemma {:induction false} CubicProduct(a: int, x: int, w: int)
    ensures Cubic(a, x) * Cubic(a, w) == (x * w) * ((x * x + a * x + 1) * (w * w + a * w + 1))
  {
    Regroup(x, x * x + a * x + 1, w, w * w + a * w + 1);
  }

  lemma {:induction false} Difference(x: int, w: int)
    ensures (x + w) * (x + w) - 4 * (x * w) == (w - x) * (w - x)
  {
  }

  /** What the two cubics and the chord leave: the half sum of the numerators. */
  function Middle(a: int, x: int, w: int): int { (x + w) * (1 + x * w) + 2 * a * (x * w) }

  /** M^2 - 4 f(x) f(w) == (x w - 1)^2 (w - x)^2 */
  lemma {:induction false} ChordIdentity(a: int, x: int, w: int)
    ensures Middle(a, x, w) * Middle(a, x, w) - 4 * (Cubic(a, x) * Cubic(a, w))
      == (x * w - 1) * (x * w - 1) * ((w - x) * (w - x))
  {
    var s, t := x + w, x * w;
    SumSquared(a, s, t);
    CubicProduct(a, x, w);
    Quadratics(x, w, a, s, t);
    Shapes(a, s, t);
    Difference(x, w);
  }

  lemma {:induction false} Cubes(x: int, w: int, a: int)
    ensures Cubic(a, x) + Cubic(a, w) - (a + x + w) * ((w - x) * (w - x)) == Middle(a, x, w)
  {
    var k := (w - x) * (w - x);
    assert k == x * x + w * w - 2 * (x * w);
    assert Cubic(a, x) == x * (x * x) + a * (x * x) + x;
    assert Cubic(a, w) == w * (w * w) + a * (w * w) + w;
    assert a * k == a * (x * x) + a * (w * w) - 2 * a * (x * w);
    assert (x + w) * k == x * (x * x) + w * (w * w) - (x + w) * (x * w);
    assert (x + w) * (1 + x * w) == x + w + (x + w) * (x * w);
  }

  /** s k == b (y' - y)^2 - (A + x + w) k, in terms of the middle: M - 2 h with h = b y y'. */
  lemma {:induction false} Numerator(p: int, a: int, b: int, x: int, y: int, w: int, z: int, v: int)
    requires p > 0 && Cong(b * (y * y), Cubic(a, x), p) && Cong(b * (z * z), Cubic(a, w), p)
    requires Cong(v * ((w - x) * (w - x)), b * ((z - y) * (z - y)) - (a + x + w) * ((w - x) * (w - x)), p)
    ensures Cong(v * ((w - x) * (w - x)), Middle(a, x, w) - 2 * (b * (y * z)), p)
  {
    var k, h := (w - x) * (w - x), b * (y * z);
    assert b * ((z - y) * (z - y)) == b * (z * z) + b * (y * y) - 2 * h by { SquareOf(b, y, z); }
    CongAdd(b * (z * z), Cubic(a, w), b * (y * y), Cubic(a, x), p);
    Cubes(x, w, a);
    CongSub(b * (z * z) + b * (y * y), Cubic(a, w) + Cubic(a, x), 2 * h + (a + x + w) * k, 2 * h + (a + x + w) * k, p);
  }

  lemma {:induction false} SquareOf(b: int, y: int, z: int)
    ensures b * ((z - y) * (z - y)) == b * (z * z) + b * (y * y) - 2 * (b * (y * z))
  {
  }

  lemma {:induction false} HalvesProduct(p: int, a: int, b: int, x: int, y: int, w: int, z: int, m: int, h: int)
    requires p > 0 && Cong(b * (y * y), Cubic(a, x), p) && Cong(b * (z * z), Cubic(a, w), p)
    requires m == Middle(a, x, w) && h == b * (y * z)
    ensures Cong((m - 2 * h) * (m + 2 * h), (x * w - 1) * (x * w - 1) * ((w - x) * (w - x)), p)
  {
    assert (m - 2 * h) * (m + 2 * h) == m * m - 4 * (h * h);
    assert h * h == (b * (y * y)) * (b * (z * z)) by { Regroup(b, y * y, b, z * z); Regroup(b, y * z, b, y * z);
      Regroup(y, z, y, z); }
    CongMul(b * (y * y), Cubic(a, x), b * (z * z), Cubic(a, w), p);
    CongMul(4, 4, h * h, Cubic(a, x) * Cubic(a, w), p);
    CongSub(m * m, m * m, 4 * (h * h), 4 * (Cubic(a, x) * Cubic(a, w)), p);
    ChordIdentity(a, x, w);
  }

  /**
    The affine law: for two points with different x, the coordinates u of the sum and v of the difference satisfy
    u v (w - x)^2 == (x w - 1)^2.
   */
  lemma {:induction false} ChordLaw(p: int, a: int, b: int, x: int, y: int, w: int, z: int, u: int, v: int)
    requires Prime(p) && Cong(b * (y * y), Cubic(a, x), p) && Cong(b * (z * z), Cubic(a, w), p) && !Cong(w - x, 0, p)
    requires Cong(u * ((w - x) * (w - x)), b * ((z - y) * (z - y)) - (a + x + w) * ((w - x) * (w - x)), p)
    requires Cong(v * ((w - x) * (w - x)), b * ((z + y) * (z + y)) - (a + x + w) * ((w - x) * (w - x)), p)
    ensures Cong(u * v * ((w - x) * (w - x)), (x * w - 1) * (x * w - 1), p)
  {
    var k, m, h := (w - x) * (w - x), Middle(a, x, w), b * (y * z);
    Numerator(p, a, b, x, y, w, z, u);
    assert (-y) * (-y) == y * y && z - (-y) == z + y && b * ((-y) * z) == -h by { Signs(b, y, z); }
    Numerator(p, a, b, x, -y, w, z, v);
    CongMul(u * k, m - 2 * h, v * k, m + 2 * h, p);
    HalvesProduct(p, a, b, x, y, w, z, m, h);
    var e := (x * w - 1) * (x * w - 1);
    assert (u * k) * (v * k) == (u * v * k) * k by { Regroup(u, k, v, k); }
    SquareZero(p, w - x);
    Cancelled(p, u * v * k, e, k);
  }

  lemma {:induction false} Signs(b: int, y: int, z: int)
    ensures (-y) * (-y) == y * y && b * ((-y) * z) == -(b * (y * z))
  {
  }

  // ----- the tangent

  lemma {:induction false} TangentIdentity(a: int, x: int)
    ensures (3 * (x * x) + 2 * a * x + 1) * (3 * (x * x) + 2 * a * x + 1) - 4 * ((a + x + x) * Cubic(a, x))
      == (x * x - 1) * (x * x - 1)
  {
  }

  lemma {:induction false} DoubledSquare(b: int, y: int)
    ensures (2 * b * y) * (2 * b * y) == 4 * (b * (b * (y * y)))
  {
  }

  lemma {:induction false} PullOut(b: int, m: int, e: int, c: int)
    ensures b * m - e * (4 * (b * c)) == (m - 4 * (e * c)) * b
  {
  }

  lemma {:induction false} TangentWidth(p: int, a: int, b: int, x: int, y: int, n: int)
    requires p > 0 && Cong(b * (y * y), Cubic(a, x), p) && n == 2 * b * y
    ensures Cong(n * n, 4 * (b * Cubic(a, x)), p)
  {
    DoubledSquare(b, y);
    CongMul(b, b, b * (y * y), Cubic(a, x), p);
    CongMul(4, 4, b * (b * (y * y)), b * Cubic(a, x), p);
  }

  /** The coordinate u of the doubled point satisfies 4 u f(x) == (x^2 - 1)^2. */
  lemma {:induction false} TangentLaw(p: int, a: int, b: int, x: int, y: int, w: int, u: int, m: int, n: int)
    requires Prime(p) && Cong(b * (y * y), Cubic(a, x), p) && Cong(w, x, p) && !Cong(b, 0, p)
    requires m == 3 * (x * x) + 2 * a * x + 1 && n == 2 * b * y
    requires Cong(u * (n * n), b * (m * m) - (a + x + w) * (n * n), p)
    ensures Cong(u * (4 * Cubic(a, x)), (x * x - 1) * (x * x - 1), p)
  {
    TangentWidth(p, a, b, x, y, n);
    CongAdd(w, x, a + x, a + x, p);
    TangentSides(p, b, m * m, a + x + w, a + x + x, n * n, Cubic(a, x), u);
    TangentAt(a, x, m);
    Cancelled(p, u * (4 * Cubic(a, x)), m * m - 4 * ((a + x + x) * Cubic(a, x)), b);
  }

  lemma {:induction false} TangentAt(a: int, x: int, m: int)
    requires m == 3 * (x * x) + 2 * a * x + 1
    ensures m * m - 4 * ((a + x + x) * Cubic(a, x)) == (x * x - 1) * (x * x - 1)
  {
    TangentIdentity(a, x);
  }

  lemma {:induction false} TangentSides(p: int, b: int, mm: int, e: int, e': int, n: int, c: int, u: int)
    requires p > 0 && Cong(n, 4 * (b * c), p) && Cong(e, e', p) && Cong(u * n, b * mm - e * n, p)
    ensures Cong(u * (4 * c) * b, (mm - 4 * (e' * c)) * b, p)
  {
    CongMul(u, u, n, 4 * (b * c), p);
    CongMul(e, e', n, 4 * (b * c), p);
    CongSub(b * mm, b * mm, e * n, e' * (4 * (b * c)), p);
    PullOut(b, mm, e', c);
    assert u * (4 * (b * c)) == u * (4 * c) * b;
  }

  // ----- the line formulas without their intermediate reductions

  lemma {:induction false} AddedIs(p: int, a: int, b: int, x: int, y: int)
    requires p > 0 && Cong(a, x, p) && Cong(b, y, p)
    ensures Cong(FieldElements.Add(p, a, b), x + y, p) && Cong(FieldElements.Sub(p, a, b), x - y, p)
  {
    FieldElements.ModCong(a + b, p);
    FieldElements.ModCong(a - b, p);
    CongAdd(a, x, b, y, p);
    CongSub(a, x, b, y, p);
  }

  lemma {:induction false} MultipliedIs(p: int, a: int, b: int, x: int, y: int)
    requires p > 0 && Cong(a, x, p) && Cong(b, y, p)
    ensures Cong(FieldElements.Mul(p, a, b), x * y, p)
  {
    FieldElements.ModCong(a * b, p);
    CongMul(a, x, b, y, p);
  }

  lemma {:induction false} CrossProducts(x: int, z: int, x': int, z': int)
    ensures (x' - z') * (x + z) + (x' + z') * (x - z) == 2 * (x * x' - z * z')
    ensures (x' - z') * (x + z) - (x' + z') * (x - z) == -2 * (x * z' - x' * z)
  {
  }

  lemma {:induction false} FourTimes(a: int)
    ensures (2 * a) * (2 * a) == 4 * (a * a) && (-2 * a) * (-2 * a) == 4 * (a * a)
  {
  }

  /** Differential addition is (4 (X X' - Z Z')^2 : 4 x1 (X Z' - X' Z)^2). */
  lemma {:induction false} AddLineIs(p: int, x1: int, u: X25519.Line, v: X25519.Line)
    requires p > 0
    ensures var (c, d) := (u.x * v.x - u.z * v.z, u.x * v.z - v.x * u.z);
      Cong(X25519.AddLine(p, x1, u, v).x, 4 * (c * c), p) && Cong(X25519.AddLine(p, x1, u, v).z, x1 * (4 * (d * d)), p)
  {
    var (c, d) := (u.x * v.x - u.z * v.z, u.x * v.z - v.x * u.z);
    var (e, f) := (FieldElements.Sub(p, v.x, v.z), FieldElements.Add(p, u.x, u.z));
    var (g, h) := (FieldElements.Add(p, v.x, v.z), FieldElements.Sub(p, u.x, u.z));
    var (da, cb) := (FieldElements.Mul(p, e, f), FieldElements.Mul(p, g, h));
    AddedIs(p, v.x, v.z, v.x, v.z);
    AddedIs(p, u.x, u.z, u.x, u.z);
    MultipliedIs(p, e, f, v.x - v.z, u.x + u.z);
    MultipliedIs(p, g, h, v.x + v.z, u.x - u.z);
    CrossProducts(u.x, u.z, v.x, v.z);
    AddedIs(p, da, cb, (v.x - v.z) * (u.x + u.z), (v.x + v.z) * (u.x - u.z));
    var (s, t) := (FieldElements.Add(p, da, cb), FieldElements.Sub(p, da, cb));
    MultipliedIs(p, s, s, 2 * c, 2 * c);
    MultipliedIs(p, t, t, -2 * d, -2 * d);
    FourTimes(c);
    FourTimes(d);
    MultipliedIs(p, x1, FieldElements.Mul(p, t, t), x1, 4 * (d * d));
  }

  lemma {:induction false} SquaresProduct(x: int, z: int)
    ensures ((x + z) * (x + z)) * ((x - z) * (x - z)) == (x * x - z * z) * (x * x - z * z)
    ensures (x + z) * (x + z) - (x - z) * (x - z) == 4 * (x * z)
    ensures (x + z) * (x + z) + 121665 * (4 * (x * z)) == x * x + A * (x * z) + z * z
  {
    Regroup(x + z, x + z, x - z, x - z);
    assert (x + z) * (x - z) == x * x - z * z;
  }

  /** Doubling is ((X^2 - Z^2)^2 : 4 X Z (X^2 + 486662 X Z + Z^2)). */
  lemma {:induction false} DoubleIs(p: int, u: X25519.Line)
    requires p > 0
    ensures Cong(X25519.Double(p, u).x, (u.x * u.x - u.z * u.z) * (u.x * u.x - u.z * u.z), p)
    ensures Cong(X25519.Double(p, u).z, 4 * (u.x * u.z) * (u.x * u.x + A * (u.x * u.z) + u.z * u.z), p)
  {
    var (s, t) := (FieldElements.Add(p, u.x, u.z), FieldElements.Sub(p, u.x, u.z));
    var (aa, bb) := (FieldElements.Mul(p, s, s), FieldElements.Mul(p, t, t));
    var e := FieldElements.Sub(p, aa, bb);
    AddedIs(p, u.x, u.z, u.x, u.z);
    MultipliedIs(p, s, s, u.x + u.z, u.x + u.z);
    MultipliedIs(p, t, t, u.x - u.z, u.x - u.z);
    var (a, b) := ((u.x + u.z) * (u.x + u.z), (u.x - u.z) * (u.x - u.z));
    SquaresProduct(u.x, u.z);
    MultipliedIs(p, aa, bb, a, b);
    AddedIs(p, aa, bb, a, b);
    MultipliedIs(p, 121665, e, 121665, a - b);
    AddedIs(p, aa, FieldElements.Mul(p, 121665, e), a, 121665 * (a - b));
    MultipliedIs(p, e, FieldElements.Add(p, aa, FieldElements.Mul(p, 121665, e)), a - b, a + 121665 * (a - b));
  }
}
