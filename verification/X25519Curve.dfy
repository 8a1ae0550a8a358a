/** X25519 on the curve: the result is the coordinate of the clamped multiple, and two sides agree. */
module X25519Curve {
  import opened ModArith
  import opened PolyPacking
  import opened ScalarDigits
  import opened FieldLimbs
  import opened PrimeFields
  import opened MontgomeryCurve
  import opened CurveLadder
  import FieldElements
  import LadderLimbs
  import Ed25519
  import X25519

  /** What stands for a point on the wire: its coordinate, and 0 for the point at infinity. */
  function Coordinate(p: int, s: Point): (x: int)
    requires p > 0
    ensures 0 <= x < p
  {
    if s.Infinity? then 0 else s.x % p
  }

  lemma {:induction false} PowerSum(m: nat, n: nat, k: nat, v: int, w: int)
    requires k == m + n && Pow2(m) == v && Pow2(n) == w
    ensures Pow2(k) == v * w
  {
    PowAdd2(m, n);
  }

  lemma {:induction false} TopIs(n: nat)
    requires n == 250
    ensures Pow2(n + 5) == TOP
  {
    var (a, b, c, d, e) := (5, 25, 50, 100, 200);
    assert Pow2(a) == 32;
    PowerSum(a, a, 10, 32, 32);
    PowerSum(10, 10, 20, 0x400, 0x400);
    PowerSum(20, a, b, 0x10_0000, 32);
    PowerSum(b, b, c, 0x200_0000, 0x200_0000);
    PowerSum(c, c, d, 0x4_0000_0000_0000, 0x4_0000_0000_0000);
    PowerSum(d, d, e, 0x10_0000_0000_0000_0000_0000_0000, 0x10_0000_0000_0000_0000_0000_0000);
    PowerSum(e, c, n, 0x100_0000_0000_0000_0000_0000_0000_0000_0000_0000_0000_0000_0000, 0x4_0000_0000_0000);
    PowerSum(n, a, n + 5, 0x400_0000_0000_0000_0000_0000_0000_0000_0000_0000_0000_0000_0000_0000_0000_0000, 32);
  }

  lemma {:induction false} ModulusIs(n: nat)
    requires n == 250
    ensures P == FieldElements.Ones(n) * 32 + 13
  {
    FieldElements.ChainExponent(n + 5);
    TopIs(n);
  }

  lemma {:induction false} CurveIsSmooth()
    ensures Smooth(P)
  {
  }

  /** The scalar multiplication of the source, for every point on the curve or its twist but those of coordinate 0. */
  method MultiplyPoint(n: seq<int>, point: seq<int>, smallOrder: bool, ghost b: int, ghost multiple: int -> Point)
    returns (res: int, q: seq<int>)
    requires Bytes(n, 32) && Bytes(point, 32) && (!smallOrder ==> Multiples(P, b, Low255(point) % P, multiple))
    ensures res == if smallOrder then -1 else 0
    ensures !smallOrder ==> q == ToBytes(Coordinate(P, multiple(Value(Ed25519.Clamp(n)))), 32)
  {
    ghost var on := (k, u) => Represents(P, u, multiple(k));
    if !smallOrder {
      CurveIsSmooth();
      CurveArithmetic(P, b, Low255(point) % P, multiple);
    }
    ghost var u;
    res, q, u := LadderLimbs.ScalarMult(n, point, smallOrder, on);
    if !smallOrder {
      ModulusIs(250);
      QuotientIs(P, u, multiple(Value(Ed25519.Clamp(n))));
    }
  }

  lemma {:induction false} ScaledAt(p: int, b: int, x1: int, point: int -> Point, k: int, m: int, n: int)
    requires Multiples(p, b, x1, point)
    ensures OnCurve(p, b, point(k * m)) && point(k * -m) == Negative(point(k * m))
    ensures MontgomeryCurve.Sum(p, b, point(k * m), point(k * n), point(k * (m + n)))
  {
    assert k * -m == -(k * m) && k * (m + n) == k * m + k * n;
    SumAt(p, b, x1, point, k * m, k * n, k * (m + n));
  }

  /** The multiples of a multiple. */
  lemma {:induction false} MultiplesOf(p: int, b: int, x1: int, point: int -> Point, k: int, f: int -> Point)
    requires Multiples(p, b, x1, point) && point(k).Affine? && !Cong(point(k).x, 0, p)
    requires forall n :: f(n) == point(k * n)
    ensures Multiples(p, b, Coordinate(p, point(k)), f)
  {
    FieldElements.ModCong(point(k).x, p);
    assert k * 0 == 0 && k * 1 == k;
    forall m, n {:trigger At(m, n)}
      ensures OnCurve(p, b, f(m)) && f(-m) == Negative(f(m)) && MontgomeryCurve.Sum(p, b, f(m), f(n), f(m + n))
    {
      ScaledAt(p, b, x1, point, k, m, n);
    }
  }

  /**
    Agreement: with the secrets k and l each side multiplies what the other side sent, and both get the coordinate
    of the k l-fold.
   */
  lemma {:induction false} Agreement(p: int, b: int, x1: int, point: int -> Point, k: int, l: int, f: int -> Point,
      g: int -> Point)
    requires Multiples(p, b, x1, point)
    requires point(k).Affine? && !Cong(point(k).x, 0, p) && point(l).Affine? && !Cong(point(l).x, 0, p)
    requires (forall n :: f(n) == point(k * n)) && forall n :: g(n) == point(l * n)
    ensures Multiples(p, b, Coordinate(p, point(k)), f) && Multiples(p, b, Coordinate(p, point(l)), g)
    ensures f(l) == g(k) == point(k * l)
  {
    MultiplesOf(p, b, x1, point, k, f);
    MultiplesOf(p, b, x1, point, l, g);
    assert l * k == k * l;
  }
}
