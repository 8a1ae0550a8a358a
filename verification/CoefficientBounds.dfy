/** Bounds on all coefficients of a polynomial at once. */
module CoefficientBounds {
  import opened PolyRing
  import opened NttLayers

  /** All coefficients are within b of zero. */
  predicate Bounded(a: Poly, b: int) {
    forall i :: 0 <= i < |a| ==> -b <= a[i] <= b
  }

  lemma {:induction false} ProductBound(a: int, x: int, b: int, y: int)
    requires -x <= a <= x && -y <= b <= y
    ensures -(x * y) <= a * b <= x * y
  {
    ProductBelow(a, x, b, y);
    ProductBelow(-a, x, b, y);
    assert -a * b == -(a * b);
  }

  lemma {:induction false} ProductBelow(a: int, x: int, b: int, y: int)
    requires -x <= a <= x && -y <= b <= y
    ensures a * b <= x * y
  {
    if a >= 0 {
      assert a * (y - b) >= 0 && (x - a) * y >= 0;
    } else {
      assert -a * (y + b) >= 0 && (x + a) * y >= 0;
    }
  }

  /** A block that is still as it was is still bounded. */
  lemma {:induction false} BlockBounded(s: Poly, t: Poly, p: nat, n: nat, b: int)
    requires |s| == |t| && p + n <= |s| && t[p..] == s[p..] && Bounded(s, b)
    ensures Bounded(Slice(t, p, n), b)
  {
    forall i | 0 <= i < n ensures Slice(t, p, n)[i] == s[p + i] {
      assert t[p..][i] == s[p..][i];
    }
  }

  /** Bounds block by block are bounds on the whole. */
  lemma {:induction false} AllBounded(s: Poly, n: nat, nb: nat, bound: int)
    requires n > 0 && |s| == nb * n
    requires forall b: nat | b < nb :: b * n + n <= |s| && Bounded(Slice(s, b * n, n), bound)
    ensures Bounded(s, bound)
  {
    forall i: nat | i < |s| ensures -bound <= s[i] <= bound {
      DivBelow(i, n, nb);
      var b := i / n;
      assert Slice(s, b * n, n)[i - b * n] == s[i];
    }
  }

  /** A joined block is bounded when both functions it is joined with are. */
  lemma {:induction false} BoundedJoined(f: (int, int) -> int, g: int -> int, s: Poly, s': Poly, o: nat, h: nat,
      m: int, bound: int, bound': int)
    requires Joined(f, g, s, s', o, h, m) && Bounded(Slice(s, o, 2 * h), bound)
    requires forall x {:trigger f(m, x)} :: -2 * bound <= x <= 2 * bound ==> -bound' <= f(m, x) <= bound'
    requires forall x {:trigger g(x)} :: -2 * bound <= x <= 2 * bound ==> -bound' <= g(x) <= bound'
    ensures Bounded(Slice(s', o, 2 * h), bound')
  {
    var x, x' := Slice(s, o, 2 * h), Slice(s', o, 2 * h);
    forall i: nat | i < 2 * h ensures -bound' <= x'[i] <= bound' {
      JoinedValue(f, g, s, s', o, h, m, i);
    }
  }
}
