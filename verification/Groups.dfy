/** Abelian groups as values, and multiples of their elements. */
module Groups {

  datatype Group<!G> = Group(zero: G, add: (G, G) -> G, neg: G -> G)

  /** Names the elements at which the laws below are used. */
  predicate At<G>(a: G, b: G, c: G) { true }

  ghost predicate Abelian<G(!new)>(g: Group<G>) {
    forall a, b, c {:trigger At(a, b, c)} :: At(a, b, c) ==>
      && g.add(g.add(a, b), c) == g.add(a, g.add(b, c))
      && g.add(a, b) == g.add(b, a)
      && g.add(a, g.zero) == a
      && g.add(a, g.neg(a)) == g.zero
  }

  lemma {:induction false} Laws<G(!new)>(g: Group<G>, a: G, b: G, c: G)
    requires Abelian(g)
    ensures g.add(g.add(a, b), c) == g.add(a, g.add(b, c)) && g.add(a, b) == g.add(b, a)
    ensures g.add(a, g.zero) == a == g.add(g.zero, a) && g.add(a, g.neg(a)) == g.zero
  {
    assert At(a, b, c) && At(a, g.zero, c);
  }

  /** (a + b) + (c + d) == (a + c) + (b + d) */
  lemma {:induction false} Swap<G(!new)>(g: Group<G>, a: G, b: G, c: G, d: G)
    requires Abelian(g)
    ensures g.add(g.add(a, b), g.add(c, d)) == g.add(g.add(a, c), g.add(b, d))
  {
    Laws(g, a, b, g.add(c, d));
    Laws(g, b, c, d);
    Laws(g, c, b, d);
    Laws(g, a, c, g.add(b, d));
  }

  /** Inverses are unique. */
  lemma {:induction false} NegUnique<G(!new)>(g: Group<G>, a: G, b: G)
    requires Abelian(g) && g.add(a, b) == g.zero
    ensures b == g.neg(a)
  {
    Laws(g, g.neg(a), a, b);
    Laws(g, a, g.neg(a), b);
    Laws(g, b, a, a);
  }

  /** n times p, for any integer n. */
  function Multiple<G>(g: Group<G>, n: int, p: G): G
    decreases if n < 0 then -n else n
  {
    if n == 0 then g.zero
    else if n > 0 then g.add(Multiple(g, n - 1, p), p)
    else g.add(Multiple(g, n + 1, p), g.neg(p))
  }

  /** One more. */
  lemma {:induction false} MultipleNext<G(!new)>(g: Group<G>, n: int, p: G)
    requires Abelian(g)
    ensures Multiple(g, n + 1, p) == g.add(Multiple(g, n, p), p)
    ensures Multiple(g, n - 1, p) == g.add(Multiple(g, n, p), g.neg(p))
  {
    Laws(g, p, g.neg(p), p);
    if n < 0 {
      var m := Multiple(g, n + 1, p);
      Laws(g, m, g.neg(p), p);
    } else if n > 0 {
      var m := Multiple(g, n - 1, p);
      Laws(g, m, p, g.neg(p));
    }
  }

  lemma {:induction false} MultipleAdd<G(!new)>(g: Group<G>, m: int, n: int, p: G)
    requires Abelian(g)
    ensures Multiple(g, m + n, p) == g.add(Multiple(g, m, p), Multiple(g, n, p))
    decreases if n < 0 then -n else n
  {
    var x := Multiple(g, m, p);
    if n == 0 {
      Laws(g, x, x, x);
    } else if n > 0 {
      MultipleAdd(g, m, n - 1, p);
      MultipleNext(g, m + (n - 1), p);
      Laws(g, x, Multiple(g, n - 1, p), p);
    } else {
      MultipleAdd(g, m, n + 1, p);
      MultipleNext(g, m + (n + 1), p);
      Laws(g, x, Multiple(g, n + 1, p), g.neg(p));
    }
  }

  lemma {:induction false} MultipleNeg<G(!new)>(g: Group<G>, n: int, p: G)
    requires Abelian(g)
    ensures Multiple(g, -n, p) == g.neg(Multiple(g, n, p))
  {
    MultipleAdd(g, n, -n, p);
    NegUnique(g, Multiple(g, n, p), Multiple(g, -n, p));
  }

  lemma {:induction false} MultipleMultiple<G(!new)>(g: Group<G>, m: int, n: int, p: G)
    requires Abelian(g)
    ensures Multiple(g, m, Multiple(g, n, p)) == Multiple(g, m * n, p)
    decreases if m < 0 then -m else m
  {
    if m == 0 {
    } else if m > 0 {
      MultipleMultiple(g, m - 1, n, p);
      MultipleAdd(g, (m - 1) * n, n, p);
      assert (m - 1) * n + n == m * n;
    } else {
      MultipleMultiple(g, m + 1, n, p);
      MultipleNeg(g, n, p);
      MultipleAdd(g, (m + 1) * n, -n, p);
      assert (m + 1) * n + -n == m * n;
    }
  }

  /** Multiples of the neutral element. */
  lemma {:induction false} MultipleZero<G(!new)>(g: Group<G>, n: nat)
    requires Abelian(g)
    ensures Multiple(g, n, g.zero) == g.zero
    decreases n
  {
    if n > 0 {
      MultipleZero(g, n - 1);
      Laws(g, g.zero, g.zero, g.zero);
    }
  }

  /** When l times p is neutral, only the residue modulo l matters. */
  lemma {:induction false} MultipleMod<G(!new)>(g: Group<G>, n: int, l: int, p: G)
    requires Abelian(g) && l > 0 && Multiple(g, l, p) == g.zero
    ensures Multiple(g, n, p) == Multiple(g, n % l, p)
  {
    var k := n / l;
    assert n == k * l + n % l;
    MultipleAdd(g, k * l, n % l, p);
    MultipleMultiple(g, k, l, p);
    if k >= 0 {
      MultipleZero(g, k);
    } else {
      MultipleZero(g, -k);
      MultipleNeg(g, -k, g.zero);
      Laws(g, g.zero, g.zero, g.zero);
      Laws(g, g.neg(g.zero), g.zero, g.zero);
    }
    Laws(g, Multiple(g, n % l, p), g.zero, g.zero);
  }

  lemma {:induction false} MultipleNegated<G(!new)>(g: Group<G>, n: int, p: G)
    requires Abelian(g)
    ensures Multiple(g, n, g.neg(p)) == Multiple(g, -n, p)
  {
    Laws(g, g.zero, p, p);
    assert Multiple(g, -1, p) == g.add(Multiple(g, 0, p), g.neg(p));
    Laws(g, g.neg(p), p, p);
    MultipleMultiple(g, n, -1, p);
  }
}
