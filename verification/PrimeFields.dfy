/** Residues modulo a prime: products that vanish, and Fermat's little theorem. */
module PrimeFields {
  import opened ModArith
  import FieldElements

  /** A product is zero only if a factor is. */
  ghost predicate Prime(p: int) {
    p > 2 && forall a, b :: Cong(Times(a, b), 0, p) ==> Cong(a, 0, p) || Cong(b, 0, p)
  }

  function Times(a: int, b: int): int { a * b }

  lemma {:induction false} NonZero(p: int, a: int, b: int)
    requires Prime(p) && !Cong(a, 0, p) && !Cong(b, 0, p)
    ensures !Cong(a * b, 0, p)
  {
    assert a * b == Times(a, b);
  }

  lemma {:induction false} Cancelled(p: int, a: int, b: int, k: int)
    requires Prime(p) && Cong(a * k, b * k, p) && !Cong(k, 0, p)
    ensures Cong(a, b, p)
  {
    CongSub(a * k, b * k, b * k, b * k, p);
    assert a * k - b * k == Times(a - b, k);
    CongAdd(a - b, 0, b, b, p);
  }

  lemma {:induction false} TwoNotZero(p: int)
    requires Prime(p)
    ensures !Cong(2, 0, p) && !Cong(4, 0, p)
  {
    assert 2 % p == 2;
    NonZero(p, 2, 2);
  }

  lemma {:induction false} SquareZero(p: int, a: int)
    requires Prime(p) && !Cong(a, 0, p)
    ensures !Cong(a * a, 0, p)
  {
    NonZero(p, a, a);
  }

  // ----- binomial coefficients

  function Choose(n: nat, k: nat): nat {
    if k == 0 then 1 else if n == 0 then 0 else Choose(n - 1, k - 1) + Choose(n - 1, k)
  }

  lemma {:induction false} ChooseBeyond(n: nat, k: nat)
    requires k > n
    ensures Choose(n, k) == 0
    decreases n
  {
    if n > 0 {
      ChooseBeyond(n - 1, k - 1);
      ChooseBeyond(n - 1, k);
    }
  }

  /** k C(n, k) == n C(n - 1, k - 1) */
  lemma {:induction false} Absorption(n: nat, k: nat)
    requires n > 0 && k > 0
    ensures k * Choose(n, k) == n * Choose(n - 1, k - 1)
    decreases n
  {
    if n == 1 {
      if k > 1 {
        ChooseBeyond(1, k);
        ChooseBeyond(0, k - 1);
      }
    } else {
      Absorption(n - 1, k);
      if k > 1 {
        Absorption(n - 1, k - 1);
        Gathered(n, k, Choose(n - 2, k - 2), Choose(n - 2, k - 1), Choose(n - 1, k - 1), Choose(n - 1, k));
      }
    }
  }

  lemma {:induction false} Gathered(n: int, k: int, a: int, b: int, c: int, d: int)
    requires (k - 1) * c == (n - 1) * a && k * d == (n - 1) * b && c == a + b
    ensures k * (c + d) == n * c
  {
    assert k * (c + d) == (k - 1) * c + c + k * d;
    assert (n - 1) * a + (n - 1) * b == (n - 1) * c;
  }

  function IntPower(a: int, n: nat): int {
    if n == 0 then 1 else IntPower(a, n - 1) * a
  }

  /** The first m terms of the binomial expansion of (a + 1)^n. */
  function Expansion(n: nat, m: nat, a: int): int
    decreases m
  {
    if m == 0 then 0 else Expansion(n, m - 1, a) + Choose(n, m - 1) * IntPower(a, m - 1)
  }

  lemma {:induction false} ExpansionStep(n: nat, m: nat, a: int)
    ensures Expansion(n + 1, m + 1, a) == Expansion(n, m + 1, a) + a * Expansion(n, m, a)
    decreases m
  {
    if m > 0 {
      ExpansionStep(n, m - 1, a);
      Collected(Choose(n, m - 1), Choose(n, m), IntPower(a, m - 1), Expansion(n, m - 1, a), a);
    }
  }

  lemma {:induction false} Collected(c: int, d: int, w: int, x: int, a: int)
    ensures a * x + (c + d) * (w * a) == d * (w * a) + a * (x + c * w)
  {
  }

  lemma {:induction false} BinomialTheorem(n: nat, a: int)
    ensures IntPower(a + 1, n) == Expansion(n, n + 1, a)
    decreases n
  {
    if n == 0 {
      assert Expansion(0, 0, a) == 0;
    } else {
      BinomialTheorem(n - 1, a);
      ExpansionStep(n - 1, n, a);
      ChooseBeyond(n - 1, n);
    }
  }

  // ----- Fermat

  lemma {:induction false} InnerTerm(p: int, k: nat)
    requires Prime(p) && 0 < k < p
    ensures Cong(Choose(p, k), 0, p)
  {
    Absorption(p, k);
    CongIntro(p * Choose(p - 1, k - 1), 0, p, Choose(p - 1, k - 1));
    assert k % p == k;
    if !Cong(Choose(p, k), 0, p) {
      NonZero(p, k, Choose(p, k));
    }
  }

  lemma {:induction false} OnlyFirst(p: int, m: nat, a: int)
    requires Prime(p) && 0 < m <= p
    ensures Cong(Expansion(p, m, a), 1, p)
    decreases m
  {
    if m == 1 {
      assert Expansion(p, 0, a) == 0 && Choose(p, 0) == 1 && IntPower(a, 0) == 1;
    } else {
      OnlyFirst(p, m - 1, a);
      InnerTerm(p, m - 1);
      CongMul(Choose(p, m - 1), 0, IntPower(a, m - 1), IntPower(a, m - 1), p);
      CongAdd(Expansion(p, m - 1, a), 1, Choose(p, m - 1) * IntPower(a, m - 1), 0, p);
    }
  }

  lemma {:induction false} ChooseAll(n: nat)
    ensures Choose(n, n) == 1
    decreases n
  {
    if n > 0 {
      ChooseAll(n - 1);
      ChooseBeyond(n - 1, n);
    }
  }

  lemma {:induction false} PowerOfNext(p: int, a: int)
    requires Prime(p)
    ensures Cong(IntPower(a + 1, p), IntPower(a, p) + 1, p)
  {
    BinomialTheorem(p, a);
    OnlyFirst(p, p, a);
    ChooseAll(p);
    CongAdd(Expansion(p, p, a), 1, IntPower(a, p), IntPower(a, p), p);
  }

  lemma {:induction false} FermatPower(p: int, a: nat)
    requires Prime(p)
    ensures Cong(IntPower(a, p), a, p)
    decreases a
  {
    if a == 0 {
      assert IntPower(0, p) == IntPower(0, p - 1) * 0;
    } else {
      FermatPower(p, a - 1);
      PowerOfNext(p, a - 1);
      CongAdd(IntPower(a - 1, p), a - 1, 1, 1, p);
    }
  }

  lemma {:induction false} PowerIs(p: int, z: int, n: nat)
    requires p > 0
    ensures Cong(FieldElements.Power(p, z, n), IntPower(z % p, n), p)
    decreases n
  {
    FieldElements.ModCong(1, p);
    if n > 0 {
      PowerIs(p, z, n - 1);
      FieldElements.ModCong(z, p);
      CongMul(FieldElements.Power(p, z, n - 1), IntPower(z % p, n - 1), z, z % p, p);
      FieldElements.ModCong(FieldElements.Power(p, z, n - 1) * z, p);
    }
  }

  /** Fermat's little theorem. */
  lemma {:induction false} Fermat(p: int, z: int)
    requires Prime(p) && !Cong(z, 0, p)
    ensures FieldElements.Power(p, z, p - 1) == 1 % p
  {
    FermatPower(p, z % p);
    PowerIs(p, z, p - 1);
    FieldElements.ModCong(z, p);
    assert IntPower(z % p, p) == IntPower(z % p, p - 1) * (z % p);
    Cancelled(p, IntPower(z % p, p - 1), 1, z % p);
    FieldElements.PowerReduced(p, z, p - 1);
    CongNear(FieldElements.Power(p, z, p - 1), 1 % p, p);
  }
}
