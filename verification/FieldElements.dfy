/** The field of Curve25519 as residues, powers, and the exponent of the inversion chain. */
module FieldElements {
  import opened ModArith

  /** A modulus; the source's is 2^255 - 19. */
  function Add(p: int, a: int, b: int): int
    requires p > 0
  {
    (a + b) % p
  }

  function Sub(p: int, a: int, b: int): int
    requires p > 0
  {
    (a - b) % p
  }

  function Mul(p: int, a: int, b: int): int
    requires p > 0
  {
    (a * b) % p
  }

  lemma {:induction false} ModCong(a: int, p: int)
    requires p > 0
    ensures Cong(a % p, a, p)
  {
    CongIntro(a % p, a, p, -(a / p));
  }

  lemma {:induction false} MulAssociates(p: int, a: int, b: int, c: int)
    requires p > 0
    ensures Mul(p, Mul(p, a, b), c) == Mul(p, a, Mul(p, b, c))
  {
    ModCong(a * b, p);
    ModCong(b * c, p);
    CongMul(a * b % p, a * b, c, c, p);
    CongMul(a, a, b * c % p, b * c, p);
    assert (a * b) * c == a * (b * c);
  }

  // ----- powers

  function Power(p: int, z: int, n: nat): int
    requires p > 0
    decreases n, z
  {
    if n == 0 then 1 % p else Mul(p, Power(p, z, n - 1), z)
  }

  lemma {:induction false} PowerAdd(p: int, z: int, m: nat, n: nat)
    requires p > 0
    ensures Power(p, z, m + n) == Mul(p, Power(p, z, m), Power(p, z, n))
    decreases n
  {
    if n == 0 {
      PowerReduced(p, z, m);
      ModCong(1, p);
      CongMul(Power(p, z, m), Power(p, z, m), 1 % p, 1, p);
    } else {
      PowerAdd(p, z, m, n - 1);
      MulAssociates(p, Power(p, z, m), Power(p, z, n - 1), z);
    }
  }

  lemma {:induction false} PowerReduced(p: int, z: int, n: nat)
    requires p > 0
    ensures Power(p, z, n) % p == Power(p, z, n)
  {
  }

  lemma {:induction false} Twice(e: int, q: int)
    ensures e * q + e * q == e * (2 * q)
  {
  }

  /** The exponent with n ones in binary. */
  function Ones(n: nat): (e: nat)
  {
    if n == 0 then 0 else 2 * Ones(n - 1) + 1
  }

  lemma {:induction false} OnesIsPow(n: nat)
    ensures Ones(n) == Pow2(n) - 1
    decreases n
  {
    if n > 0 {
      OnesIsPow(n - 1);
    }
  }

  lemma {:induction false} OnesAppended(m: nat, n: nat)
    ensures Ones(m) * Pow2(n) + Ones(n) == Ones(m + n)
    decreases n
  {
    if n > 0 {
      OnesAppended(m, n - 1);
      Twice(Ones(m), Pow2(n - 1));
    }
  }

  lemma {:induction false} PowerOne(p: int, z: int)
    requires p > 0
    ensures Power(p, z, 1) == z % p
  {
    ModCong(1, p);
    CongMul(1 % p, 1, z, z, p);
    assert Power(p, z, 1) == Mul(p, Power(p, z, 0), z);
  }

  lemma {:induction false} OnesFive()
    ensures Ones(5) == 31
  {
    OnesIsPow(5);
    assert Pow2(5) == 32;
  }

  /**
    The exponent of the chain is 2^255 - 21, by which Fermat's theorem gives the inverse modulo the prime
    2^255 - 19.
   */
  lemma {:induction false} ChainExponent(n: nat)
    requires n >= 5
    ensures Ones(n - 5) * 32 + 11 == Pow2(n) - 21
  {
    OnesIsPow(n - 5);
    assert Pow2(n) == 2 * Pow2(n - 1) && Pow2(n - 1) == 2 * Pow2(n - 2) && Pow2(n - 2) == 2 * Pow2(n - 3);
    assert Pow2(n - 3) == 2 * Pow2(n - 4) && Pow2(n - 4) == 2 * Pow2(n - 5);
  }

  /** Given Fermat's theorem for z, the result of the chain is its inverse. */
  lemma {:induction false} InvertIsInverse(p: int, z: int)
    requires p == Ones(250) * 32 + 13 && Power(p, z, p - 1) == 1 % p
    ensures Mul(p, Power(p, z, Ones(250) * 32 + 11), z) == 1 % p
  {
    assert p - 1 == (Ones(250) * 32 + 11) + 1;
  }
}
