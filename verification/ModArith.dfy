/** Congruence of integers modulo q, and the few laws the lattice code rests on. */
module ModArith {

  /** a and b leave the same remainder. */
  predicate Cong(a: int, b: int, q: int)
    requires q > 0
  {
    a % q == b % q
  }

  function Pow2(t: nat): (p: nat)
    ensures p > 0
  {
    if t == 0 then 1 else 2 * Pow2(t - 1)
  }

  lemma {:induction false} MulMono(a: int, b: int, c: int)
    requires a <= b && 0 <= c
    ensures a * c <= b * c
  {
  }

  /** Quotient and remainder are unique. */
  lemma {:induction false} DivModUnique(x: int, q: int, k: int, r: int)
    requires q > 0 && x == k * q + r && 0 <= r < q
    ensures x / q == k && x % q == r
  {
    var d := x / q - k;
    assert x == q * (x / q) + x % q;
    assert q * (x / q) == q * d + q * k;
    assert d * q == r - x % q;
    if d >= 1 {
      MulMono(1, d, q);
    } else if d <= -1 {
      MulMono(d, -1, q);
    }
  }

  /** A difference that is a multiple of q is a congruence. */
  lemma {:induction false} CongIntro(a: int, b: int, q: int, k: int)
    requires q > 0 && a - b == k * q
    ensures Cong(a, b, q)
  {
    var m := b / q;
    assert b == q * m + b % q;
    assert a == (m + k) * q + b % q;
    DivModUnique(a, q, m + k, b % q);
  }

  lemma {:induction false} CongElim(a: int, b: int, q: int) returns (k: int)
    requires q > 0 && Cong(a, b, q)
    ensures a - b == k * q
  {
    k := a / q - b / q;
    assert a == q * (a / q) + a % q;
    assert b == q * (b / q) + b % q;
    assert q * (a / q) - q * (b / q) == q * k;
  }

  lemma {:induction false} CongAdd(a: int, b: int, c: int, d: int, q: int)
    requires q > 0 && Cong(a, b, q) && Cong(c, d, q)
    ensures Cong(a + c, b + d, q)
  {
    var k := CongElim(a, b, q);
    var l := CongElim(c, d, q);
    assert k * q + l * q == (k + l) * q;
    CongIntro(a + c, b + d, q, k + l);
  }

  lemma {:induction false} CongSub(a: int, b: int, c: int, d: int, q: int)
    requires q > 0 && Cong(a, b, q) && Cong(c, d, q)
    ensures Cong(a - c, b - d, q)
  {
    var k := CongElim(a, b, q);
    var l := CongElim(c, d, q);
    assert k * q - l * q == (k - l) * q;
    CongIntro(a - c, b - d, q, k - l);
  }

  lemma {:induction false} CongMul(a: int, b: int, c: int, d: int, q: int)
    requires q > 0 && Cong(a, b, q) && Cong(c, d, q)
    ensures Cong(a * c, b * d, q)
  {
    var k := CongElim(a, b, q);
    var l := CongElim(c, d, q);
    calc {
      a * c - b * d;
      (a - b) * c + b * (c - d);
      (k * q) * c + b * (l * q);
      (k * c + b * l) * q;
    }
    CongIntro(a * c, b * d, q, k * c + b * l);
  }

  lemma {:induction false} CongTrans(a: int, b: int, c: int, q: int)
    requires q > 0 && Cong(a, b, q) && Cong(b, c, q)
    ensures Cong(a, c, q)
  {
  }

  /** Two congruent values closer than q are equal. */
  lemma {:induction false} CongNear(a: int, b: int, q: int)
    requires q > 0 && Cong(a, b, q) && -q < a - b < q
    ensures a == b
  {
    var k := CongElim(a, b, q);
    if k >= 1 {
      MulMono(1, k, q);
    } else if k <= -1 {
      MulMono(k, -1, q);
    }
  }

  /** A factor with an inverse can be cancelled. */
  lemma {:induction false} CongCancel(a: int, b: int, u: int, v: int, q: int)
    requires q > 0 && Cong(u * v, 1, q) && Cong(a * u, b * u, q)
    ensures Cong(a, b, q)
  {
    CongMul(a * u, b * u, v, v, q);
    CongMul(u * v, 1, a, a, q);
    CongMul(u * v, 1, b, b, q);
    assert (a * u) * v == (u * v) * a && (b * u) * v == (u * v) * b;
  }

  /** Congruence of sequences, index by index. */
  predicate SeqCong(a: seq<int>, b: seq<int>, q: int)
    requires q > 0
  {
    |a| == |b| && forall i :: 0 <= i < |a| ==> Cong(a[i], b[i], q)
  }

  lemma {:induction false} SeqCongTrans(a: seq<int>, b: seq<int>, c: seq<int>, q: int)
    requires q > 0 && SeqCong(a, b, q) && SeqCong(b, c, q)
    ensures SeqCong(a, c, q)
  {
  }

  lemma {:induction false} SeqCongSym(a: seq<int>, b: seq<int>, q: int)
    requires q > 0 && SeqCong(a, b, q)
    ensures SeqCong(b, a, q)
  {
  }

  lemma {:induction false} SeqCongSame(a: seq<int>, q: int)
    requires q > 0
    ensures SeqCong(a, a, q)
  {
  }

  lemma {:induction false} PowMono(a: nat, b: nat)
    requires a <= b
    ensures Pow2(a) <= Pow2(b)
    decreases b
  {
    if a < b {
      PowMono(a, b - 1);
    }
  }

  lemma {:induction false} PowAdd2(a: nat, b: nat)
    ensures Pow2(a + b) == Pow2(a) * Pow2(b)
    decreases a
  {
    if a > 0 {
      PowAdd2(a - 1, b);
      DoubledFactor(Pow2(a - 1), Pow2(b));
    }
  }

  lemma {:induction false} DoubledFactor(x: int, y: int)
    ensures 2 * (x * y) == (2 * x) * y
  {
  }
}
