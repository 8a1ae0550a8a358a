/**
  Modular helpers of the Falcon code. Values are unsigned words; every sum, difference and product below
  is reduced to the width the source keeps it in.
 */
module FalconModular {
  import opened ModArith

  const W32 := 0x1_0000_0000
  const W31 := 0x8000_0000

  function U32(x: int): (w: int)
    ensures 0 <= w < W32
  {
    x % W32
  }

  /** Adds p back when a subtraction went below zero, the sign being the highest bit of the word. */
  function AddBack(d: int, p: int): int {
    if d / W31 == 1 then U32(d + p) else d
  }

  lemma {:induction false} AddedBack(x: int, p: int)
    requires 0 < p < W31 && -p <= x < p
    ensures AddBack(U32(x), p) == if x < 0 then x + p else x
  {
  }

  // ----- small primes below 2^31

  function Set(x: int, p: int): int { AddBack(U32(x), p) }

  function Plus(a: int, b: int, p: int): int { AddBack(U32(a + b - p), p) }

  function Minus(a: int, b: int, p: int): int { AddBack(U32(a - b), p) }

  /** The signed representative around zero. */
  function Norm(x: int, p: int): int {
    var m := if U32(x - (p + 1) / 2) / W31 == 1 then 0 else p;
    x - m
  }

  /** Sums, differences and small values come out as the residue in [0, p). */
  lemma {:induction false} SumsExact(a: int, b: int, p: int)
    requires 0 < p < W31 && 0 <= a < p && 0 <= b < p
    ensures Plus(a, b, p) == (a + b) % p && Minus(a, b, p) == (a - b) % p
  {
    AddedBack(a + b - p, p);
    AddedBack(a - b, p);
    if a + b >= p { DivModUnique(a + b, p, 1, a + b - p); } else { DivModUnique(a + b, p, 0, a + b); }
    if a >= b { DivModUnique(a - b, p, 0, a - b); } else { DivModUnique(a - b, p, -1, a - b + p); }
  }

  /** Norm undoes Set for values between -p/2 and p/2. */
  lemma {:induction false} NormOfSet(x: int, p: int)
    requires 0 < p < W31 && p % 2 == 1 && -p < 2 * x < p
    ensures 0 <= Set(x, p) < p && Norm(Set(x, p), p) == x
  {
    AddedBack(x, p);
  }

  // ----- Newton's iteration

  function NewtonStep(p: int, y: int): int { U32(y * U32(2 - U32(p * y))) }

  /** -1/p modulo 2^31, by four steps from 2 - p. */
  function NegInverse31(p: int): int {
    var y := NewtonStep(p, NewtonStep(p, NewtonStep(p, NewtonStep(p, U32(2 - p)))));
    U32(-y) % W31
  }

  /** The error of an approximate inverse. */
  lemma {:induction false} U32Cong(x: int)
    ensures Cong(U32(x), x, W32)
  {
    CongIntro(U32(x), x, W32, -(x / W32));
  }

  lemma {:induction false} StepCong(p: int, y: int)
    ensures Cong(NewtonStep(p, y), y * (2 - p * y), W32)
  {
    var a, b := U32(p * y), U32(2 - U32(p * y));
    U32Cong(p * y);
    U32Cong(2 - a);
    CongSub(2, 2, a, p * y, W32);
    CongTrans(b, 2 - a, 2 - p * y, W32);
    CongMul(y, y, b, 2 - p * y, W32);
    U32Cong(y * b);
    CongTrans(NewtonStep(p, y), y * b, y * (2 - p * y), W32);
  }

  /** A multiple of 2^32 is a multiple of every smaller power m. */
  lemma {:induction false} Coarser(a: int, b: int, m: int, n: int)
    requires m > 0 && n > 0 && m * n == W32 && Cong(a, b, W32)
    ensures Cong(a, b, m)
  {
    var k := CongElim(a, b, W32);
    assert k * (m * n) == (k * n) * m;
    CongIntro(a, b, m, k * n);
  }

  /** Every step squares the error: an inverse modulo m becomes one modulo m^2. */
  lemma {:induction false} StepSquares(p: int, y: int, m: int, n: int)
    requires m > 0 && n > 0 && m * m * n == W32 && Cong(p * y, 1, m)
    ensures Cong(p * NewtonStep(p, y), 1, m * m)
  {
    var k := CongElim(p * y, 1, m);
    var z := NewtonStep(p, y);
    StepCong(p, y);
    CongMul(p, p, z, y * (2 - p * y), W32);
    Coarser(p * z, p * (y * (2 - p * y)), m * m, n);
    SquaredError(p, y, k, m);
    CongIntro(p * (y * (2 - p * y)), 1, m * m, -(k * k));
    CongTrans(p * z, p * (y * (2 - p * y)), 1, m * m);
  }

  lemma {:induction false} SquaredError(p: int, y: int, k: int, m: int)
    requires p * y == 1 + k * m
    ensures p * (y * (2 - p * y)) - 1 == -(k * k) * (m * m)
  {
    var e := k * m;
    assert p * (y * (2 - p * y)) == (p * y) * (2 - p * y);
    assert (1 + e) * (1 - e) == 1 - e * e;
    assert e * e == (k * k) * (m * m);
  }

  /** For every odd p the iteration ends with the exact inverse modulo 2^32, so its negative is -1/p modulo 2^31. */
  lemma {:induction false} NegInverseExact(p: int)
    requires p % 2 == 1
    ensures 0 <= NegInverse31(p) < W31 && Cong(p * NegInverse31(p), -1, W31)
  {
    var y0 := U32(2 - p);
    FirstGuess(p);
    var y1 := NewtonStep(p, y0);
    StepSquares(p, y0, 4, 0x1000_0000);
    var y2 := NewtonStep(p, y1);
    StepSquares(p, y1, 16, 0x100_0000);
    var y3 := NewtonStep(p, y2);
    StepSquares(p, y2, 0x100, 0x1_0000);
    var y4 := NewtonStep(p, y3);
    StepSquares(p, y3, 0x1_0000, 1);
    Negated(p, y4);
  }

  lemma {:induction false} FirstGuess(p: int)
    requires p % 2 == 1
    ensures Cong(p * U32(2 - p), 1, 4)
  {
    var k := p / 2;
    U32Cong(2 - p);
    CongMul(p, p, U32(2 - p), 2 - p, W32);
    Coarser(p * U32(2 - p), p * (2 - p), 4, 0x4000_0000);
    assert p == 2 * k + 1;
    assert (2 * k + 1) * (1 - 2 * k) == 1 - 4 * (k * k);
    CongIntro(p * (2 - p), 1, 4, -(k * k));
    CongTrans(p * U32(2 - p), p * (2 - p), 1, 4);
  }

  lemma {:induction false} Negated(p: int, y: int)
    requires Cong(p * y, 1, W32)
    ensures Cong(p * (U32(-y) % W31), -1, W31)
  {
    var r := U32(-y) % W31;
    U32Cong(-y);
    Coarser(U32(-y), -y, W31, 2);
    CongIntro(r, U32(-y), W31, -(U32(-y) / W31));
    CongTrans(r, U32(-y), -y, W31);
    CongMul(p, p, r, -y, W31);
    Coarser(p * y, 1, W31, 2);
    CongSub(0, 0, p * y, 1, W31);
    assert p * -y == 0 - p * y;
    CongTrans(p * r, p * -y, -1, W31);
  }

  // ----- Montgomery multiplication

  /** The quotient by r that the multiplication is about: z plus the multiple of p that clears the low part. */
  function MontyQuotient(z: int, p: int, ni: int, r: int): int
    requires r > 0
  {
    (z + z * ni % r * p) / r
  }

  lemma {:induction false} MontyDivides(z: int, p: int, ni: int, r: int)
    requires r > 0 && Cong(p * ni, -1, r)
    ensures z + z * ni % r * p == MontyQuotient(z, p, ni, r) * r
  {
    var m := z * ni % r;
    CongIntro(m, z * ni, r, -(z * ni / r));
    CongMul(m, z * ni, p, p, r);
    CongMul(z, z, p * ni, -1, r);
    assert (z * ni) * p == z * (p * ni);
    CongTrans(m * p, z * (p * ni), -z, r);
    CongAdd(z, z, m * p, -z, r);
    var t := CongElim(z + m * p, 0, r);
    DivModUnique(z + m * p, r, t, 0);
  }

  /** The quotient is below 2 p and, times r, congruent to the product; so is what is left after a subtraction. */
  lemma {:induction false} MontyCorrect(a: int, b: int, p: int, ni: int, r: int)
    requires 0 < p < r && 0 <= a < p && 0 <= b < p && Cong(p * ni, -1, r)
    ensures var t := MontyQuotient(a * b, p, ni, r);
      0 <= t < 2 * p && Cong(t * r, a * b, p) && Cong((t - p) * r, a * b, p)
  {
    MontyDivides(a * b, p, ni, r);
    MontyFacts(a, b, a * b * ni % r, MontyQuotient(a * b, p, ni, r), p, r);
  }

  lemma {:induction false} MontyFacts(a: int, b: int, m: int, t: int, p: int, r: int)
    requires 0 < p < r && 0 <= a < p && 0 <= b < p && 0 <= m < r && a * b + m * p == t * r
    ensures 0 <= t < 2 * p && Cong(t * r, a * b, p) && Cong((t - p) * r, a * b, p)
  {
    ProductsBelow(a, b, m, p, r);
    QuotientBelow(t, a * b + m * p, p, r);
    CongIntro(t * r, a * b, p, m);
    assert (t - p) * r - a * b == (m - r) * p;
    CongIntro((t - p) * r, a * b, p, m - r);
  }

  lemma {:induction false} ProductsBelow(a: int, b: int, m: int, p: int, r: int)
    requires 0 < p < r && 0 <= a < p && 0 <= b < p && 0 <= m < r
    ensures 0 <= a * b + m * p < 2 * (p * r)
  {
    MulMono(a, p, b);
    MulMono(b, r, p);
    MulMono(m, r, p);
    MulMono(0, a, b);
    MulMono(0, m, p);
    if m < r { MulMono(m, r - 1, p); }
  }

  lemma {:induction false} QuotientBelow(t: int, x: int, p: int, r: int)
    requires x == t * r && 0 <= x < 2 * (p * r) && r > 0 && p > 0
    ensures 0 <= t < 2 * p
  {
    if t < 0 { MulMono(t, -1, r); }
    if t >= 2 * p { MulMono(2 * p, t, r); }
  }

  /** The multiplication for primes below 2^31, with 64-bit products and the wrap-around of the last subtraction. */
  function MontyMul(a: int, b: int, p: int, ni: int): int {
    AddBack(U32(WideQuotient(a * b, p, ni) - p), p)
  }

  function WideQuotient(z: int, p: int, ni: int): int {
    (z + z * ni % 0x1_0000_0000_0000_0000 % W31 * p) / W31
  }

  lemma {:induction false} WideIsQuotient(z: int, p: int, ni: int)
    ensures WideQuotient(z, p, ni) == MontyQuotient(z, p, ni, W31)
  {
    LowBits(z * ni);
  }

  /** With the constant from Newton's iteration the product is reduced exactly, for every odd p below 2^31. */
  lemma {:induction false} MontyMulExact(a: int, b: int, p: int)
    requires 0 < p < W31 && p % 2 == 1 && 0 <= a < p && 0 <= b < p
    ensures var d := MontyMul(a, b, p, NegInverse31(p)); 0 <= d < p && Cong(d * W31, a * b, p)
  {
    var ni := NegInverse31(p);
    NegInverseExact(p);
    MontyCorrect(a, b, p, ni, W31);
    WideIsQuotient(a * b, p, ni);
    SubtractedOnce(MontyQuotient(a * b, p, ni, W31), p, a * b, W31);
  }

  lemma {:induction false} SubtractedOnce(t: int, p: int, z: int, r: int)
    requires 0 < p < W31 && 0 <= t < 2 * p && Cong(t * r, z, p) && Cong((t - p) * r, z, p)
    ensures var d := AddBack(U32(t - p), p); 0 <= d < p && Cong(d * r, z, p)
  {
    AddedBack(t - p, p);
  }

  lemma {:induction false} LowBits(x: int)
    ensures x % 0x1_0000_0000_0000_0000 % W31 == x % W31
  {
    var k := x / 0x1_0000_0000_0000_0000;
    var y := x % 0x1_0000_0000_0000_0000;
    assert x == y + (k * 0x2_0000_0000) * W31;
    CongIntro(x, y, W31, k * 0x2_0000_0000);
  }

  // ----- modulo q = 12289

  const Q := 12289
  const Q0I := 12287    // -1/Q modulo 2^16

  function MqMontyMul(x: int, y: int): int { AddBack(U32(MqQuotient(U32(x * y)) - Q), Q) }

  function MqQuotient(z: int): int { U32(z + U32(U32(z * Q0I) % 0x1_0000 * Q)) / 0x1_0000 }

  lemma {:induction false} MqIsQuotient(z: int)
    requires 0 <= z < Q * Q
    ensures U32(z) == z && MqQuotient(z) == MontyQuotient(z, Q, Q0I, 0x1_0000)
  {
    WordLowBits(z * Q0I);
  }

  /** The product over 2^16; every intermediate fits 32 bits. */
  lemma {:induction false} MqMontyMulExact(x: int, y: int)
    requires 0 <= x < Q && 0 <= y < Q
    ensures 0 <= MqMontyMul(x, y) < Q && Cong(MqMontyMul(x, y) * 0x1_0000, x * y, Q)
  {
    assert Q * Q0I == 2304 * 0x1_0000 - 1;
    CongIntro(Q * Q0I, -1, 0x1_0000, 2304);
    MontyCorrect(x, y, Q, Q0I, 0x1_0000);
    SquareBelow(x, y);
    MqIsQuotient(x * y);
    SubtractedOnce(MontyQuotient(x * y, Q, Q0I, 0x1_0000), Q, x * y, 0x1_0000);
  }

  lemma {:induction false} SquareBelow(x: int, y: int)
    requires 0 <= x < Q && 0 <= y < Q
    ensures 0 <= x * y < Q * Q
  {
    MulMono(x, Q - 1, y);
    MulMono(0, x, y);
  }

  lemma {:induction false} WordLowBits(x: int)
    ensures U32(x) % 0x1_0000 == x % 0x1_0000
  {
  }

  function Half(x: int): int { (x + if x % 2 == 1 then Q else 0) / 2 }

  /** Half is division by two modulo Q. */
  lemma {:induction false} HalfExact(x: int)
    requires 0 <= x < Q
    ensures 0 <= Half(x) < Q && (2 * Half(x)) % Q == x
  {
  }
}
