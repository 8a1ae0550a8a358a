/** Lossy compression of coefficients, and message bits. */
module KyberCompress {
  import opened ModArith
  import opened KyberParams

  /** The representative in [0, Q) of a value in (-Q, Q). */
  function Positive(u: int): int {
    u + if u < 0 then Q else 0
  }

  /** Keeps the d highest bits, rounded; the value above the highest wraps to 0. */
  function Compress(d: nat, u: int): int {
    (Positive(u) * Pow2(d) + 1664) / Q % Pow2(d)
  }

  function Decompress(d: nat, t: int): int {
    (t * Q + Pow2(d) / 2) / Pow2(d)
  }

  /** The widths the parameter sets use, with the largest error they cause. */
  predicate Width(d: nat, p: int, error: int) {
    p == Pow2(d) && match d
      case 4 => p == 16 && error == 104
      case 5 => p == 32 && error == 52
      case 10 => p == 1024 && error == 2
      case 11 => p == 2048 && error == 1
      case _ => false
  }

  lemma {:induction false} Widths()
    ensures Width(4, 16, 104) && Width(5, 32, 52) && Width(10, 1024, 2) && Width(11, 2048, 1)
  {
    assert Pow2(4) == 16;
    assert Pow2(5) == 2 * Pow2(4);
    assert Pow2(10) == 32 * Pow2(5);
    assert Pow2(11) == 2 * Pow2(10);
  }

  /** What decompression returns is off by the rounding error only, modulo Q. */
  lemma {:induction false} CompressError(d: nat, p: int, error: int, u: int) returns (e: int)
    requires Width(d, p, error) && -Q < u < Q
    ensures -error <= e <= error && Cong(Decompress(d, Compress(d, u)), u + e, Q)
  {
    var x := Positive(u);
    var y := RoundUp(p, x);
    var t := Compress(d, u);
    e := ErrorAt(p, error, x, y, t);
    CongIntro(u + e, x + e, Q, if u < 0 then -1 else 0);
    CongTrans(Decompress(d, t), x + e, u + e, Q);
  }

  function RoundUp(p: int, x: int): int { (x * p + 1664) / Q }

  lemma {:induction false} ErrorAt(p: int, error: int, x: int, y: int, t: int) returns (e: int)
    requires (p == 16 && error == 104) || (p == 32 && error == 52) || (p == 1024 && error == 2)
      || (p == 2048 && error == 1)
    requires 0 <= x < Q && y == RoundUp(p, x) && t == y % p
    ensures -error <= e <= error && Cong((t * Q + p / 2) / p, x + e, Q)
  {
    var w := (t * Q + p / 2) / p;
    if p == 16 {
      e := Error16(x, y, t);
    } else if p == 32 {
      e := Error32(x, y, t);
    } else if p == 1024 {
      e := Error1024(x, y, t);
    } else {
      e := Error2048(x, y, t);
    }
    CongIntro(w, x + e, Q, if t == y then 0 else -1);
  }

  lemma {:induction false} Error16(x: int, y: int, t: int) returns (e: int)
    requires 0 <= x < Q && y == (x * 16 + 1664) / Q && t == y % 16
    ensures -104 <= e <= 104 && (t * Q + 8) / 16 - (x + e) == if t == y then 0 else -Q
  {
    e := (y * Q + 8) / 16 - x;
  }

  lemma {:induction false} Error32(x: int, y: int, t: int) returns (e: int)
    requires 0 <= x < Q && y == (x * 32 + 1664) / Q && t == y % 32
    ensures -52 <= e <= 52 && (t * Q + 16) / 32 - (x + e) == if t == y then 0 else -Q
  {
    e := (y * Q + 16) / 32 - x;
  }

  lemma {:induction false} Error1024(x: int, y: int, t: int) returns (e: int)
    requires 0 <= x < Q && y == (x * 1024 + 1664) / Q && t == y % 1024
    ensures -2 <= e <= 2 && (t * Q + 512) / 1024 - (x + e) == if t == y then 0 else -Q
  {
    e := (y * Q + 512) / 1024 - x;
  }

  lemma {:induction false} Error2048(x: int, y: int, t: int) returns (e: int)
    requires 0 <= x < Q && y == (x * 2048 + 1664) / Q && t == y % 2048
    ensures -1 <= e <= 1 && (t * Q + 1024) / 2048 - (x + e) == if t == y then 0 else -Q
  {
    e := (y * Q + 1024) / 2048 - x;
  }

  /** Compressing again loses nothing more. */
  lemma {:induction false} CompressDecompress(d: nat, p: int, error: int, t: int)
    requires Width(d, p, error) && 0 <= t < p
    ensures 0 <= Decompress(d, t) < Q && Compress(d, Decompress(d, t)) == t
  {
    var w := Decompress(d, t);
    assert t * Q <= (p - 1) * Q by { MulMono(t, p - 1, Q); }
    var r := t * Q + p / 2 - w * p;
    assert w == (t * Q + p / 2) / p;
    assert t * Q + p / 2 == p * w + (t * Q + p / 2) % p;
    WithinRange(p, t, w, r);
    DivModUnique(w * p + 1664, Q, t, p / 2 - r + 1664);
    DivModUnique(t, p, 0, t);
  }

  lemma {:induction false} WithinRange(p: int, t: int, w: int, r: int)
    requires p == 16 || p == 32 || p == 1024 || p == 2048
    requires 0 <= t < p && 0 <= r < p && t * Q + p / 2 == w * p + r
    ensures 0 <= w < Q
  {
    if p == 16 {
    } else if p == 32 {
    } else if p == 1024 {
    } else {
    }
  }

  // ----- message bits

  /** A bit as a coefficient: 0, or Q / 2 rounded up. */
  function BitToCoefficient(b: int): int { b * ((Q + 1) / 2) }

  function CoefficientToBit(u: int): int {
    (Positive(u) * 2 + 1664) / Q % 2
  }

  /**
    How much noise a bit survives, exactly: 832 either way for a 0, but only 831 upwards for a 1, since
    Q / 2 has been rounded up.
   */
  lemma {:induction false} BitSurvives(u: int, b: int, e: int)
    requires (b == 0 || b == 1) && -1664 <= u <= 1664 && -1664 <= e <= 1664 && Cong(u, BitToCoefficient(b) + e, Q)
    ensures CoefficientToBit(u) == b <==> -832 <= e <= 832 - b
  {
    var k := CongElim(u, BitToCoefficient(b) + e, Q);
    assert -2 <= k <= 2;
  }
}
