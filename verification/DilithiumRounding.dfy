/**
  High and low bits in the Dilithium code, and hints (section 2.4 of the Dilithium round-3
  specification).
 */
module DilithiumRounding {
  import opened ModArith
  import opened MachineInts
  import opened DilithiumParams

  /** Splits off the low 13 bits, rounding half down. Returns (a1, a0). */
  function Power2Round(a: int): (r: (int, int))
  {
    var a1 := (a + 0x1000 - 1) / 0x2000;
    (a1, a - a1 * 0x2000)
  }

  /**
    Splitting at bit 13 is exact, with a low part in (-2^12, 2^12] and a high part of ten bits. Key
    generation needs this slightly outside [0, Q), where adding the error vector can lead.
   */
  lemma {:induction false} Power2RoundExact(a: int)
    requires -16 <= a < Q + 16
    ensures a == Power2Round(a).0 * 0x2000 + Power2Round(a).1
    ensures -0x1000 < Power2Round(a).1 <= 0x1000
    ensures 0 <= Power2Round(a).0 < 1024
  {
  }

  /** The quotient by 2 * gamma2, computed with a fixed-point multiplication, and the low part. */
  function Decompose(mode: Mode, a: int): (r: (int, int))
  {
    var u := (a + 127) / 128;
    var a1 :=
      if mode.Mode2? then
        var v := (u * 11275 + 0x80_0000) / 0x100_0000;
        if v > 43 then 0 else v
      else
        (u * 1025 + 0x20_0000) / 0x40_0000 % 16;
    var a0 := a - a1 * 2 * mode.Gamma2();
    (a1, if a0 > (Q - 1) / 2 then a0 - Q else a0)
  }

  /** How many values the high part takes. */
  function HighCount(mode: Mode): int { if mode.Mode2? then 44 else 16 }

  /** The division behind Decompose, without fixed-point arithmetic: a in steps of 2 * gamma2, rounded half down. */
  function Quotient(mode: Mode, a: int): int {
    (a + mode.Gamma2() - 1) / (2 * mode.Gamma2())
  }

  lemma {:induction false} FixedPointMode2(a: int, k: int, c: int)
    requires 0 <= k <= 44 && a == k * 190464 + c && -95232 < c <= 95232
    ensures ((a + 127) / 128 * 11275 + 0x80_0000) / 0x100_0000 == k
  {
    var e := (c + 127) / 128;
    assert (a + 127) / 128 == 1488 * k + e;
    DivModUnique((1488 * k + e) * 11275 + 0x80_0000, 0x100_0000, k, e * 11275 + 0x80_0000 - 16 * k);
  }

  lemma {:induction false} FixedPointMode35(a: int, k: int, c: int)
    requires 0 <= k <= 16 && a == k * 523776 + c && -261888 < c <= 261888
    ensures ((a + 127) / 128 * 1025 + 0x20_0000) / 0x40_0000 == k
  {
    var e := (c + 127) / 128;
    assert (a + 127) / 128 == 4092 * k + e;
    DivModUnique((4092 * k + e) * 1025 + 0x20_0000, 0x40_0000, k, e * 1025 + 0x20_0000 - 4 * k);
  }

  /** The split of a at quotient k, before and after the last quotient wraps to 0. */
  ghost predicate SplitAs(mode: Mode, a: int, k: int, c: int) {
    && 0 <= k <= HighCount(mode)
    && a == k * (2 * mode.Gamma2()) + c
    && 0 - mode.Gamma2() < c <= mode.Gamma2()
    && Quotient(mode, a) == k
  }

  lemma {:induction false} QuotientSplits(mode: Mode, a: int) returns (k: int, c: int)
    requires 0 <= a < Q
    ensures SplitAs(mode, a, k, c)
  {
    k := Quotient(mode, a);
    c := a - k * (2 * mode.Gamma2());
  }

  lemma {:induction false} DecomposeSplit(mode: Mode, a: int, k: int, c: int)
    requires 0 <= a < Q && SplitAs(mode, a, k, c)
    ensures Decompose(mode, a) == if k == HighCount(mode) then (0, a - Q) else (k, c)
  {
    if mode.Mode2? {
      FixedPointMode2(a, k, c);
      assert a - k * 190464 == c;
    } else {
      FixedPointMode35(a, k, c);
      assert a - k * 523776 == c;
    }
  }

  /**
    The fixed-point quotient is exact for every a in [0, Q): the high part is the rounded quotient,
    except that the last quotient wraps to 0, and the low part is what remains modulo Q.
   */
  lemma {:induction false} DecomposeExact(mode: Mode, a: int)
    requires 0 <= a < Q
    ensures var (a1, a0) := Decompose(mode, a);
      && 0 <= a1 < HighCount(mode)
      && (if Quotient(mode, a) == HighCount(mode) then a1 == 0 && a == Q + a0 else a1 == Quotient(mode, a))
      && Cong(a, a1 * (2 * mode.Gamma2()) + a0, Q)
      && 0 - mode.Gamma2() <= a0 <= mode.Gamma2()
      && (a0 == 0 - mode.Gamma2() ==> a1 == 0)
  {
    var k, c := QuotientSplits(mode, a);
    DecomposeSplit(mode, a, k, c);
    if k == HighCount(mode) {
      CongIntro(a, a - Q, Q, 1);
    }
  }

  /** 1 when the low part is so large that it carries into the high part. */
  function MakeHint(mode: Mode, a0: int, a1: int): (h: int)
    ensures h == 0 || h == 1
  {
    var g := mode.Gamma2();
    if a0 <= g || a0 > Q - g || (a0 == Q - g && a1 == 0) then 0 else 1
  }

  /** The high part corrected by a hint. */
  function UseHint(mode: Mode, a: int, hint: int): int {
    var (a1, a0) := Decompose(mode, a);
    if hint == 0 then a1
    else if mode.Mode2? then
      if a0 > 0 then (if a1 == 43 then 0 else a1 + 1)
      else if a1 == 0 then 43 else a1 - 1
    else if a0 > 0 then (a1 + 1) % 16
    else (a1 - 1) % 16
  }

  /** Where the adjusted value v = 2 * gamma2 * w1 + s lands, counting high parts round the circle. */
  lemma {:induction false} AdjustedSplit(mode: Mode, w1: int, s: int, v: int)
    requires 0 <= w1 < HighCount(mode) && -(2 * mode.Gamma2()) < s < 2 * mode.Gamma2()
    requires 0 <= v < Q && Cong(v, w1 * (2 * mode.Gamma2()) + s, Q)
    ensures var (a1, a0) := Decompose(mode, v);
      if s > mode.Gamma2() then a1 == (w1 + 1) % HighCount(mode) && a0 <= 0
      else if s + mode.Gamma2() < 0 || (s + mode.Gamma2() == 0 && w1 > 0) then a1 == (w1 - 1) % HighCount(mode)
        && a0 > 0
      else a1 == w1
  {
    var e := CongElim(v, w1 * (2 * mode.Gamma2()) + s, Q);
    var k, c := QuotientSplits(mode, v);
    DecomposeSplit(mode, v, k, c);
    if mode.Mode2? {
      AdjustedTo(95232, 44, w1, s, v, e, k, c);
    } else {
      AdjustedTo(261888, 16, w1, s, v, e, k, c);
    }
  }

  lemma {:induction false} AdjustedTo(g: int, n: int, w1: int, s: int, v: int, e: int, k: int, c: int)
    requires (g == 95232 && n == 44) || (g == 261888 && n == 16)
    requires 0 <= w1 < n && -(2 * g) < s < 2 * g && 0 <= v < Q && v == w1 * (2 * g) + s + e * Q
    requires 0 <= k <= n && v == k * (2 * g) + c && -g < c <= g
    ensures var (a1, a0) := if k == n then (0, v - Q) else (k, c);
      if s > g then a1 == (w1 + 1) % n && a0 <= 0
      else if s + g < 0 || (s + g == 0 && w1 > 0) then a1 == (w1 - 1) % n && a0 > 0
      else a1 == w1
  {
    QuotientAfter(g, n, w1, s, v, e, k, c);
    OneTurn(w1, n);
  }

  lemma {:induction false} OneTurn(w: int, n: int)
    requires 0 <= w < n && n > 1
    ensures (w + 1) % n == if w + 1 == n then 0 else w + 1
    ensures (w - 1) % n == if w == 0 then n - 1 else w - 1
  {
    if w == 0 {
      DivModUnique(w - 1, n, -1, n - 1);
    } else {
      DivModUnique(w - 1, n, 0, w - 1);
    }
    if w + 1 == n {
      DivModUnique(w + 1, n, 1, 0);
    } else {
      DivModUnique(w + 1, n, 0, w + 1);
    }
  }

  /**
    The purpose of hints. Whoever knows the split (w1, w0) of w and moves the low part to s, however
    that comes about, can hand over one bit from which w1 is recovered out of the moved value alone:
    v is the moved value in [0, Q), and u the moved low part in [0, Q), as the source keeps them.
   */
  lemma {:induction false} HintRecovers(mode: Mode, w1: int, s: int, u: int, v: int)
    requires 0 <= w1 < HighCount(mode) && -(2 * mode.Gamma2()) < s < 2 * mode.Gamma2()
    requires u == (if s < 0 then s + Q else s)
    requires 0 <= v < Q && Cong(v, w1 * (2 * mode.Gamma2()) + s, Q)
    ensures UseHint(mode, v, MakeHint(mode, u, w1)) == w1
  {
    AdjustedSplit(mode, w1, s, v);
    if MakeHint(mode, u, w1) == 1 {
      UseHintTurns(mode, v, 1);
      TurnBack(mode, w1, Decompose(mode, v), s > mode.Gamma2());
    }
  }

  /** One step round the circle of high parts, in the direction of the low part. */
  function Turn(mode: Mode, d: (int, int)): int {
    (d.0 + if d.1 > 0 then 1 else -1) % HighCount(mode)
  }

  lemma {:induction false} TurnBack(mode: Mode, w1: int, d: (int, int), up: bool)
    requires 0 <= w1 < HighCount(mode)
    requires if up then d.0 == (w1 + 1) % HighCount(mode) && d.1 <= 0 else d.0 == (w1 - 1) % HighCount(mode) && d.1 > 0
    ensures Turn(mode, d) == w1
  {
  }

  lemma {:induction false} UseHintTurns(mode: Mode, v: int, h: int)
    requires 0 <= v < Q && h != 0
    ensures UseHint(mode, v, h) == Turn(mode, Decompose(mode, v))
  {
    DecomposeExact(mode, v);
  }

  /** The bit is set exactly when the moved value has another high part. */
  lemma {:induction false} HintIsNeeded(mode: Mode, w1: int, s: int, u: int, v: int)
    requires 0 <= w1 < HighCount(mode) && -(2 * mode.Gamma2()) < s < 2 * mode.Gamma2()
    requires u == (if s < 0 then s + Q else s)
    requires 0 <= v < Q && Cong(v, w1 * (2 * mode.Gamma2()) + s, Q)
    ensures MakeHint(mode, u, w1) == 1 <==> Decompose(mode, v).0 != w1
  {
    AdjustedSplit(mode, w1, s, v);
  }

  /** The quotient of the adjusted value: w1 itself, one more, or one less, counted modulo n. */
  lemma {:induction false} QuotientAfter(g: int, n: int, w1: int, s: int, v: int, e: int, k: int, c: int)
    requires (g == 95232 && n == 44) || (g == 261888 && n == 16)
    requires 0 <= w1 < n && -(2 * g) < s < 2 * g && 0 <= v < Q && v == w1 * (2 * g) + s + e * Q
    requires 0 <= k <= n && v == k * (2 * g) + c && -g < c <= g
    ensures s > g ==> k == w1 + 1 && c <= 0 && c > -g
    ensures -g < s <= g && (s >= 0 || w1 > 0) ==> k == w1 && c == s
    ensures -g <= s < 0 && w1 == 0 ==> k == n
    ensures s <= -g && w1 > 0 ==> k == w1 - 1 && c > 0
    ensures s < -g && w1 == 0 ==> k == n - 1 && c > 0
  {
    if g == 95232 {
    } else {
    }
  }
}
