/** Limbs loaded from bytes and stored to bytes as the Curve25519 code does it, with shifts, masks and ors. */
module LimbBytes {
  import opened ModArith
  import opened BitPacking
  import opened PolyPacking
  import opened BitXor
  import opened ScalarDigits

  // ----- or

  function Or(a: nat, b: nat): (c: nat)
    decreases a + b
  {
    if a == 0 && b == 0 then 0 else (if a % 2 == 1 || b % 2 == 1 then 1 else 0) + 2 * Or(a / 2, b / 2)
  }

  lemma {:induction false} OrZero(a: nat)
    ensures Or(0, a) == a
    decreases a
  {
    if a > 0 {
      OrZero(a / 2);
    }
  }

  lemma {:induction false} OrPair(x: nat, p: nat, y: nat)
    requires p < 2
    ensures Or(2 * x + p, 2 * y) == 2 * Or(x, y) + p
  {
    var a, b := 2 * x + p, 2 * y;
    assert a / 2 == x && b / 2 == y && a % 2 == p && b % 2 == 0;
  }

  /** Parts that do not meet are added. */
  lemma {:induction false} OrApart(l: nat, h: nat, t: nat)
    requires l < Pow2(t)
    ensures Or(l, Shifted(h, t)) == l + Shifted(h, t)
    decreases t
  {
    if t == 0 {
      OrZero(h);
    } else {
      OrApart(l / 2, h, t - 1);
      OrPair(l / 2, l % 2, Shifted(h, t - 1));
    }
  }

  /** The low eight bits of two parts, the upper one shifted by t. */
  function Merged(x: nat, y: nat, t: nat): (b: nat)
    ensures b < 256
  {
    Or(x, Shifted(y, t)) % 256
  }

  lemma {:induction false} MergedIs(x: nat, y: nat, t: nat)
    requires x < Pow2(t)
    ensures Merged(x, y, t) == (x + Shifted(y, t)) % 256
  {
    OrApart(x, y, t);
  }

  lemma {:induction false} ShiftedIs(y: nat)
    ensures Shifted(y, 1) == 2 * y && Shifted(y, 2) == 4 * y && Shifted(y, 3) == 8 * y && Shifted(y, 4) == 16 * y
    ensures Shifted(y, 5) == 32 * y && Shifted(y, 6) == 64 * y && Shifted(y, 7) == 128 * y
  {
    assert Shifted(y, 0) == y;
    assert Shifted(y, 1) == 2 * y;
    assert Shifted(y, 2) == 4 * y;
    assert Shifted(y, 3) == 8 * y;
    assert Shifted(y, 4) == 16 * y;
    assert Shifted(y, 5) == 32 * y;
    assert Shifted(y, 6) == 64 * y;
  }

  lemma {:induction false} SmallTwos()
    ensures Pow2(1) == 2 && Pow2(2) == 4 && Pow2(3) == 8 && Pow2(4) == 16 && Pow2(5) == 32 && Pow2(6) == 64
      && Pow2(7) == 128
  {
  }

  // ----- loads

  function Load3(s: seq<int>, i: nat): int
    requires i + 3 <= |s|
  {
    s[i] + 0x100 * s[i + 1] + 0x1_0000 * s[i + 2]
  }

  function Load4(s: seq<int>, i: nat): int
    requires i + 4 <= |s|
  {
    Load3(s, i) + 0x100_0000 * s[i + 3]
  }

  lemma {:induction false} ValueStep(s: seq<int>, i: nat)
    requires Below(s, 256) && i < |s|
    ensures Value(s[i..]) == s[i] + 0x100 * Value(s[i + 1..])
  {
    assert s[i..][1..] == s[i + 1..];
  }

  lemma {:induction false} ValueThree(s: seq<int>, i: nat)
    requires Below(s, 256) && i + 3 <= |s|
    ensures Value(s[i..]) == Load3(s, i) + 0x100_0000 * Value(s[i + 3..])
  {
    ValueStep(s, i);
    ValueStep(s, i + 1);
    ValueStep(s, i + 2);
  }

  /** The first 21 bytes as a number. */
  function Bytes21(s: seq<int>): int
    requires 21 <= |s|
  {
    Load3(s, 0) + 0x100_0000 * Load3(s, 3) + 0x1_0000_0000_0000 * Load3(s, 6) + 0x100_0000_0000_0000_0000 * Load3(s, 9)
    + 0x1_0000_0000_0000_0000_0000_0000 * Load3(s, 12) + 0x100_0000_0000_0000_0000_0000_0000_0000 * Load3(s, 15)
    + 0x1_0000_0000_0000_0000_0000_0000_0000_0000_0000 * Load3(s, 18)
  }

  const POW168 := 0x100_0000_0000_0000_0000_0000_0000_0000_0000_0000_0000    // 2^168

  lemma {:induction false} Value21(s: seq<int>)
    requires Below(s, 256) && 21 <= |s|
    ensures Value(s) == Bytes21(s) + POW168 * Value(s[21..])
  {
    assert s[0..] == s;
    ValueThree(s, 0);
    ValueThree(s, 3);
    ValueThree(s, 6);
    ValueThree(s, 9);
    ValueThree(s, 12);
    ValueThree(s, 15);
    ValueThree(s, 18);
  }

  const M21 := 0x20_0000    // 2^21

  /** Eight limbs of 21 bits out of the first 21 bytes. */
  function EightLimbs(s: seq<int>): (l: seq<int>)
    requires 21 <= |s|
    ensures |l| == 8
  {
    [Load3(s, 0) % M21, Load4(s, 2) / 0x20 % M21, Load3(s, 5) / 4 % M21, Load4(s, 7) / 0x80 % M21,
     Load4(s, 10) / 0x10 % M21, Load3(s, 13) / 2 % M21, Load4(s, 15) / 0x40 % M21, Load3(s, 18) / 8 % M21]
  }

  /** Eight limbs as a number. */
  function Limbs8(x0: int, x1: int, x2: int, x3: int, x4: int, x5: int, x6: int, x7: int): int {
    x0 + M21 * x1 + 0x400_0000_0000 * x2 + 0x8000_0000_0000_0000 * x3 + 0x10_0000_0000_0000_0000_0000 * x4
    + 0x200_0000_0000_0000_0000_0000_0000 * x5 + 0x4000_0000_0000_0000_0000_0000_0000_0000 * x6
    + 0x8_0000_0000_0000_0000_0000_0000_0000_0000_0000 * x7
  }

  // What the loads cut out of the bytes.

  lemma {:induction false} CutAt(x: int, w: int, m: int, low: int, mid: int, high: int)
    requires w > 0 && m > 0 && x == w * (m * high + mid) + low && 0 <= low < w && 0 <= mid < m
    ensures x / w % m == mid
  {
    assert x == (m * high + mid) * w + low;
    DivModUnique(x, w, m * high + mid, low);
    assert m * high + mid == high * m + mid;
    DivModUnique(m * high + mid, m, high, mid);
  }

  lemma {:induction false} Cut0(a: int, b: int, c: int)
    requires 0 <= a < 256 && 0 <= b < 256 && 0 <= c < 256
    ensures (a + 0x100 * b + 0x1_0000 * c) % M21 == a + 0x100 * b + 0x1_0000 * (c % 0x20)
  {
    CutAt(a + 0x100 * b + 0x1_0000 * c, 1, M21, 0, a + 0x100 * b + 0x1_0000 * (c % 0x20), c / 0x20);
  }

  lemma {:induction false} Limb0(s: seq<int>)
    requires 3 <= |s| && Below(s, 256)
    ensures Load3(s, 0) % M21 == s[0] + 0x100 * s[1] + 0x1_0000 * (s[2] % 0x20)
  {
    Cut0(s[0], s[1], s[2]);
  }

  lemma {:induction false} Cut1(a: int, b: int, c: int, d: int)
    requires 0 <= a < 256 && 0 <= b < 256 && 0 <= c < 256 && 0 <= d < 256
    ensures (a + 0x100 * b + 0x1_0000 * c + 0x100_0000 * d) / 0x20 % M21
      == a / 0x20 + 0x8 * b + 0x800 * c + 0x8_0000 * (d % 0x4)
  {
    CutAt(a + 0x100 * b + 0x1_0000 * c + 0x100_0000 * d, 0x20, M21, a % 0x20, a / 0x20 + 0x8 * b + 0x800 * c
      + 0x8_0000 * (d % 0x4), d / 0x4);
  }

  lemma {:induction false} Limb1(s: seq<int>)
    requires 6 <= |s| && Below(s, 256)
    ensures Load4(s, 2) / 0x20 % M21 == s[2] / 0x20 + 0x8 * s[3] + 0x800 * s[4] + 0x8_0000 * (s[5] % 0x4)
  {
    Cut1(s[2], s[3], s[4], s[5]);
  }

  lemma {:induction false} Cut2(a: int, b: int, c: int)
    requires 0 <= a < 256 && 0 <= b < 256 && 0 <= c < 256
    ensures (a + 0x100 * b + 0x1_0000 * c) / 0x4 % M21 == a / 0x4 + 0x40 * b + 0x4000 * (c % 0x80)
  {
    CutAt(a + 0x100 * b + 0x1_0000 * c, 0x4, M21, a % 0x4, a / 0x4 + 0x40 * b + 0x4000 * (c % 0x80), c / 0x80);
  }

  lemma {:induction false} Limb2(s: seq<int>)
    requires 8 <= |s| && Below(s, 256)
    ensures Load3(s, 5) / 0x4 % M21 == s[5] / 0x4 + 0x40 * s[6] + 0x4000 * (s[7] % 0x80)
  {
    Cut2(s[5], s[6], s[7]);
  }

  lemma {:induction false} Cut3(a: int, b: int, c: int, d: int)
    requires 0 <= a < 256 && 0 <= b < 256 && 0 <= c < 256 && 0 <= d < 256
    ensures (a + 0x100 * b + 0x1_0000 * c + 0x100_0000 * d) / 0x80 % M21
      == a / 0x80 + 0x2 * b + 0x200 * c + 0x2_0000 * (d % 0x10)
  {
    CutAt(a + 0x100 * b + 0x1_0000 * c + 0x100_0000 * d, 0x80, M21, a % 0x80, a / 0x80 + 0x2 * b + 0x200 * c
      + 0x2_0000 * (d % 0x10), d / 0x10);
  }

  lemma {:induction false} Limb3(s: seq<int>)
    requires 11 <= |s| && Below(s, 256)
    ensures Load4(s, 7) / 0x80 % M21 == s[7] / 0x80 + 0x2 * s[8] + 0x200 * s[9] + 0x2_0000 * (s[10] % 0x10)
  {
    Cut3(s[7], s[8], s[9], s[10]);
  }

  lemma {:induction false} Cut4(a: int, b: int, c: int, d: int)
    requires 0 <= a < 256 && 0 <= b < 256 && 0 <= c < 256 && 0 <= d < 256
    ensures (a + 0x100 * b + 0x1_0000 * c + 0x100_0000 * d) / 0x10 % M21
      == a / 0x10 + 0x10 * b + 0x1000 * c + 0x10_0000 * (d % 0x2)
  {
    CutAt(a + 0x100 * b + 0x1_0000 * c + 0x100_0000 * d, 0x10, M21, a % 0x10, a / 0x10 + 0x10 * b + 0x1000 * c
      + 0x10_0000 * (d % 0x2), d / 0x2);
  }

  lemma {:induction false} Limb4(s: seq<int>)
    requires 14 <= |s| && Below(s, 256)
    ensures Load4(s, 10) / 0x10 % M21 == s[10] / 0x10 + 0x10 * s[11] + 0x1000 * s[12] + 0x10_0000 * (s[13] % 0x2)
  {
    Cut4(s[10], s[11], s[12], s[13]);
  }

  lemma {:induction false} Cut5(a: int, b: int, c: int)
    requires 0 <= a < 256 && 0 <= b < 256 && 0 <= c < 256
    ensures (a + 0x100 * b + 0x1_0000 * c) / 0x2 % M21 == a / 0x2 + 0x80 * b + 0x8000 * (c % 0x40)
  {
    CutAt(a + 0x100 * b + 0x1_0000 * c, 0x2, M21, a % 0x2, a / 0x2 + 0x80 * b + 0x8000 * (c % 0x40), c / 0x40);
  }

  lemma {:induction false} Limb5(s: seq<int>)
    requires 16 <= |s| && Below(s, 256)
    ensures Load3(s, 13) / 0x2 % M21 == s[13] / 0x2 + 0x80 * s[14] + 0x8000 * (s[15] % 0x40)
  {
    Cut5(s[13], s[14], s[15]);
  }

  lemma {:induction false} Cut6(a: int, b: int, c: int, d: int)
    requires 0 <= a < 256 && 0 <= b < 256 && 0 <= c < 256 && 0 <= d < 256
    ensures (a + 0x100 * b + 0x1_0000 * c + 0x100_0000 * d) / 0x40 % M21
      == a / 0x40 + 0x4 * b + 0x400 * c + 0x4_0000 * (d % 0x8)
  {
    CutAt(a + 0x100 * b + 0x1_0000 * c + 0x100_0000 * d, 0x40, M21, a % 0x40, a / 0x40 + 0x4 * b + 0x400 * c
      + 0x4_0000 * (d % 0x8), d / 0x8);
  }

  lemma {:induction false} Limb6(s: seq<int>)
    requires 19 <= |s| && Below(s, 256)
    ensures Load4(s, 15) / 0x40 % M21 == s[15] / 0x40 + 0x4 * s[16] + 0x400 * s[17] + 0x4_0000 * (s[18] % 0x8)
  {
    Cut6(s[15], s[16], s[17], s[18]);
  }

  lemma {:induction false} Cut7(a: int, b: int, c: int)
    requires 0 <= a < 256 && 0 <= b < 256 && 0 <= c < 256
    ensures (a + 0x100 * b + 0x1_0000 * c) / 0x8 % M21 == a / 0x8 + 0x20 * b + 0x2000 * c
  {
    CutAt(a + 0x100 * b + 0x1_0000 * c, 0x8, M21, a % 0x8, a / 0x8 + 0x20 * b + 0x2000 * c, 0);
  }

  lemma {:induction false} Limb7(s: seq<int>)
    requires 21 <= |s| && Below(s, 256)
    ensures Load3(s, 18) / 0x8 % M21 == s[18] / 0x8 + 0x20 * s[19] + 0x2000 * s[20]
  {
    Cut7(s[18], s[19], s[20]);
  }

  lemma {:induction false} PiecesJoined(l0: int, l1: int, l2: int, l3: int, l4: int, l5: int, l6: int, l7: int,
    b0: int, b1: int, b2: int, b3: int, b4: int, b5: int, b6: int, b7: int,
    b8: int, b9: int, b10: int, b11: int, b12: int, b13: int, b14: int, b15: int,
    b16: int, b17: int, b18: int, b19: int, b20: int)
    requires l0 == b0 + 0x100 * b1 + 0x1_0000 * (b2 % 0x20)
    requires l1 == b2 / 0x20 + 0x8 * b3 + 0x800 * b4 + 0x8_0000 * (b5 % 0x4)
    requires l2 == b5 / 0x4 + 0x40 * b6 + 0x4000 * (b7 % 0x80)
    requires l3 == b7 / 0x80 + 0x2 * b8 + 0x200 * b9 + 0x2_0000 * (b10 % 0x10)
    requires l4 == b10 / 0x10 + 0x10 * b11 + 0x1000 * b12 + 0x10_0000 * (b13 % 0x2)
    requires l5 == b13 / 0x2 + 0x80 * b14 + 0x8000 * (b15 % 0x40)
    requires l6 == b15 / 0x40 + 0x4 * b16 + 0x400 * b17 + 0x4_0000 * (b18 % 0x8)
    requires l7 == b18 / 0x8 + 0x20 * b19 + 0x2000 * b20
    ensures Limbs8(l0, l1, l2, l3, l4, l5, l6, l7) ==
      b0 + 0x100 * b1 + 0x1_0000 * b2
      + 0x100_0000 * (b3 + 0x100 * b4 + 0x1_0000 * b5)
      + 0x1_0000_0000_0000 * (b6 + 0x100 * b7 + 0x1_0000 * b8)
      + 0x100_0000_0000_0000_0000 * (b9 + 0x100 * b10 + 0x1_0000 * b11)
      + 0x1_0000_0000_0000_0000_0000_0000 * (b12 + 0x100 * b13 + 0x1_0000 * b14)
      + 0x100_0000_0000_0000_0000_0000_0000_0000 * (b15 + 0x100 * b16 + 0x1_0000 * b17)
      + 0x1_0000_0000_0000_0000_0000_0000_0000_0000_0000 * (b18 + 0x100 * b19 + 0x1_0000 * b20)
  {
  }

  lemma {:induction false} EightLimbsValue(s: seq<int>)
    requires 21 <= |s| && Below(s, 256)
    ensures var l := EightLimbs(s); Limbs8(l[0], l[1], l[2], l[3], l[4], l[5], l[6], l[7]) == Bytes21(s)
  {
    Limb0(s);
    Limb1(s);
    Limb2(s);
    Limb3(s);
    Limb4(s);
    Limb5(s);
    Limb6(s);
    Limb7(s);
    PiecesJoined(Load3(s, 0) % M21,
      Load4(s, 2) / 0x20 % M21,
      Load3(s, 5) / 0x4 % M21,
      Load4(s, 7) / 0x80 % M21,
      Load4(s, 10) / 0x10 % M21,
      Load3(s, 13) / 0x2 % M21,
      Load4(s, 15) / 0x40 % M21,
      Load3(s, 18) / 0x8 % M21,
      s[0], s[1], s[2], s[3], s[4], s[5], s[6], s[7], s[8], s[9], s[10], s[11], s[12], s[13], s[14], s[15],
      s[16], s[17], s[18], s[19], s[20]);
  }

  /** Four limbs out of eleven bytes, the last one with all bits that remain. */
  function FourLimbs(s: seq<int>): (l: seq<int>)
    requires |s| == 11
    ensures |l| == 4
  {
    [Load3(s, 0) % M21, Load4(s, 2) / 0x20 % M21, Load3(s, 5) / 4 % M21, Load4(s, 7) / 0x80]
  }

  lemma {:induction false} LastOfFour(a: int, b: int, c: int, d: int)
    requires 0 <= a < 256 && 0 <= b < 256 && 0 <= c < 256 && 0 <= d < 256
    ensures (a + 0x100 * b + 0x1_0000 * c + 0x100_0000 * d) / 0x80 == a / 0x80 + 2 * b + 0x200 * c + 0x2_0000 * d
  {
    DivModUnique(a + 0x100 * b + 0x1_0000 * c + 0x100_0000 * d, 0x80, a / 0x80 + 2 * b + 0x200 * c + 0x2_0000 * d,
      a % 0x80);
  }

  lemma {:induction false} FourLimbsJoined(l0: int, l1: int, l2: int, l3: int, b0: int, b1: int, b2: int, b3: int,
    b4: int, b5: int, b6: int, b7: int, b8: int, b9: int, b10: int)
    requires l0 == b0 + 0x100 * b1 + 0x1_0000 * (b2 % 0x20)
    requires l1 == b2 / 0x20 + 0x8 * b3 + 0x800 * b4 + 0x8_0000 * (b5 % 0x4)
    requires l2 == b5 / 0x4 + 0x40 * b6 + 0x4000 * (b7 % 0x80)
    requires l3 == b7 / 0x80 + 2 * b8 + 0x200 * b9 + 0x2_0000 * b10
    ensures l0 + M21 * l1 + 0x400_0000_0000 * l2 + 0x8000_0000_0000_0000 * l3 ==
      b0 + 0x100 * b1 + 0x1_0000 * b2 + 0x100_0000 * (b3 + 0x100 * b4 + 0x1_0000 * b5)
      + 0x1_0000_0000_0000 * (b6 + 0x100 * b7 + 0x1_0000 * b8) + 0x100_0000_0000_0000_0000 * (b9 + 0x100 * b10)
  {
  }

  /** Eleven bytes as a number. */
  function Bytes11(s: seq<int>): int
    requires |s| == 11
  {
    Load3(s, 0) + 0x100_0000 * Load3(s, 3) + 0x1_0000_0000_0000 * Load3(s, 6)
      + 0x100_0000_0000_0000_0000 * (s[9] + 0x100 * s[10])
  }

  lemma {:induction false} Value11(s: seq<int>)
    requires Bytes(s, 11)
    ensures Value(s) == Bytes11(s)
  {
    assert s[0..] == s && s[11..] == [];
    ValueThree(s, 0);
    ValueThree(s, 3);
    ValueThree(s, 6);
    ValueStep(s, 9);
    ValueStep(s, 10);
  }

  lemma {:induction false} FourLimbsValue(s: seq<int>)
    requires Bytes(s, 11)
    ensures var l := FourLimbs(s);
      l[0] + M21 * l[1] + 0x400_0000_0000 * l[2] + 0x8000_0000_0000_0000 * l[3] == Bytes11(s)
    ensures 0 <= FourLimbs(s)[3] < 0x200_0000
  {
    Limb0(s);
    Limb1(s);
    Limb2(s);
    LastOfFour(s[7], s[8], s[9], s[10]);
    FourLimbsJoined(Load3(s, 0) % M21, Load4(s, 2) / 0x20 % M21, Load3(s, 5) / 4 % M21, Load4(s, 7) / 0x80,
      s[0], s[1], s[2], s[3], s[4], s[5], s[6], s[7], s[8], s[9], s[10]);
  }

  /** The last of 24 limbs takes one byte more. */
  lemma {:induction false} LastOfAll(s: seq<int>)
    requires Bytes(s, 22)
    ensures Load4(s, 18) / 8 == EightLimbs(s)[7] + M21 * s[21] && 0 <= Load4(s, 18) / 8 < 0x2000_0000
  {
    LastOfAllAt(s[18], s[19], s[20], s[21]);
  }

  lemma {:induction false} LastOfAllAt(a: int, b: int, c: int, d: int)
    requires 0 <= a < 256 && 0 <= b < 256 && 0 <= c < 256 && 0 <= d < 256
    ensures (a + 0x100 * b + 0x1_0000 * c + 0x100_0000 * d) / 8 == (a + 0x100 * b + 0x1_0000 * c) / 8 % M21 + M21 * d
    ensures 0 <= (a + 0x100 * b + 0x1_0000 * c + 0x100_0000 * d) / 8 < 0x2000_0000
  {
    Cut7(a, b, c);
    DivModUnique(a + 0x100 * b + 0x1_0000 * c + 0x100_0000 * d, 8, a / 8 + 0x20 * b + 0x2000 * c + M21 * d, a % 8);
  }

  // ----- stores

  lemma {:induction false} Merged1(x: nat, y: nat)
    requires x < 2
    ensures Merged(x, y, 1) == x + 2 * (y % 0x80)
  {
    SmallTwos();
    ShiftedIs(y);
    MergedIs(x, y, 1);
    LowByte1(x, y);
  }

  lemma {:induction false} LowByte1(x: nat, y: nat)
    requires x < 2
    ensures (x + 2 * y) % 0x100 == x + 2 * (y % 0x80)
  {
    DivModUnique(x + 2 * y, 0x100, y / 0x80, x + 2 * (y % 0x80));
  }

  lemma {:induction false} Merged2(x: nat, y: nat)
    requires x < 4
    ensures Merged(x, y, 2) == x + 4 * (y % 0x40)
  {
    SmallTwos();
    ShiftedIs(y);
    MergedIs(x, y, 2);
    LowByte2(x, y);
  }

  lemma {:induction false} LowByte2(x: nat, y: nat)
    requires x < 4
    ensures (x + 4 * y) % 0x100 == x + 4 * (y % 0x40)
  {
    DivModUnique(x + 4 * y, 0x100, y / 0x40, x + 4 * (y % 0x40));
  }

  lemma {:induction false} Merged3(x: nat, y: nat)
    requires x < 8
    ensures Merged(x, y, 3) == x + 8 * (y % 0x20)
  {
    SmallTwos();
    ShiftedIs(y);
    MergedIs(x, y, 3);
    LowByte3(x, y);
  }

  lemma {:induction false} LowByte3(x: nat, y: nat)
    requires x < 8
    ensures (x + 8 * y) % 0x100 == x + 8 * (y % 0x20)
  {
    DivModUnique(x + 8 * y, 0x100, y / 0x20, x + 8 * (y % 0x20));
  }

  lemma {:induction false} Merged4(x: nat, y: nat)
    requires x < 0x10
    ensures Merged(x, y, 4) == x + 0x10 * (y % 0x10)
  {
    SmallTwos();
    ShiftedIs(y);
    MergedIs(x, y, 4);
    LowByte4(x, y);
  }

  lemma {:induction false} LowByte4(x: nat, y: nat)
    requires x < 0x10
    ensures (x + 0x10 * y) % 0x100 == x + 0x10 * (y % 0x10)
  {
    DivModUnique(x + 0x10 * y, 0x100, y / 0x10, x + 0x10 * (y % 0x10));
  }

  lemma {:induction false} Merged5(x: nat, y: nat)
    requires x < 0x20
    ensures Merged(x, y, 5) == x + 0x20 * (y % 8)
  {
    SmallTwos();
    ShiftedIs(y);
    MergedIs(x, y, 5);
    LowByte5(x, y);
  }

  lemma {:induction false} LowByte5(x: nat, y: nat)
    requires x < 0x20
    ensures (x + 0x20 * y) % 0x100 == x + 0x20 * (y % 8)
  {
    DivModUnique(x + 0x20 * y, 0x100, y / 8, x + 0x20 * (y % 8));
  }

  lemma {:induction false} Merged6(x: nat, y: nat)
    requires x < 0x40
    ensures Merged(x, y, 6) == x + 0x40 * (y % 4)
  {
    SmallTwos();
    ShiftedIs(y);
    MergedIs(x, y, 6);
    LowByte6(x, y);
  }

  lemma {:induction false} LowByte6(x: nat, y: nat)
    requires x < 0x40
    ensures (x + 0x40 * y) % 0x100 == x + 0x40 * (y % 4)
  {
    DivModUnique(x + 0x40 * y, 0x100, y / 4, x + 0x40 * (y % 4));
  }

  lemma {:induction false} Merged7(x: nat, y: nat)
    requires x < 0x80
    ensures Merged(x, y, 7) == x + 0x80 * (y % 2)
  {
    SmallTwos();
    ShiftedIs(y);
    MergedIs(x, y, 7);
    LowByte7(x, y);
  }

  lemma {:induction false} LowByte7(x: nat, y: nat)
    requires x < 0x80
    ensures (x + 0x80 * y) % 0x100 == x + 0x80 * (y % 2)
  {
    DivModUnique(x + 0x80 * y, 0x100, y / 2, x + 0x80 * (y % 2));
  }

  /** Eight limbs of 21 bits as 21 bytes. */
  function StoreEight(x0: nat, x1: nat, x2: nat, x3: nat, x4: nat, x5: nat, x6: nat, x7: nat): (b: seq<int>)
    ensures Bytes(b, 21)
  {
    [x0 % 0x100, x0 / 0x100 % 0x100, Merged(x0 / 0x1_0000, x1, 5), x1 / 8 % 0x100,
     x1 / 0x800 % 0x100, Merged(x1 / 0x8_0000, x2, 2), x2 / 0x40 % 0x100, Merged(x2 / 0x4000, x3, 7),
     x3 / 2 % 0x100, x3 / 0x200 % 0x100, Merged(x3 / 0x2_0000, x4, 4), x4 / 0x10 % 0x100,
     x4 / 0x1000 % 0x100, Merged(x4 / 0x10_0000, x5, 1), x5 / 0x80 % 0x100, Merged(x5 / 0x8000, x6, 6),
     x6 / 4 % 0x100, x6 / 0x400 % 0x100, Merged(x6 / 0x4_0000, x7, 3), x7 / 0x20 % 0x100,
     x7 / 0x2000 % 0x100]
  }

  lemma {:induction false} EightDigits0(x0: nat)
    requires x0 < 0x20_0000
    ensures x0 == x0 % 0x100 + 0x100 * (x0 / 0x100 % 0x100) + 0x1_0000 * (x0 / 0x1_0000)
  {
    assert x0 / 0x100 / 0x100 == x0 / 0x1_0000;
  }

  lemma {:induction false} EightDigits1(x1: nat)
    requires x1 < 0x20_0000
    ensures x1 == x1 % 8 + 8 * (x1 / 8 % 0x100) + 0x800 * (x1 / 0x800 % 0x100) + 0x8_0000 * (x1 / 0x8_0000)
  {
    assert x1 / 8 / 0x100 == x1 / 0x800;
    assert x1 / 0x800 / 0x100 == x1 / 0x8_0000;
  }

  lemma {:induction false} EightDigits2(x2: nat)
    requires x2 < 0x20_0000
    ensures x2 == x2 % 0x40 + 0x40 * (x2 / 0x40 % 0x100) + 0x4000 * (x2 / 0x4000)
  {
    assert x2 / 0x40 / 0x100 == x2 / 0x4000;
  }

  lemma {:induction false} EightDigits3(x3: nat)
    requires x3 < 0x20_0000
    ensures x3 == x3 % 2 + 2 * (x3 / 2 % 0x100) + 0x200 * (x3 / 0x200 % 0x100) + 0x2_0000 * (x3 / 0x2_0000)
  {
    assert x3 / 2 / 0x100 == x3 / 0x200;
    assert x3 / 0x200 / 0x100 == x3 / 0x2_0000;
  }

  lemma {:induction false} EightDigits4(x4: nat)
    requires x4 < 0x20_0000
    ensures x4 == x4 % 0x10 + 0x10 * (x4 / 0x10 % 0x100) + 0x1000 * (x4 / 0x1000 % 0x100) + 0x10_0000 * (x4 / 0x10_0000)
  {
    assert x4 / 0x10 / 0x100 == x4 / 0x1000;
    assert x4 / 0x1000 / 0x100 == x4 / 0x10_0000;
  }

  lemma {:induction false} EightDigits5(x5: nat)
    requires x5 < 0x20_0000
    ensures x5 == x5 % 0x80 + 0x80 * (x5 / 0x80 % 0x100) + 0x8000 * (x5 / 0x8000)
  {
    assert x5 / 0x80 / 0x100 == x5 / 0x8000;
  }

  lemma {:induction false} EightDigits6(x6: nat)
    requires x6 < 0x20_0000
    ensures x6 == x6 % 4 + 4 * (x6 / 4 % 0x100) + 0x400 * (x6 / 0x400 % 0x100) + 0x4_0000 * (x6 / 0x4_0000)
  {
    assert x6 / 4 / 0x100 == x6 / 0x400;
    assert x6 / 0x400 / 0x100 == x6 / 0x4_0000;
  }

  lemma {:induction false} EightDigits7(x7: nat)
    requires x7 < 0x20_0000
    ensures x7 == x7 % 0x20 + 0x20 * (x7 / 0x20 % 0x100) + 0x2000 * (x7 / 0x2000 % 0x100)
  {
    assert x7 / 0x20 / 0x100 == x7 / 0x2000;
  }

  lemma {:induction false} EightJoined(x0: nat, x1: nat, x2: nat, x3: nat, x4: nat, x5: nat, x6: nat, x7: nat,
    b0: int, b1: int, b2: int, b3: int, b4: int, b5: int, b6: int, b7: int,
    b8: int, b9: int, b10: int, b11: int, b12: int, b13: int, b14: int, b15: int,
    b16: int, b17: int, b18: int, b19: int, b20: int)
    requires x0 == x0 % 0x100 + 0x100 * (x0 / 0x100 % 0x100) + 0x1_0000 * (x0 / 0x1_0000)
    requires x1 == x1 % 8 + 8 * (x1 / 8 % 0x100) + 0x800 * (x1 / 0x800 % 0x100) + 0x8_0000 * (x1 / 0x8_0000)
    requires x2 == x2 % 0x40 + 0x40 * (x2 / 0x40 % 0x100) + 0x4000 * (x2 / 0x4000)
    requires x3 == x3 % 2 + 2 * (x3 / 2 % 0x100) + 0x200 * (x3 / 0x200 % 0x100) + 0x2_0000 * (x3 / 0x2_0000)
    requires x4 == x4 % 0x10 + 0x10 * (x4 / 0x10 % 0x100) + 0x1000 * (x4 / 0x1000 % 0x100)
      + 0x10_0000 * (x4 / 0x10_0000)
    requires x5 == x5 % 0x80 + 0x80 * (x5 / 0x80 % 0x100) + 0x8000 * (x5 / 0x8000)
    requires x6 == x6 % 4 + 4 * (x6 / 4 % 0x100) + 0x400 * (x6 / 0x400 % 0x100) + 0x4_0000 * (x6 / 0x4_0000)
    requires x7 == x7 % 0x20 + 0x20 * (x7 / 0x20 % 0x100) + 0x2000 * (x7 / 0x2000 % 0x100)
    requires b0 == x0 % 0x100
    requires b1 == x0 / 0x100 % 0x100
    requires b2 == x0 / 0x1_0000 + 0x20 * (x1 % 8)
    requires b3 == x1 / 8 % 0x100
    requires b4 == x1 / 0x800 % 0x100
    requires b5 == x1 / 0x8_0000 + 4 * (x2 % 0x40)
    requires b6 == x2 / 0x40 % 0x100
    requires b7 == x2 / 0x4000 + 0x80 * (x3 % 2)
    requires b8 == x3 / 2 % 0x100
    requires b9 == x3 / 0x200 % 0x100
    requires b10 == x3 / 0x2_0000 + 0x10 * (x4 % 0x10)
    requires b11 == x4 / 0x10 % 0x100
    requires b12 == x4 / 0x1000 % 0x100
    requires b13 == x4 / 0x10_0000 + 2 * (x5 % 0x80)
    requires b14 == x5 / 0x80 % 0x100
    requires b15 == x5 / 0x8000 + 0x40 * (x6 % 4)
    requires b16 == x6 / 4 % 0x100
    requires b17 == x6 / 0x400 % 0x100
    requires b18 == x6 / 0x4_0000 + 8 * (x7 % 0x20)
    requires b19 == x7 / 0x20 % 0x100
    requires b20 == x7 / 0x2000 % 0x100
    ensures b0 + 0x100 * b1 + 0x1_0000 * b2
      + 0x100_0000 * (b3 + 0x100 * b4 + 0x1_0000 * b5)
      + 0x1_0000_0000_0000 * (b6 + 0x100 * b7 + 0x1_0000 * b8)
      + 0x100_0000_0000_0000_0000 * (b9 + 0x100 * b10 + 0x1_0000 * b11)
      + 0x1_0000_0000_0000_0000_0000_0000 * (b12 + 0x100 * b13 + 0x1_0000 * b14)
      + 0x100_0000_0000_0000_0000_0000_0000_0000 * (b15 + 0x100 * b16 + 0x1_0000 * b17)
      + 0x1_0000_0000_0000_0000_0000_0000_0000_0000_0000 * (b18 + 0x100 * b19 + 0x1_0000 * b20)
      == x0
      + 0x20_0000 * x1
      + 0x400_0000_0000 * x2
      + 0x8000_0000_0000_0000 * x3
      + 0x10_0000_0000_0000_0000_0000 * x4
      + 0x200_0000_0000_0000_0000_0000_0000 * x5
      + 0x4000_0000_0000_0000_0000_0000_0000_0000 * x6
      + 0x8_0000_0000_0000_0000_0000_0000_0000_0000_0000 * x7
  {
  }

  /** The bytes hold the number that the limbs stand for. */
  lemma {:induction false} StoreEightValue(x0: nat, x1: nat, x2: nat, x3: nat, x4: nat, x5: nat, x6: nat, x7: nat)
    requires x0 < 0x20_0000 && x1 < 0x20_0000 && x2 < 0x20_0000 && x3 < 0x20_0000 && x4 < 0x20_0000 && x5 < 0x20_0000
      && x6 < 0x20_0000 && x7 < 0x20_0000
    ensures var b := StoreEight(x0, x1, x2, x3, x4, x5, x6, x7);
      b[0] + 0x100 * b[1] + 0x1_0000 * b[2]
      + 0x100_0000 * (b[3] + 0x100 * b[4] + 0x1_0000 * b[5])
      + 0x1_0000_0000_0000 * (b[6] + 0x100 * b[7] + 0x1_0000 * b[8])
      + 0x100_0000_0000_0000_0000 * (b[9] + 0x100 * b[10] + 0x1_0000 * b[11])
      + 0x1_0000_0000_0000_0000_0000_0000 * (b[12] + 0x100 * b[13] + 0x1_0000 * b[14])
      + 0x100_0000_0000_0000_0000_0000_0000_0000 * (b[15] + 0x100 * b[16] + 0x1_0000 * b[17])
      + 0x1_0000_0000_0000_0000_0000_0000_0000_0000_0000 * (b[18] + 0x100 * b[19] + 0x1_0000 * b[20])
      == x0
      + 0x20_0000 * x1
      + 0x400_0000_0000 * x2
      + 0x8000_0000_0000_0000 * x3
      + 0x10_0000_0000_0000_0000_0000 * x4
      + 0x200_0000_0000_0000_0000_0000_0000 * x5
      + 0x4000_0000_0000_0000_0000_0000_0000_0000 * x6
      + 0x8_0000_0000_0000_0000_0000_0000_0000_0000_0000 * x7
  {
    Merged5(x0 / 0x1_0000, x1);
    Merged2(x1 / 0x8_0000, x2);
    Merged7(x2 / 0x4000, x3);
    Merged4(x3 / 0x2_0000, x4);
    Merged1(x4 / 0x10_0000, x5);
    Merged6(x5 / 0x8000, x6);
    Merged3(x6 / 0x4_0000, x7);
    EightDigits0(x0);
    EightDigits1(x1);
    EightDigits2(x2);
    EightDigits3(x3);
    EightDigits4(x4);
    EightDigits5(x5);
    EightDigits6(x6);
    EightDigits7(x7);
    var b := StoreEight(x0, x1, x2, x3, x4, x5, x6, x7);
    EightJoined(x0, x1, x2, x3, x4, x5, x6, x7,
      b[0], b[1], b[2], b[3], b[4], b[5], b[6], b[7], b[8], b[9], b[10], b[11],
      b[12], b[13], b[14], b[15], b[16], b[17], b[18], b[19], b[20]);
  }

  /** Three limbs of 21 bits and one of 25 as eleven bytes. */
  function StoreFour(x0: nat, x1: nat, x2: nat, x3: nat): (b: seq<int>)
    ensures Bytes(b, 11)
  {
    [x0 % 0x100, x0 / 0x100 % 0x100, Merged(x0 / 0x1_0000, x1, 5), x1 / 8 % 0x100,
     x1 / 0x800 % 0x100, Merged(x1 / 0x8_0000, x2, 2), x2 / 0x40 % 0x100, Merged(x2 / 0x4000, x3, 7),
     x3 / 2 % 0x100, x3 / 0x200 % 0x100, x3 / 0x2_0000 % 0x100]
  }

  lemma {:induction false} FourDigits0(x0: nat)
    requires x0 < 0x20_0000
    ensures x0 == x0 % 0x100 + 0x100 * (x0 / 0x100 % 0x100) + 0x1_0000 * (x0 / 0x1_0000)
  {
    assert x0 / 0x100 / 0x100 == x0 / 0x1_0000;
  }

  lemma {:induction false} FourDigits1(x1: nat)
    requires x1 < 0x20_0000
    ensures x1 == x1 % 8 + 8 * (x1 / 8 % 0x100) + 0x800 * (x1 / 0x800 % 0x100) + 0x8_0000 * (x1 / 0x8_0000)
  {
    assert x1 / 8 / 0x100 == x1 / 0x800;
    assert x1 / 0x800 / 0x100 == x1 / 0x8_0000;
  }

  lemma {:induction false} FourDigits2(x2: nat)
    requires x2 < 0x20_0000
    ensures x2 == x2 % 0x40 + 0x40 * (x2 / 0x40 % 0x100) + 0x4000 * (x2 / 0x4000)
  {
    assert x2 / 0x40 / 0x100 == x2 / 0x4000;
  }

  lemma {:induction false} FourDigits3(x3: nat)
    requires x3 < 0x200_0000
    ensures x3 == x3 % 2 + 2 * (x3 / 2 % 0x100) + 0x200 * (x3 / 0x200 % 0x100) + 0x2_0000 * (x3 / 0x2_0000 % 0x100)
  {
    assert x3 / 2 / 0x100 == x3 / 0x200;
    assert x3 / 0x200 / 0x100 == x3 / 0x2_0000;
  }

  lemma {:induction false} FourJoined(x0: nat, x1: nat, x2: nat, x3: nat,
    b0: int, b1: int, b2: int, b3: int, b4: int, b5: int, b6: int, b7: int,
    b8: int, b9: int, b10: int)
    requires x0 == x0 % 0x100 + 0x100 * (x0 / 0x100 % 0x100) + 0x1_0000 * (x0 / 0x1_0000)
    requires x1 == x1 % 8 + 8 * (x1 / 8 % 0x100) + 0x800 * (x1 / 0x800 % 0x100) + 0x8_0000 * (x1 / 0x8_0000)
    requires x2 == x2 % 0x40 + 0x40 * (x2 / 0x40 % 0x100) + 0x4000 * (x2 / 0x4000)
    requires x3 == x3 % 2 + 2 * (x3 / 2 % 0x100) + 0x200 * (x3 / 0x200 % 0x100) + 0x2_0000 * (x3 / 0x2_0000 % 0x100)
    requires b0 == x0 % 0x100
    requires b1 == x0 / 0x100 % 0x100
    requires b2 == x0 / 0x1_0000 + 0x20 * (x1 % 8)
    requires b3 == x1 / 8 % 0x100
    requires b4 == x1 / 0x800 % 0x100
    requires b5 == x1 / 0x8_0000 + 4 * (x2 % 0x40)
    requires b6 == x2 / 0x40 % 0x100
    requires b7 == x2 / 0x4000 + 0x80 * (x3 % 2)
    requires b8 == x3 / 2 % 0x100
    requires b9 == x3 / 0x200 % 0x100
    requires b10 == x3 / 0x2_0000 % 0x100
    ensures b0 + 0x100 * b1 + 0x1_0000 * b2
      + 0x100_0000 * (b3 + 0x100 * b4 + 0x1_0000 * b5)
      + 0x1_0000_0000_0000 * (b6 + 0x100 * b7 + 0x1_0000 * b8)
      + 0x100_0000_0000_0000_0000 * (b9 + 0x100 * b10)
      == x0
      + 0x20_0000 * x1
      + 0x400_0000_0000 * x2
      + 0x8000_0000_0000_0000 * x3
  {
  }

  /** The bytes hold the number that the limbs stand for. */
  lemma {:induction false} StoreFourValue(x0: nat, x1: nat, x2: nat, x3: nat)
    requires x0 < 0x20_0000 && x1 < 0x20_0000 && x2 < 0x20_0000 && x3 < 0x200_0000
    ensures var b := StoreFour(x0, x1, x2, x3);
      b[0] + 0x100 * b[1] + 0x1_0000 * b[2]
      + 0x100_0000 * (b[3] + 0x100 * b[4] + 0x1_0000 * b[5])
      + 0x1_0000_0000_0000 * (b[6] + 0x100 * b[7] + 0x1_0000 * b[8])
      + 0x100_0000_0000_0000_0000 * (b[9] + 0x100 * b[10])
      == x0
      + 0x20_0000 * x1
      + 0x400_0000_0000 * x2
      + 0x8000_0000_0000_0000 * x3
  {
    Merged5(x0 / 0x1_0000, x1);
    Merged2(x1 / 0x8_0000, x2);
    Merged7(x2 / 0x4000, x3);
    FourDigits0(x0);
    FourDigits1(x1);
    FourDigits2(x2);
    FourDigits3(x3);
    var b := StoreFour(x0, x1, x2, x3);
    FourJoined(x0, x1, x2, x3,
      b[0], b[1], b[2], b[3], b[4], b[5], b[6], b[7], b[8], b[9], b[10]);
  }

  /** The lower half of a field element as bytes. */
  function StoreLow(x0: nat, x1: nat, x2: nat, x3: nat, x4: nat): (b: seq<int>)
    ensures Bytes(b, 16)
  {
    [x0 % 0x100, x0 / 0x100 % 0x100, x0 / 0x1_0000 % 0x100, Merged(x0 / 0x100_0000, x1, 2),
     x1 / 0x40 % 0x100, x1 / 0x4000 % 0x100, Merged(x1 / 0x40_0000, x2, 3), x2 / 0x20 % 0x100,
     x2 / 0x2000 % 0x100, Merged(x2 / 0x20_0000, x3, 5), x3 / 8 % 0x100, x3 / 0x800 % 0x100,
     Merged(x3 / 0x8_0000, x4, 6), x4 / 4 % 0x100, x4 / 0x400 % 0x100, x4 / 0x4_0000 % 0x100]
  }

  lemma {:induction false} LowDigits0(x0: nat)
    requires x0 < 0x400_0000
    ensures x0 == x0 % 0x100 + 0x100 * (x0 / 0x100 % 0x100) + 0x1_0000 * (x0 / 0x1_0000 % 0x100)
      + 0x100_0000 * (x0 / 0x100_0000)
  {
    assert x0 / 0x100 / 0x100 == x0 / 0x1_0000;
    assert x0 / 0x1_0000 / 0x100 == x0 / 0x100_0000;
  }

  lemma {:induction false} LowDigits1(x1: nat)
    requires x1 < 0x200_0000
    ensures x1 == x1 % 0x40 + 0x40 * (x1 / 0x40 % 0x100) + 0x4000 * (x1 / 0x4000 % 0x100) + 0x40_0000 * (x1 / 0x40_0000)
  {
    assert x1 / 0x40 / 0x100 == x1 / 0x4000;
    assert x1 / 0x4000 / 0x100 == x1 / 0x40_0000;
  }

  lemma {:induction false} LowDigits2(x2: nat)
    requires x2 < 0x400_0000
    ensures x2 == x2 % 0x20 + 0x20 * (x2 / 0x20 % 0x100) + 0x2000 * (x2 / 0x2000 % 0x100) + 0x20_0000 * (x2 / 0x20_0000)
  {
    assert x2 / 0x20 / 0x100 == x2 / 0x2000;
    assert x2 / 0x2000 / 0x100 == x2 / 0x20_0000;
  }

  lemma {:induction false} LowDigits3(x3: nat)
    requires x3 < 0x200_0000
    ensures x3 == x3 % 8 + 8 * (x3 / 8 % 0x100) + 0x800 * (x3 / 0x800 % 0x100) + 0x8_0000 * (x3 / 0x8_0000)
  {
    assert x3 / 8 / 0x100 == x3 / 0x800;
    assert x3 / 0x800 / 0x100 == x3 / 0x8_0000;
  }

  lemma {:induction false} LowDigits4(x4: nat)
    requires x4 < 0x400_0000
    ensures x4 == x4 % 4 + 4 * (x4 / 4 % 0x100) + 0x400 * (x4 / 0x400 % 0x100) + 0x4_0000 * (x4 / 0x4_0000 % 0x100)
  {
    assert x4 / 4 / 0x100 == x4 / 0x400;
    assert x4 / 0x400 / 0x100 == x4 / 0x4_0000;
  }

  lemma {:induction false} LowJoined(x0: nat, x1: nat, x2: nat, x3: nat, x4: nat,
    b0: int, b1: int, b2: int, b3: int, b4: int, b5: int, b6: int, b7: int,
    b8: int, b9: int, b10: int, b11: int, b12: int, b13: int, b14: int, b15: int)
    requires x0 == x0 % 0x100 + 0x100 * (x0 / 0x100 % 0x100) + 0x1_0000 * (x0 / 0x1_0000 % 0x100)
      + 0x100_0000 * (x0 / 0x100_0000)
    requires x1 == x1 % 0x40 + 0x40 * (x1 / 0x40 % 0x100) + 0x4000 * (x1 / 0x4000 % 0x100)
      + 0x40_0000 * (x1 / 0x40_0000)
    requires x2 == x2 % 0x20 + 0x20 * (x2 / 0x20 % 0x100) + 0x2000 * (x2 / 0x2000 % 0x100)
      + 0x20_0000 * (x2 / 0x20_0000)
    requires x3 == x3 % 8 + 8 * (x3 / 8 % 0x100) + 0x800 * (x3 / 0x800 % 0x100) + 0x8_0000 * (x3 / 0x8_0000)
    requires x4 == x4 % 4 + 4 * (x4 / 4 % 0x100) + 0x400 * (x4 / 0x400 % 0x100) + 0x4_0000 * (x4 / 0x4_0000 % 0x100)
    requires b0 == x0 % 0x100
    requires b1 == x0 / 0x100 % 0x100
    requires b2 == x0 / 0x1_0000 % 0x100
    requires b3 == x0 / 0x100_0000 + 4 * (x1 % 0x40)
    requires b4 == x1 / 0x40 % 0x100
    requires b5 == x1 / 0x4000 % 0x100
    requires b6 == x1 / 0x40_0000 + 8 * (x2 % 0x20)
    requires b7 == x2 / 0x20 % 0x100
    requires b8 == x2 / 0x2000 % 0x100
    requires b9 == x2 / 0x20_0000 + 0x20 * (x3 % 8)
    requires b10 == x3 / 8 % 0x100
    requires b11 == x3 / 0x800 % 0x100
    requires b12 == x3 / 0x8_0000 + 0x40 * (x4 % 4)
    requires b13 == x4 / 4 % 0x100
    requires b14 == x4 / 0x400 % 0x100
    requires b15 == x4 / 0x4_0000 % 0x100
    ensures b0 + 0x100 * b1 + 0x1_0000 * b2
      + 0x100_0000 * (b3 + 0x100 * b4 + 0x1_0000 * b5)
      + 0x1_0000_0000_0000 * (b6 + 0x100 * b7 + 0x1_0000 * b8)
      + 0x100_0000_0000_0000_0000 * (b9 + 0x100 * b10 + 0x1_0000 * b11)
      + 0x1_0000_0000_0000_0000_0000_0000 * (b12 + 0x100 * b13 + 0x1_0000 * b14)
      + 0x100_0000_0000_0000_0000_0000_0000_0000 * (b15)
      == x0
      + 0x400_0000 * x1
      + 0x8_0000_0000_0000 * x2
      + 0x2000_0000_0000_0000_0000 * x3
      + 0x40_0000_0000_0000_0000_0000_0000 * x4
  {
  }

  /** The bytes hold the number that the limbs stand for. */
  lemma {:induction false} StoreLowValue(x0: nat, x1: nat, x2: nat, x3: nat, x4: nat)
    requires x0 < 0x400_0000 && x1 < 0x200_0000 && x2 < 0x400_0000 && x3 < 0x200_0000 && x4 < 0x400_0000
    ensures var b := StoreLow(x0, x1, x2, x3, x4);
      b[0] + 0x100 * b[1] + 0x1_0000 * b[2]
      + 0x100_0000 * (b[3] + 0x100 * b[4] + 0x1_0000 * b[5])
      + 0x1_0000_0000_0000 * (b[6] + 0x100 * b[7] + 0x1_0000 * b[8])
      + 0x100_0000_0000_0000_0000 * (b[9] + 0x100 * b[10] + 0x1_0000 * b[11])
      + 0x1_0000_0000_0000_0000_0000_0000 * (b[12] + 0x100 * b[13] + 0x1_0000 * b[14])
      + 0x100_0000_0000_0000_0000_0000_0000_0000 * (b[15])
      == x0
      + 0x400_0000 * x1
      + 0x8_0000_0000_0000 * x2
      + 0x2000_0000_0000_0000_0000 * x3
      + 0x40_0000_0000_0000_0000_0000_0000 * x4
  {
    Merged2(x0 / 0x100_0000, x1);
    Merged3(x1 / 0x40_0000, x2);
    Merged5(x2 / 0x20_0000, x3);
    Merged6(x3 / 0x8_0000, x4);
    LowDigits0(x0);
    LowDigits1(x1);
    LowDigits2(x2);
    LowDigits3(x3);
    LowDigits4(x4);
    var b := StoreLow(x0, x1, x2, x3, x4);
    LowJoined(x0, x1, x2, x3, x4,
      b[0], b[1], b[2], b[3], b[4], b[5], b[6], b[7], b[8], b[9], b[10], b[11],
      b[12], b[13], b[14], b[15]);
  }

  /** The upper half of a field element as bytes. */
  function StoreHigh(x0: nat, x1: nat, x2: nat, x3: nat, x4: nat): (b: seq<int>)
    ensures Bytes(b, 16)
  {
    [x0 % 0x100, x0 / 0x100 % 0x100, x0 / 0x1_0000 % 0x100, Merged(x0 / 0x100_0000, x1, 1),
     x1 / 0x80 % 0x100, x1 / 0x8000 % 0x100, Merged(x1 / 0x80_0000, x2, 3), x2 / 0x20 % 0x100,
     x2 / 0x2000 % 0x100, Merged(x2 / 0x20_0000, x3, 4), x3 / 0x10 % 0x100, x3 / 0x1000 % 0x100,
     Merged(x3 / 0x10_0000, x4, 6), x4 / 4 % 0x100, x4 / 0x400 % 0x100, x4 / 0x4_0000 % 0x100]
  }

  lemma {:induction false} HighDigits0(x0: nat)
    requires x0 < 0x200_0000
    ensures x0 == x0 % 0x100 + 0x100 * (x0 / 0x100 % 0x100) + 0x1_0000 * (x0 / 0x1_0000 % 0x100)
      + 0x100_0000 * (x0 / 0x100_0000)
  {
    assert x0 / 0x100 / 0x100 == x0 / 0x1_0000;
    assert x0 / 0x1_0000 / 0x100 == x0 / 0x100_0000;
  }

  lemma {:induction false} HighDigits1(x1: nat)
    requires x1 < 0x400_0000
    ensures x1 == x1 % 0x80 + 0x80 * (x1 / 0x80 % 0x100) + 0x8000 * (x1 / 0x8000 % 0x100) + 0x80_0000 * (x1 / 0x80_0000)
  {
    assert x1 / 0x80 / 0x100 == x1 / 0x8000;
    assert x1 / 0x8000 / 0x100 == x1 / 0x80_0000;
  }

  lemma {:induction false} HighDigits2(x2: nat)
    requires x2 < 0x200_0000
    ensures x2 == x2 % 0x20 + 0x20 * (x2 / 0x20 % 0x100) + 0x2000 * (x2 / 0x2000 % 0x100) + 0x20_0000 * (x2 / 0x20_0000)
  {
    assert x2 / 0x20 / 0x100 == x2 / 0x2000;
    assert x2 / 0x2000 / 0x100 == x2 / 0x20_0000;
  }

  lemma {:induction false} HighDigits3(x3: nat)
    requires x3 < 0x400_0000
    ensures x3 == x3 % 0x10 + 0x10 * (x3 / 0x10 % 0x100) + 0x1000 * (x3 / 0x1000 % 0x100) + 0x10_0000 * (x3 / 0x10_0000)
  {
    assert x3 / 0x10 / 0x100 == x3 / 0x1000;
    assert x3 / 0x1000 / 0x100 == x3 / 0x10_0000;
  }

  lemma {:induction false} HighDigits4(x4: nat)
    requires x4 < 0x200_0000
    ensures x4 == x4 % 4 + 4 * (x4 / 4 % 0x100) + 0x400 * (x4 / 0x400 % 0x100) + 0x4_0000 * (x4 / 0x4_0000 % 0x100)
  {
    assert x4 / 4 / 0x100 == x4 / 0x400;
    assert x4 / 0x400 / 0x100 == x4 / 0x4_0000;
  }

  lemma {:induction false} HighJoined(x0: nat, x1: nat, x2: nat, x3: nat, x4: nat,
    b0: int, b1: int, b2: int, b3: int, b4: int, b5: int, b6: int, b7: int,
    b8: int, b9: int, b10: int, b11: int, b12: int, b13: int, b14: int, b15: int)
    requires x0 == x0 % 0x100 + 0x100 * (x0 / 0x100 % 0x100) + 0x1_0000 * (x0 / 0x1_0000 % 0x100)
      + 0x100_0000 * (x0 / 0x100_0000)
    requires x1 == x1 % 0x80 + 0x80 * (x1 / 0x80 % 0x100) + 0x8000 * (x1 / 0x8000 % 0x100)
      + 0x80_0000 * (x1 / 0x80_0000)
    requires x2 == x2 % 0x20 + 0x20 * (x2 / 0x20 % 0x100) + 0x2000 * (x2 / 0x2000 % 0x100)
      + 0x20_0000 * (x2 / 0x20_0000)
    requires x3 == x3 % 0x10 + 0x10 * (x3 / 0x10 % 0x100) + 0x1000 * (x3 / 0x1000 % 0x100)
      + 0x10_0000 * (x3 / 0x10_0000)
    requires x4 == x4 % 4 + 4 * (x4 / 4 % 0x100) + 0x400 * (x4 / 0x400 % 0x100) + 0x4_0000 * (x4 / 0x4_0000 % 0x100)
    requires b0 == x0 % 0x100
    requires b1 == x0 / 0x100 % 0x100
    requires b2 == x0 / 0x1_0000 % 0x100
    requires b3 == x0 / 0x100_0000 + 2 * (x1 % 0x80)
    requires b4 == x1 / 0x80 % 0x100
    requires b5 == x1 / 0x8000 % 0x100
    requires b6 == x1 / 0x80_0000 + 8 * (x2 % 0x20)
    requires b7 == x2 / 0x20 % 0x100
    requires b8 == x2 / 0x2000 % 0x100
    requires b9 == x2 / 0x20_0000 + 0x10 * (x3 % 0x10)
    requires b10 == x3 / 0x10 % 0x100
    requires b11 == x3 / 0x1000 % 0x100
    requires b12 == x3 / 0x10_0000 + 0x40 * (x4 % 4)
    requires b13 == x4 / 4 % 0x100
    requires b14 == x4 / 0x400 % 0x100
    requires b15 == x4 / 0x4_0000 % 0x100
    ensures b0 + 0x100 * b1 + 0x1_0000 * b2
      + 0x100_0000 * (b3 + 0x100 * b4 + 0x1_0000 * b5)
      + 0x1_0000_0000_0000 * (b6 + 0x100 * b7 + 0x1_0000 * b8)
      + 0x100_0000_0000_0000_0000 * (b9 + 0x100 * b10 + 0x1_0000 * b11)
      + 0x1_0000_0000_0000_0000_0000_0000 * (b12 + 0x100 * b13 + 0x1_0000 * b14)
      + 0x100_0000_0000_0000_0000_0000_0000_0000 * (b15)
      == x0
      + 0x200_0000 * x1
      + 0x8_0000_0000_0000 * x2
      + 0x1000_0000_0000_0000_0000 * x3
      + 0x40_0000_0000_0000_0000_0000_0000 * x4
  {
  }

  /** The bytes hold the number that the limbs stand for. */
  lemma {:induction false} StoreHighValue(x0: nat, x1: nat, x2: nat, x3: nat, x4: nat)
    requires x0 < 0x200_0000 && x1 < 0x400_0000 && x2 < 0x200_0000 && x3 < 0x400_0000 && x4 < 0x200_0000
    ensures var b := StoreHigh(x0, x1, x2, x3, x4);
      b[0] + 0x100 * b[1] + 0x1_0000 * b[2]
      + 0x100_0000 * (b[3] + 0x100 * b[4] + 0x1_0000 * b[5])
      + 0x1_0000_0000_0000 * (b[6] + 0x100 * b[7] + 0x1_0000 * b[8])
      + 0x100_0000_0000_0000_0000 * (b[9] + 0x100 * b[10] + 0x1_0000 * b[11])
      + 0x1_0000_0000_0000_0000_0000_0000 * (b[12] + 0x100 * b[13] + 0x1_0000 * b[14])
      + 0x100_0000_0000_0000_0000_0000_0000_0000 * (b[15])
      == x0
      + 0x200_0000 * x1
      + 0x8_0000_0000_0000 * x2
      + 0x1000_0000_0000_0000_0000 * x3
      + 0x40_0000_0000_0000_0000_0000_0000 * x4
  {
    Merged1(x0 / 0x100_0000, x1);
    Merged3(x1 / 0x80_0000, x2);
    Merged4(x2 / 0x20_0000, x3);
    Merged6(x3 / 0x10_0000, x4);
    HighDigits0(x0);
    HighDigits1(x1);
    HighDigits2(x2);
    HighDigits3(x3);
    HighDigits4(x4);
    var b := StoreHigh(x0, x1, x2, x3, x4);
    HighJoined(x0, x1, x2, x3, x4,
      b[0], b[1], b[2], b[3], b[4], b[5], b[6], b[7], b[8], b[9], b[10], b[11],
      b[12], b[13], b[14], b[15]);
  }
}
