/**
  The field of AES (section 4 of FIPS 197): bytes as polynomials modulo X^8 + X^4 + X^3 + X + 1. The table of the
  encryption is the affine image of the inverse in this field, and mixing a column multiplies it by a fixed polynomial.
 */
module AesField {
  import opened ModArith
  import opened BitXor
  import opened BitPacking
  import opened AesColumns
  import opened AesTables

  // ----- the field

  /** Multiplication by X. */
  function XTime(b: nat): (t: nat)
    requires b < 256
    ensures t < 256
  {
    if b < 128 then 2 * b
    else
      XorByte(2 * b - 256, 0x1B);
      Xor(2 * b - 256, 0x1B)
  }

  /** Multiplication: b times every power of X that a has, added up. */
  function FieldTimes(a: nat, b: nat): (p: nat)
    requires b < 256
    ensures p < 256
    decreases a
  {
    if a == 0 then 0
    else
      XorByte(if a % 2 == 1 then b else 0, XTime(FieldTimes(a / 2, b)));
      Xor(if a % 2 == 1 then b else 0, XTime(FieldTimes(a / 2, b)))
  }

  lemma {:induction false} WithModulus(l: nat, c: nat, m: nat, x: nat)
    requires l < 256 && c < 256 && m == 256 + c && x == Xor(l, c)
    ensures Xor(x, m) == 256 + l
  {
    XorByte(l, c);
    ByteJoin(0, x, 1, c);
    XorZero(1);
    XorTwice(l, c);
  }

  lemma {:induction false} One(m: nat, one: nat)
    requires one == 1
    ensures Times(m, one) == m
  {
    TimesUnit(m, one);
  }

  /** X times f is 2 f, or 2 f less the modulus. */
  lemma {:induction false} XTimeIs(f: nat, m: nat, e: nat)
    requires f < 256 && m == 0x11B && e == if f < 128 then 0 else 1
    ensures 2 * f == Xor(XTime(f), Times(m, e))
  {
    if f < 128 {
      TimesNothing(m);
      XorZero(2 * f);
    } else {
      One(m, e);
      WithModulus(2 * f - 256, 0x1B, m, XTime(f));
    }
  }

  /** The product is the remainder of the carryless product by the modulus. */
  lemma {:induction false} FieldTimesIs(a: nat, b: nat) returns (q: nat)
    requires b < 256
    ensures FieldTimes(a, b) < 256 && Times(a, b) == Xor(FieldTimes(a, b), Times(0x11B, q))
    decreases a
  {
    if a == 0 {
      q := 0;
      TimesNothing(0x11B);
      XorZero(0);
    } else {
      var r := FieldTimesIs(a / 2, b);
      var f, m := FieldTimes(a / 2, b), 0x11B;
      var e := if f < 128 then 0 else 1;
      var l := if a % 2 == 1 then b else 0;
      XTimeIs(f, m, e);
      XorDouble(f, Times(m, r));
      TimesDouble(m, r);
      TimesXor(m, e, 2 * r);
      XorAssoc(XTime(f), Times(m, e), Times(m, 2 * r));
      XorAssoc(l, XTime(f), Times(m, Xor(e, 2 * r)));
      q := Xor(e, 2 * r);
    }
  }

  // ----- the same on eight-bit words, where single products are found by evaluation

  function WordXTime(b: bv8): bv8 { (b << 1) ^ (if b & 0x80 != 0 then 0x1B else 0) }

  /** The product with the n lowest bits of a. */
  function WordTimes(a: bv8, b: bv8, n: nat): bv8
    decreases n
  {
    if n == 0 then 0 else (if a & 1 != 0 then b else 0) ^ WordXTime(WordTimes(a >> 1, b, n - 1))
  }

  function WordAffine(b: bv8): bv8 {
    b ^ b.RotateLeft(1) ^ b.RotateLeft(2) ^ b.RotateLeft(3) ^ b.RotateLeft(4) ^ 0x63
  }

  lemma {:induction false} WordHalved(a: bv8)
    ensures (a >> 1) as int == (a as int) / 2 && (a & 1) as int == (a as int) % 2
  {
  }

  /** The bit of a word under a mask. */
  function WordBit(a: bv8, mask: bv8): (b: nat)
    ensures b < 2
  {
    if a & mask != 0 then 1 else 0
  }

  lemma {:induction false} WordIsBits(a: bv8)
    ensures a as int == WordBit(a, 1) + 2 * (WordBit(a, 2) + 2 * (WordBit(a, 4)
      + 2 * (WordBit(a, 8) + 2 * (WordBit(a, 0x10) + 2 * (WordBit(a, 0x20)
      + 2 * (WordBit(a, 0x40) + 2 * WordBit(a, 0x80)))))))
  {
  }

  lemma {:induction false} BitOfXor(a: bv8, b: bv8, mask: bv8)
    requires mask & (mask - 1) == 0
    ensures WordBit(a ^ b, mask) == Differ(WordBit(a, mask), WordBit(b, mask))
  {
  }

  /** The exclusive or of words is that of their values. */
  lemma {:induction false} WordXor(a: bv8, b: bv8, x: nat, y: nat, z: nat)
    requires x == a as int && y == b as int && z == (a ^ b) as int
    ensures Xor(x, y) == z
  {
    WordIsBits(a);
    WordIsBits(b);
    WordIsBits(a ^ b);
    BitOfXor(a, b, 1);
    BitOfXor(a, b, 2);
    BitOfXor(a, b, 4);
    BitOfXor(a, b, 8);
    BitOfXor(a, b, 0x10);
    BitOfXor(a, b, 0x20);
    BitOfXor(a, b, 0x40);
    BitOfXor(a, b, 0x80);
    XorBits8(WordBit(a, 1), WordBit(a, 2), WordBit(a, 4), WordBit(a, 8), WordBit(a, 0x10), WordBit(a, 0x20),
      WordBit(a, 0x40), WordBit(a, 0x80), WordBit(b, 1), WordBit(b, 2), WordBit(b, 4), WordBit(b, 8), WordBit(b, 0x10),
      WordBit(b, 0x20), WordBit(b, 0x40), WordBit(b, 0x80));
  }

  lemma {:induction false} WordDoubled(b: bv8)
    ensures if b & 0x80 != 0 then b as int >= 128 && (b << 1) as int == 2 * (b as int) - 256
      else b as int < 128 && (b << 1) as int == 2 * (b as int)
  {
  }

  lemma {:induction false} WordXTimeIs(b: bv8, x: nat)
    requires x == b as int
    ensures WordXTime(b) as int == XTime(x)
  {
    WordDoubled(b);
    if b & 0x80 != 0 {
      WordXor(b << 1, 0x1B, 2 * x - 256, 0x1B, WordXTime(b) as int);
    } else {
      assert (b << 1) ^ 0 == b << 1;
    }
  }

  lemma {:induction false} LowBit(a: bv8)
    ensures a & 1 != 0 <==> (a as int) % 2 == 1
  {
    WordHalved(a);
  }

  /** The product of words is that of their values. */
  lemma {:induction false} WordTimesIs(a: bv8, b: bv8, n: nat, x: nat, y: nat)
    requires x == a as int && y == b as int && x < Pow2(n)
    ensures WordTimes(a, b, n) as int == FieldTimes(x, y)
    decreases n
  {
    if n > 0 {
      WordHalved(a);
      WordTimesIs(a >> 1, b, n - 1, x / 2, y);
      var f := WordTimes(a >> 1, b, n - 1);
      WordXTimeIs(f, FieldTimes(x / 2, y));
      WordTimesFrom(a, b, n, x, y, f);
    }
  }

  lemma {:induction false} WordTimesFrom(a: bv8, b: bv8, n: nat, x: nat, y: nat, f: bv8)
    requires n > 0 && x == a as int && y == b as int && f == WordTimes(a >> 1, b, n - 1)
    requires WordXTime(f) as int == XTime(FieldTimes(x / 2, y))
    ensures WordTimes(a, b, n) as int == FieldTimes(x, y)
  {
    var l: bv8 := if a & 1 != 0 then b else 0;
    LowBit(a);
    WordSum(l, WordXTime(f));
    FieldStep(x, y);
  }

  lemma {:induction false} WordSum(a: bv8, b: bv8)
    ensures (a ^ b) as int == Xor(a as int, b as int)
  {
    WordXor(a, b, a as int, b as int, (a ^ b) as int);
  }

  lemma {:induction false} FieldStep(x: nat, y: nat)
    requires y < 256
    ensures FieldTimes(x, y) == Xor(if x % 2 == 1 then y else 0, XTime(FieldTimes(x / 2, y)))
  {
    if x == 0 {
      XorZero(0);
    }
  }

  // ----- the affine map

  function Odd(n: int): (b: int)
    ensures 0 <= b < 2
  {
    n % 2
  }

  /** Bit i is the sum of the bits i, i + 4, i + 5, i + 6 and i + 7, counted modulo 8, and of bit i of 0x63. */
  function AffineBits(s: seq<int>): (t: seq<int>)
    requires |s| == 8
    ensures |t| == 8 && Below(t, 2)
  {
    [Odd(s[0] + s[4] + s[5] + s[6] + s[7] + 1),
     Odd(s[1] + s[5] + s[6] + s[7] + s[0] + 1),
     Odd(s[2] + s[6] + s[7] + s[0] + s[1] + 0),
     Odd(s[3] + s[7] + s[0] + s[1] + s[2] + 0),
     Odd(s[4] + s[0] + s[1] + s[2] + s[3] + 0),
     Odd(s[5] + s[1] + s[2] + s[3] + s[4] + 1),
     Odd(s[6] + s[2] + s[3] + s[4] + s[5] + 1),
     Odd(s[7] + s[3] + s[4] + s[5] + s[6] + 0)]
  }

  function Affine(y: nat): nat { FromBits(AffineBits(ToBits(y, 8))) }

  function BitList(a: bv8): (s: seq<int>)
    ensures |s| == 8 && Below(s, 2)
  {
    [WordBit(a, 1), WordBit(a, 2), WordBit(a, 4), WordBit(a, 8),
     WordBit(a, 0x10), WordBit(a, 0x20), WordBit(a, 0x40), WordBit(a, 0x80)]
  }

  lemma {:induction false} FromBitsCons(b: int, s: seq<int>)
    requires 0 <= b < 2 && Below(s, 2)
    ensures FromBits([b] + s) == b + 2 * FromBits(s)
  {
    assert ([b] + s)[1..] == s;
  }

  lemma {:induction false} FromFour(a: int, b: int, c: int, d: int, s: seq<int>)
    requires 0 <= a < 2 && 0 <= b < 2 && 0 <= c < 2 && 0 <= d < 2 && Below(s, 2)
    ensures FromBits([a, b, c, d] + s) == a + 2 * (b + 2 * (c + 2 * (d + 2 * FromBits(s))))
  {
    FromBitsCons(d, s);
    FromBitsCons(c, [d] + s);
    FromBitsCons(b, [c] + ([d] + s));
    FromBitsCons(a, [b] + ([c] + ([d] + s)));
    assert [a, b, c, d] + s == [a] + ([b] + ([c] + ([d] + s)));
  }

  lemma {:induction false} FromEight(a: int, b: int, c: int, d: int, e: int, f: int, g: int, h: int)
    requires 0 <= a < 2 && 0 <= b < 2 && 0 <= c < 2 && 0 <= d < 2 && 0 <= e < 2 && 0 <= f < 2 && 0 <= g < 2
      && 0 <= h < 2
    ensures FromBits([a, b, c, d, e, f, g, h])
      == a + 2 * (b + 2 * (c + 2 * (d + 2 * (e + 2 * (f + 2 * (g + 2 * h))))))
  {
    FromFour(a, b, c, d, [e, f, g, h]);
    FromFour(e, f, g, h, []);
    assert [a, b, c, d] + [e, f, g, h] == [a, b, c, d, e, f, g, h] && [e, f, g, h] + [] == [e, f, g, h];
  }

  /** A word is the number of its bits. */
  lemma {:induction false} WordOfBits(a: bv8)
    ensures FromBits(BitList(a)) == a as int && ToBits(a as int, 8) == BitList(a)
  {
    FromEight(WordBit(a, 1), WordBit(a, 2), WordBit(a, 4), WordBit(a, 8), WordBit(a, 0x10),
      WordBit(a, 0x20), WordBit(a, 0x40), WordBit(a, 0x80));
    WordIsBits(a);
    ToFromBits(BitList(a));
  }

  /** The rotations add up the same bits. */
  lemma {:induction false} AffineOfBits(b: bv8)
    ensures BitList(WordAffine(b)) == AffineBits(BitList(b))
  {
    AffineBit0(b);
    AffineBit1(b);
    AffineBit2(b);
    AffineBit3(b);
    AffineBit4(b);
    AffineBit5(b);
    AffineBit6(b);
    AffineBit7(b);
  }

  lemma {:induction false} AffineBit0(b: bv8)
    ensures WordBit(WordAffine(b), 1) == (WordBit(b, 1) + WordBit(b, 0x10) + WordBit(b, 0x20) + WordBit(b, 0x40)
      + WordBit(b, 0x80) + 1) % 2
  {
  }

  lemma {:induction false} AffineBit1(b: bv8)
    ensures WordBit(WordAffine(b), 2) == (WordBit(b, 2) + WordBit(b, 0x20) + WordBit(b, 0x40) + WordBit(b, 0x80)
      + WordBit(b, 1) + 1) % 2
  {
  }

  lemma {:induction false} AffineBit2(b: bv8)
    ensures WordBit(WordAffine(b), 4) == (WordBit(b, 4) + WordBit(b, 0x40) + WordBit(b, 0x80) + WordBit(b, 1)
      + WordBit(b, 2) + 0) % 2
  {
  }

  lemma {:induction false} AffineBit3(b: bv8)
    ensures WordBit(WordAffine(b), 8) == (WordBit(b, 8) + WordBit(b, 0x80) + WordBit(b, 1) + WordBit(b, 2)
      + WordBit(b, 4) + 0) % 2
  {
  }

  lemma {:induction false} AffineBit4(b: bv8)
    ensures WordBit(WordAffine(b), 0x10) == (WordBit(b, 0x10) + WordBit(b, 1) + WordBit(b, 2) + WordBit(b, 4)
      + WordBit(b, 8) + 0) % 2
  {
  }

  lemma {:induction false} AffineBit5(b: bv8)
    ensures WordBit(WordAffine(b), 0x20) == (WordBit(b, 0x20) + WordBit(b, 2) + WordBit(b, 4) + WordBit(b, 8)
      + WordBit(b, 0x10) + 1) % 2
  {
  }

  lemma {:induction false} AffineBit6(b: bv8)
    ensures WordBit(WordAffine(b), 0x40) == (WordBit(b, 0x40) + WordBit(b, 4) + WordBit(b, 8) + WordBit(b, 0x10)
      + WordBit(b, 0x20) + 1) % 2
  {
  }

  lemma {:induction false} AffineBit7(b: bv8)
    ensures WordBit(WordAffine(b), 0x80) == (WordBit(b, 0x80) + WordBit(b, 8) + WordBit(b, 0x10) + WordBit(b, 0x20)
      + WordBit(b, 0x40) + 0) % 2
  {
  }

  lemma {:induction false} WordAffineIs(b: bv8, y: nat)
    requires y == b as int
    ensures WordAffine(b) as int == Affine(y)
  {
    WordOfBits(b);
    WordOfBits(WordAffine(b));
    AffineOfBits(b);
  }

  // ----- columns

  lemma {:induction false} ReduceIsXTime(r: nat)
    requires r < 256
    ensures Reduce(2 * r) == XTime(r)
  {
    if r < 128 {
      ReduceByte(2 * r);
    } else {
      OverflowReduced(2 * r, 2 * r - 256, 0x1B, 1);
    }
  }

  /** Small factors: the carryless product, reduced at the end. */
  lemma {:induction false} SmallFactor(c: nat, s: nat, k: nat)
    requires c < Pow2(k + 1) && k <= 3 && s < 256
    ensures Reduce(Times(c, s)) == FieldTimes(c, s)
    decreases k, c
  {
    if c == 0 {
      ReduceByte(0);
      TimesZeroLeft(s);
    } else {
      var h, p := c / 2, c % 2;
      if k > 0 {
        SmallFactor(h, s, k - 1);
      } else {
        assert h == 0;
        ReduceByte(0);
      }
      HalfProduct(h, s, k);
      TimesReduced(c, h, p, s);
      ReduceIsXTime(FieldTimes(h, s));
      ReduceByte(if p == 1 then s else 0);
    }
  }

  lemma {:induction false} TimesZeroLeft(s: nat)
    ensures Times(0, s) == 0
  {
  }

  lemma {:induction false} HalfProduct(h: nat, s: nat, k: nat)
    requires h < Pow2(k) && k <= 3 && s < 256
    ensures Times(h, s) < 2048
  {
    assert Pow2(8) == 256 && Pow2(11) == 2048;
    if k > 0 {
      TimesBelow(h, s, k - 1, 8);
      PowMono(k - 1 + 8, 11);
    }
  }

  function Sum(a: nat, b: nat, c: nat, d: nat): nat { Xor(Xor(a, b), Xor(c, d)) }

  /**
    The product of two polynomials modulo X^4 + 1: coefficient r is the sum of the c[i] s[k] with i + k =
    r modulo 4.
   */
  function ColumnTimes(c: Four, s: Four): Four
    requires Small(s, 256)
  {
    Four(Sum(FieldTimes(c.a, s.a), FieldTimes(c.d, s.b), FieldTimes(c.c, s.c), FieldTimes(c.b, s.d)),
         Sum(FieldTimes(c.b, s.a), FieldTimes(c.a, s.b), FieldTimes(c.d, s.c), FieldTimes(c.c, s.d)),
         Sum(FieldTimes(c.c, s.a), FieldTimes(c.b, s.b), FieldTimes(c.a, s.c), FieldTimes(c.d, s.d)),
         Sum(FieldTimes(c.d, s.a), FieldTimes(c.c, s.b), FieldTimes(c.b, s.c), FieldTimes(c.a, s.d)))
  }

  lemma {:induction false} DotIs(m: Four, s: Four)
    requires Small(m, 16) && Small(s, 256)
    ensures Reduce(Dot(m, s)) == Sum(FieldTimes(m.a, s.a), FieldTimes(m.b, s.b), FieldTimes(m.c, s.c),
      FieldTimes(m.d, s.d))
  {
    assert Pow2(4) == 16;
    ReduceFour(Times(m.a, s.a), Times(m.b, s.b), Times(m.c, s.c), Times(m.d, s.d));
    SmallFactor(m.a, s.a, 3);
    SmallFactor(m.b, s.b, 3);
    SmallFactor(m.c, s.c, 3);
    SmallFactor(m.d, s.d, 3);
  }

  /** The factors of a row of sums, read backwards. */
  function Backwards(m: Four): Four { Four(m.a, m.d, m.c, m.b) }

  lemma {:induction false} SumTurned(a: nat, b: nat, c: nat, d: nat)
    ensures Sum(b, c, d, a) == Sum(a, b, c, d) && Sum(c, d, a, b) == Sum(a, b, c, d)
      && Sum(d, a, b, c) == Sum(a, b, c, d)
  {
    TurnedSum(a, b, c, d);
    TurnedSum(b, c, d, a);
    TurnedSum(c, d, a, b);
  }

  /** The rows of sums over the turned columns are a product: the factors m, read backwards, are the polynomial. */
  lemma {:induction false} RowsAreProduct(m: Four, s: Four, t: Four, u: Four, v: Four)
    requires Small(m, 16) && Small(s, 256) && t == Turned(s) && u == Turned(t) && v == Turned(u)
    ensures ColumnTimes(Backwards(m), s) == Four(Reduce(Dot(m, s)), Reduce(Dot(m, t)), Reduce(Dot(m, u)),
      Reduce(Dot(m, v)))
  {
    DotIs(m, s);
    DotIs(m, t);
    DotIs(m, u);
    DotIs(m, v);
    SumTurned(FieldTimes(m.d, s.a), FieldTimes(m.a, s.b), FieldTimes(m.b, s.c), FieldTimes(m.c, s.d));
    SumTurned(FieldTimes(m.c, s.a), FieldTimes(m.d, s.b), FieldTimes(m.a, s.c), FieldTimes(m.b, s.d));
    SumTurned(FieldTimes(m.b, s.a), FieldTimes(m.c, s.b), FieldTimes(m.d, s.c), FieldTimes(m.a, s.d));
  }

  lemma {:induction false} OnceIsEnough(m: Four, s: Four)
    requires Small(m, 4) && Small(s, 256)
    ensures MixRow(m, s) == InvMixRow(m, s)
  {
    var (t, u) := (Turned(s), Turned(Turned(s)));
    DotBelow(m, s);
    DotBelow(m, t);
    DotBelow(m, u);
    DotBelow(m, Turned(u));
    ReduceOnceIs(Dot(m, s));
    ReduceOnceIs(Dot(m, t));
    ReduceOnceIs(Dot(m, u));
    ReduceOnceIs(Dot(m, Turned(u)));
  }

  /** Mixing multiplies a column by 3 X^3 + X^2 + X + 2 modulo X^4 + 1. */
  lemma {:induction false} MixIsProduct(s: Four, c: Four)
    requires Small(s, 256) && c == Four(2, 1, 1, 3)
    ensures Mix(s) == ColumnTimes(c, s)
  {
    OnceIsEnough(Backwards(c), s);
    RowsAreProduct(Backwards(c), s, Turned(s), Turned(Turned(s)), Turned(Turned(Turned(s))));
  }

  /** Unmixing multiplies it by 11 X^3 + 13 X^2 + 9 X + 14. */
  lemma {:induction false} InvMixIsProduct(s: Four, c: Four)
    requires Small(s, 256) && c == Four(14, 9, 13, 11)
    ensures InvMix(s) == ColumnTimes(c, s)
  {
    RowsAreProduct(Backwards(c), s, Turned(s), Turned(Turned(s)), Turned(Turned(Turned(s))));
  }
}
