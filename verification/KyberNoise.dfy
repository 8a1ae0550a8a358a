/**
  The noise of Kyber as the source computes it: whole words are masked, shifted and added, so that every digit of the
  sum counts a few bits, and two digits make a coefficient.
 */
module KyberNoise {
  import opened ModArith
  import opened PolyRing
  import opened BitPacking
  import opened PolyPacking
  import opened KyberParams
  import opened KyberPke
  import BitXor
  import LimbBytes
  import UnrolledPacking

  // ----- shifts

  /** x << t and x >> t. */
  function Shifted(x: nat, t: nat): nat { BitXor.Shifted(x, t) }

  function Dropped(x: nat, t: nat): nat { UnrolledPacking.Dropped(x, t) }

  // ----- masks

  function And(a: nat, b: nat): nat
    decreases a + b
  {
    if a == 0 || b == 0 then 0 else (if a % 2 == 1 && b % 2 == 1 then 1 else 0) + 2 * And(a / 2, b / 2)
  }

  /** Bit by bit this is the conjunction. */
  lemma {:induction false} AndBit(a: nat, b: nat, i: nat)
    ensures Bit(And(a, b), i) == if Bit(a, i) == 1 && Bit(b, i) == 1 then 1 else 0
    decreases i
  {
    AndHalf(a, b);
    if i > 0 {
      AndBit(a / 2, b / 2, i - 1);
    }
  }

  lemma {:induction false} AndHalf(a: nat, b: nat)
    ensures And(a, b) / 2 == And(a / 2, b / 2) && And(a, b) % 2 == if a % 2 == 1 && b % 2 == 1 then 1 else 0
  {
    if a == 0 || b == 0 {
      assert And(a / 2, b / 2) == 0;
    }
  }

  /** n ones, each e bits from the next. */
  function Mask(e: nat, n: nat): nat {
    if n == 0 then 0 else 1 + Shifted(Mask(e, n - 1), e)
  }

  /** The bits of t that the mask lets through. */
  function Spread(e: nat, n: nat, t: nat): nat
    decreases n, t
  {
    if n == 0 then 0 else t % 2 + Shifted(Spread(e, n - 1, Dropped(t, e)), e)
  }

  lemma {:induction false} AndShifted(t: nat, j: nat, m: nat)
    ensures And(t, Shifted(m, j)) == Shifted(And(Dropped(t, j), m), j)
    decreases j
  {
    if j > 0 {
      AndHalf(t, Shifted(m, j));
      AndShifted(t / 2, j - 1, m);
    }
  }

  lemma {:induction false} AndMask(e: nat, n: nat, t: nat)
    requires e > 0
    ensures And(t, Mask(e, n)) == Spread(e, n, t)
    decreases n
  {
    if n > 0 {
      AndHalf(t, Mask(e, n));
      AndShifted(t / 2, e - 1, Mask(e, n - 1));
      AndMask(e, n - 1, Dropped(t, e));
    }
  }

  lemma {:induction false} ShiftedSum(a: nat, b: nat, e: nat)
    ensures Shifted(a, e) + Shifted(b, e) == Shifted(a + b, e)
    decreases e
  {
    if e > 0 {
      ShiftedSum(a, b, e - 1);
    }
  }

  lemma {:induction false} DroppedTwice(x: nat, a: nat, b: nat)
    ensures Dropped(Dropped(x, a), b) == Dropped(x, a + b)
    decreases a
  {
    if a > 0 {
      DroppedTwice(x / 2, a - 1, b);
    }
  }

  /** A digit and what is above it. */
  lemma {:induction false} DroppedJoin(l: nat, h: nat, e: nat)
    requires l < Pow2(e)
    ensures Dropped(l + Shifted(h, e), e) == h && (l + Shifted(h, e)) % Pow2(e) == l
    decreases e
  {
    if e > 0 {
      var x := l + Shifted(h, e);
      assert x / 2 == l / 2 + Shifted(h, e - 1) && x % 2 == l % 2;
      DroppedJoin(l / 2, h, e - 1);
      UnrolledPacking.HalfOfRemainder(x, Pow2(e - 1));
    }
  }

  // ----- counts as digits

  /** How many of the e lowest bits are set. */
  function OnesIn(e: nat, t: nat): (c: nat)
    ensures c <= e
  {
    if e == 0 then 0 else t % 2 + OnesIn(e - 1, t / 2)
  }

  /** The counts of n groups of e bits, as digits. */
  function Counts(e: nat, n: nat, t: nat): nat
    decreases n, t
  {
    if n == 0 then 0 else OnesIn(e, t) + Shifted(Counts(e, n - 1, Dropped(t, e)), e)
  }

  lemma {:induction false} FitsDigit(e: nat)
    ensures e < Pow2(e)
  {
    if e > 0 {
      FitsDigit(e - 1);
    }
  }

  lemma {:induction false} CountsDigit(e: nat, n: nat, t: nat, k: nat, p: nat)
    requires k < n && p == e * k
    ensures Dropped(Counts(e, n, t), p) % Pow2(e) == OnesIn(e, Dropped(t, p))
    decreases n
  {
    FitsDigit(e);
    DroppedJoin(OnesIn(e, t), Counts(e, n - 1, Dropped(t, e)), e);
    if k > 0 {
      assert p == e + e * (k - 1);
      CountsDigit(e, n - 1, Dropped(t, e), k - 1, p - e);
      DroppedTwice(Counts(e, n, t), e, p - e);
      DroppedTwice(t, e, p - e);
    }
  }

  lemma {:induction false} DropOne(t: nat, e: nat)
    requires e > 0
    ensures Dropped(t, e) == Dropped(t / 2, e - 1) && OnesIn(e, t) == t % 2 + OnesIn(e - 1, t / 2)
  {
  }

  lemma {:induction false} DropTwo(t: nat, e: nat)
    requires e == 2
    ensures Dropped(t, e) == t / 2 / 2 && OnesIn(e, t) == t % 2 + t / 2 % 2
  {
    DropOne(t, e);
    DropOne(t / 2, e - 1);
  }

  lemma {:induction false} DropThree(t: nat, u: nat, v: nat, w: nat, e: nat)
    requires e == 3 && u == t / 2 && v == u / 2 && w == v / 2
    ensures Dropped(t, e) == w && OnesIn(e, t) == t % 2 + u % 2 + v % 2
  {
    DropOne(t, e);
    DropTwo(u, e - 1);
  }

  lemma {:induction false} SpreadStep(e: nat, n: nat, t: nat, w: nat)
    requires n > 0 && w == Dropped(t, e)
    ensures Spread(e, n, t) == t % 2 + Shifted(Spread(e, n - 1, w), e)
    ensures Counts(e, n, t) == OnesIn(e, t) + Shifted(Counts(e, n - 1, w), e)
  {
  }

  /** Pairs of bits: a word and the word shifted by one. */
  lemma {:induction false} CountsOfTwo(n: nat, t: nat, e: nat)
    requires e == 2
    ensures Spread(e, n, t) + Spread(e, n, t / 2) == Counts(e, n, t)
    decreases n
  {
    if n > 0 {
      var u := t / 2 / 2;
      DropTwo(t, e);
      DropTwo(t / 2, e);
      CountsOfTwo(n - 1, u, e);
      ShiftedSum(Spread(e, n - 1, u), Spread(e, n - 1, u / 2), e);
    }
  }

  lemma {:induction false} ThreeShifted(a: nat, b: nat, c: nat, e: nat)
    ensures Shifted(a, e) + Shifted(b, e) + Shifted(c, e) == Shifted(a + b + c, e)
  {
    ShiftedSum(a, b, e);
    ShiftedSum(a + b, c, e);
  }

  /** Triples of bits: t and its shifts u and v. */
  lemma {:induction false} CountsOfThree(n: nat, t: nat, u: nat, v: nat, e: nat)
    requires e == 3 && u == t / 2 && v == u / 2
    ensures Spread(e, n, t) + Spread(e, n, u) + Spread(e, n, v) == Counts(e, n, t)
    decreases n
  {
    if n > 0 {
      var w := v / 2;
      var x := w / 2;
      var y := x / 2;
      DropThree(t, u, v, w, e);
      DropThree(u, v, w, x, e);
      DropThree(v, w, x, y, e);
      SpreadStep(e, n, t, w);
      SpreadStep(e, n, u, x);
      SpreadStep(e, n, v, y);
      CountsOfThree(n - 1, w, x, y, e);
      ThreeShifted(Spread(e, n - 1, w), Spread(e, n - 1, x), Spread(e, n - 1, y), e);
    }
  }

  // ----- counts of the bits of a buffer

  lemma {:induction false} CountIs(s: seq<int>, p: nat, e: nat)
    requires Below(s, 2) && p + e <= |s|
    ensures CountBits(s, p, e) == OnesIn(e, Dropped(FromBits(s), p))
    decreases e
  {
    if e > 0 {
      BitOfFromBits(s, p);
      UnrolledPacking.DroppedBit(FromBits(s), p, 0);
      DroppedTwice(FromBits(s), p, 1);
      DropOne(Dropped(FromBits(s), p), 1);
      CountIs(s, p + 1, e - 1);
    }
  }

  /** Where the bits t stand in the bits s. */
  predicate Inside(s: seq<int>, t: seq<int>, q: nat) {
    q + |t| <= |s| && forall l :: 0 <= l < |t| ==> s[q + l] == t[l]
  }

  lemma {:induction false} CountsInside(s: seq<int>, t: seq<int>, q: nat, p: nat, e: nat)
    requires Below(s, 2) && Below(t, 2) && Inside(s, t, q) && p + e <= |t|
    ensures CountBits(s, q + p, e) == CountBits(t, p, e)
    decreases e
  {
    if e > 0 {
      CountsInside(s, t, q, p + 1, e - 1);
      assert q + (p + 1) == q + p + 1;
    }
  }

  lemma {:induction false} MiddleInside(x: seq<int>, y: seq<int>, z: seq<int>)
    ensures Inside(x + (y + z), y, |x|)
  {
  }

  /** The bits of some bytes stand in the stream where the bytes stand. */
  lemma {:induction false} StreamInside(b: seq<int>, i: nat, w: seq<int>)
    requires Below(b, 256) && i + |w| <= |b| && w == b[i..i + |w|]
    ensures Inside(Stream(8, b), Stream(8, w), 8 * i)
  {
    var x, z := b[..i], b[i + |w|..];
    assert b == x + (w + z);
    UnrolledPacking.StreamJoin(8, x, w + z);
    UnrolledPacking.StreamJoin(8, w, z);
    MiddleInside(Stream(8, x), Stream(8, w), Stream(8, z));
  }

  lemma {:induction false} FromByte(x: nat, s: seq<int>)
    requires x < 256 && Below(s, 2)
    ensures FromBits(ToBits(x, 8) + s) == x + 256 * FromBits(s)
  {
    FromBitsJoin(ToBits(x, 8), s);
    assert Pow2(8) == 256;
    FromToBits(x, 8);
    ShiftedIs(FromBits(s), 8);
  }

  lemma {:induction false} FromBitsJoin(a: seq<int>, b: seq<int>)
    requires Below(a, 2) && Below(b, 2)
    ensures FromBits(a + b) == FromBits(a) + Shifted(FromBits(b), |a|)
    decreases |a|
  {
    if a == [] {
      assert a + b == b;
    } else {
      assert (a + b)[1..] == a[1..] + b;
      FromBitsJoin(a[1..], b);
    }
  }

  lemma {:induction false} WordBits(b: seq<int>, i: nat, w: seq<int>)
    requires Below(b, 256) && i + 4 <= |b| && w == b[i..i + 4]
    ensures FromBits(Stream(8, w)) == LimbBytes.Load4(b, i)
  {
    FromByte(w[0], Stream(8, w[1..]));
    FromByte(w[1], Stream(8, w[1..][1..]));
    FromByte(w[2], Stream(8, w[1..][1..][1..]));
    FromByte(w[3], []);
    assert w[1..][1..] == w[2..] && w[2..][1..] == w[3..] && w[3..][1..] == [];
    assert Stream(8, w[3..]) == ToBits(w[3], 8) + [];
  }

  lemma {:induction false} ThreeBytes(b: seq<int>, i: nat, w: seq<int>)
    requires Below(b, 256) && i + 3 <= |b| && w == b[i..i + 3]
    ensures FromBits(Stream(8, w)) == LimbBytes.Load3(b, i)
  {
    FromByte(w[0], Stream(8, w[1..]));
    FromByte(w[1], Stream(8, w[1..][1..]));
    FromByte(w[2], []);
    assert w[1..][1..] == w[2..] && w[2..][1..] == [];
    assert Stream(8, w[2..]) == ToBits(w[2], 8) + [];
  }

  /**
    A group of digits of a masked sum counts the bits of the buffer: with t the word at byte i and d the sum of its
    masked shifts, the digit k of d, in e bits, is the count of the e bits from bit 8 i + e k on.
   */
  lemma {:induction false} DigitCounts(b: seq<int>, i: nat, w: seq<int>, e: nat, m: nat, t: nat, d: nat, k: nat, p: nat)
    requires Below(b, 256) && i + |w| <= |b| && w == b[i..i + |w|] && k < m && p == e * k && p + e <= 8 * |w|
    requires t == FromBits(Stream(8, w)) && d == Counts(e, m, t)
    ensures 8 * i + p + e <= 8 * |b| && Dropped(d, p) % Pow2(e) == CountBits(Stream(8, b), 8 * i + p, e)
  {
    DigitOfBits(Stream(8, w), e, m, t, d, k, p);
    BitsOfPart(b, i, w, e, p);
  }

  lemma {:induction false} DigitOfBits(s: seq<int>, e: nat, m: nat, t: nat, d: nat, k: nat, p: nat)
    requires Below(s, 2) && k < m && p == e * k && p + e <= |s| && t == FromBits(s) && d == Counts(e, m, t)
    ensures Dropped(d, p) % Pow2(e) == CountBits(s, p, e)
  {
    CountsDigit(e, m, t, k, p);
    CountIs(s, p, e);
  }

  lemma {:induction false} BitsOfPart(b: seq<int>, i: nat, w: seq<int>, e: nat, p: nat)
    requires Below(b, 256) && i + |w| <= |b| && w == b[i..i + |w|] && p + e <= 8 * |w|
    ensures 8 * i + p + e <= 8 * |b|
    ensures CountBits(Stream(8, w), p, e) == CountBits(Stream(8, b), 8 * i + p, e)
  {
    StreamInside(b, i, w);
    CountsInside(Stream(8, b), Stream(8, w), 8 * i, p, e);
  }

  // ----- the loops of the source

  const PAIRS: nat := 0x55555555
  const TRIPLES: nat := 0x249249

  /** A mask is a geometric sum. */
  lemma {:induction false} MaskSum(e: nat, n: nat)
    ensures (Pow2(e) - 1) * Mask(e, n) + 1 == Pow2(e * n)
    decreases n
  {
    if n == 0 {
      assert e * n == 0;
    } else {
      MaskSum(e, n - 1);
      ShiftedIs(Mask(e, n - 1), e);
      PowAdd2(e, e * (n - 1));
      assert e + e * (n - 1) == e * n;
      Geometric(Pow2(e), Mask(e, n - 1));
    }
  }

  lemma {:induction false} Geometric(q: int, m: int)
    ensures (q - 1) * (1 + q * m) + 1 == q * ((q - 1) * m + 1)
  {
  }

  lemma {:induction false} ShiftedIs(x: nat, t: nat)
    ensures Shifted(x, t) == Pow2(t) * x
    decreases t
  {
    if t > 0 {
      ShiftedIs(x, t - 1);
    }
  }

  lemma {:induction false} MasksAre(e: nat, n: nat)
    ensures e == 2 && n == 16 ==> Mask(e, n) == PAIRS
    ensures e == 3 && n == 8 ==> Mask(e, n) == TRIPLES
  {
    assert Pow2(2) == 4 && Pow2(3) == 8 && Pow2(8) == 256;
    PowAdd2(8, 8);
    PowAdd2(16, 8);
    PowAdd2(16, 16);
    MaskSum(e, n);
    if e == 2 && n == 16 {
      assert e * n == 16 + 16;
    }
    if e == 3 && n == 8 {
      assert e * n == 16 + 8;
    }
  }

  /** Two sums of the mask 0101... */
  function PairSums(t: nat): nat { And(t, PAIRS) + And(Dropped(t, 1), PAIRS) }

  /** Three sums of the mask 001001... */
  function TripleSums(t: nat): nat { And(t, TRIPLES) + And(Dropped(t, 1), TRIPLES) + And(Dropped(t, 2), TRIPLES) }

  lemma {:induction false} PairSumsCount(t: nat, e: nat, m: nat)
    requires e == 2 && m == 16
    ensures PairSums(t) == Counts(e, m, t)
  {
    MasksAre(e, m);
    AndMask(e, m, t);
    AndMask(e, m, t / 2);
    DropOne(t, 1);
    CountsOfTwo(m, t, e);
  }

  lemma {:induction false} TripleSumsCount(t: nat, e: nat, m: nat)
    requires e == 3 && m == 8
    ensures TripleSums(t) == Counts(e, m, t)
  {
    MasksAre(e, m);
    AndMask(e, m, t);
    AndMask(e, m, t / 2);
    AndMask(e, m, t / 2 / 2);
    DropOne(t, 1);
    DropTwo(t, 2);
    CountsOfThree(m, t, t / 2, t / 2 / 2, e);
  }

  lemma {:induction false} BinomialAt(e: nat, buf: seq<int>, c: nat, p: nat)
    requires Bytes(buf, 64 * e) && c < N && p == 2 * e * c
    ensures p + 2 * e <= |Stream(8, buf)|
    ensures Binomial(e, buf)[c] == CountBits(Stream(8, buf), p, e) - CountBits(Stream(8, buf), p + e, e)
  {
    MulMono(c + 1, N, 2 * e);
  }

  lemma {:induction false} Sixteen() returns (m: nat)
    ensures m == 16
  {
    m := 16;
  }

  lemma {:induction false} Eight() returns (m: nat)
    ensures m == 8
  {
    m := 8;
  }

  /** With two bits: coefficient 8 i + j is the difference of two digits of the masked sums of word i. */
  lemma {:induction false} PairCoefficient(buf: seq<int>, i: nat, j: nat, e: nat, t: nat, d: nat, c: nat, q: nat)
    requires e == 2 && Bytes(buf, 64 * e) && i < 32 && j < 8 && c == 8 * i + j && q == 4 * j
    requires t == LimbBytes.Load4(buf, 4 * i) && d == PairSums(t)
    ensures Binomial(e, buf)[c] == Dropped(d, q) % 4 - Dropped(d, q + 2) % 4
  {
    var a, p := 4 * i, 32 * i + q;
    PairCounts(buf, a, j, e, t, d, buf[a..a + 4], q, p);
    PairDifference(buf, e, c, p, Dropped(d, q) % 4, Dropped(d, q + 2) % 4);
  }

  lemma {:induction false} PairDifference(buf: seq<int>, e: nat, c: nat, p: nat, x: int, y: int)
    requires e == 2 && Bytes(buf, 64 * e) && c < N && p == 4 * c && p + 4 <= 8 * |buf|
    requires x == CountBits(Stream(8, buf), p, e) && y == CountBits(Stream(8, buf), p + e, e)
    ensures Binomial(e, buf)[c] == x - y
  {
    BinomialAt(e, buf, c, p);
  }

  lemma {:induction false} PairCounts(buf: seq<int>, a: nat, j: nat, e: nat, t: nat, d: nat, w: seq<int>, q: nat,
      p: nat)
    requires e == 2 && Below(buf, 256) && a + 4 <= |buf| && j < 8 && q == 4 * j && p == 8 * a + q
    requires w == buf[a..a + 4] && t == LimbBytes.Load4(buf, a) && d == PairSums(t)
    ensures p + 4 <= 8 * |buf| && Dropped(d, q) % 4 == CountBits(Stream(8, buf), p, e)
    ensures Dropped(d, q + 2) % 4 == CountBits(Stream(8, buf), p + e, e)
  {
    var m := Sixteen();
    WordBits(buf, a, w);
    PairSumsCount(t, e, m);
    PairDigits(buf, a, j, e, m, t, d, w, q, p);
  }

  lemma {:induction false} PairDigits(buf: seq<int>, a: nat, j: nat, e: nat, m: nat, t: nat, d: nat, w: seq<int>,
      q: nat, p: nat)
    requires e == 2 && Below(buf, 256) && a + 4 <= |buf| && 2 * j + 1 < m == 16 && q == 4 * j && p == 8 * a + q
    requires w == buf[a..a + 4] && t == FromBits(Stream(8, w)) && d == Counts(e, m, t)
    ensures p + 4 <= 8 * |buf| && Dropped(d, q) % 4 == CountBits(Stream(8, buf), p, e)
    ensures Dropped(d, q + 2) % 4 == CountBits(Stream(8, buf), p + e, e)
  {
    PairDigit(buf, a, w, e, m, t, d, 2 * j, q, p);
    PairDigit(buf, a, w, e, m, t, d, 2 * j + 1, q + 2, p + e);
  }

  /** With three bits: coefficient 4 i + j, from three bytes. */
  lemma {:induction false} TripleCoefficient(buf: seq<int>, i: nat, j: nat, e: nat, t: nat, d: nat, c: nat, q: nat)
    requires e == 3 && Bytes(buf, 64 * e) && i < 64 && j < 4 && c == 4 * i + j && q == 6 * j
    requires t == LimbBytes.Load3(buf, 3 * i) && d == TripleSums(t)
    ensures Binomial(e, buf)[c] == Dropped(d, q) % 8 - Dropped(d, q + 3) % 8
  {
    var a, p := 3 * i, 24 * i + q;
    TripleCounts(buf, a, j, e, t, d, buf[a..a + 3], q, p);
    TripleDifference(buf, e, c, p, Dropped(d, q) % 8, Dropped(d, q + 3) % 8);
  }

  lemma {:induction false} TripleDifference(buf: seq<int>, e: nat, c: nat, p: nat, x: int, y: int)
    requires e == 3 && Bytes(buf, 64 * e) && c < N && p == 6 * c && p + 6 <= 8 * |buf|
    requires x == CountBits(Stream(8, buf), p, e) && y == CountBits(Stream(8, buf), p + e, e)
    ensures Binomial(e, buf)[c] == x - y
  {
    BinomialAt(e, buf, c, p);
  }

  lemma {:induction false} TripleCounts(buf: seq<int>, a: nat, j: nat, e: nat, t: nat, d: nat, w: seq<int>, q: nat,
      p: nat)
    requires e == 3 && Below(buf, 256) && a + 3 <= |buf| && j < 4 && q == 6 * j && p == 8 * a + q
    requires w == buf[a..a + 3] && t == LimbBytes.Load3(buf, a) && d == TripleSums(t)
    ensures p + 6 <= 8 * |buf| && Dropped(d, q) % 8 == CountBits(Stream(8, buf), p, e)
    ensures Dropped(d, q + 3) % 8 == CountBits(Stream(8, buf), p + e, e)
  {
    var m := Eight();
    ThreeBytes(buf, a, w);
    TripleSumsCount(t, e, m);
    TripleDigits(buf, a, j, e, m, t, d, w, q, p);
  }

  lemma {:induction false} TripleDigits(buf: seq<int>, a: nat, j: nat, e: nat, m: nat, t: nat, d: nat, w: seq<int>,
      q: nat, p: nat)
    requires e == 3 && Below(buf, 256) && a + 3 <= |buf| && 2 * j + 1 < m == 8 && q == 6 * j && p == 8 * a + q
    requires w == buf[a..a + 3] && t == FromBits(Stream(8, w)) && d == Counts(e, m, t)
    ensures p + 6 <= 8 * |buf| && Dropped(d, q) % 8 == CountBits(Stream(8, buf), p, e)
    ensures Dropped(d, q + 3) % 8 == CountBits(Stream(8, buf), p + e, e)
  {
    TripleDigit(buf, a, w, e, m, t, d, 2 * j, q, p);
    TripleDigit(buf, a, w, e, m, t, d, 2 * j + 1, q + 3, p + e);
  }

  lemma {:induction false} PairDigit(b: seq<int>, i: nat, w: seq<int>, e: nat, m: nat, t: nat, d: nat, k: nat, q: nat,
      p: nat)
    requires e == 2 && Below(b, 256) && |w| == 4 && i + 4 <= |b| && w == b[i..i + |w|] && k < m == 16
    requires t == FromBits(Stream(8, w)) && d == Counts(e, m, t) && q == 2 * k && p == 8 * i + q
    ensures p + 2 <= 8 * |b| && Dropped(d, q) % 4 == CountBits(Stream(8, b), p, e)
  {
    assert Pow2(2) == 4;
    DigitCounts(b, i, w, e, m, t, d, k, q);
  }

  lemma {:induction false} TripleDigit(b: seq<int>, i: nat, w: seq<int>, e: nat, m: nat, t: nat, d: nat, k: nat, q: nat,
      p: nat)
    requires e == 3 && Below(b, 256) && |w| == 3 && i + 3 <= |b| && w == b[i..i + |w|] && k < m == 8
    requires t == FromBits(Stream(8, w)) && d == Counts(e, m, t) && q == 3 * k && p == 8 * i + q
    ensures p + 3 <= 8 * |b| && Dropped(d, q) % 8 == CountBits(Stream(8, b), p, e)
  {
    assert Pow2(3) == 8;
    DigitCounts(b, i, w, e, m, t, d, k, q);
  }

  /** The loops for two bits. */
  method Cbd2(buf: seq<int>, e: nat) returns (r: array<int>)
    requires e == 2 && Bytes(buf, 64 * e)
    ensures fresh(r) && r[..] == Binomial(e, buf)
  {
    r := new int[N];
    ghost var all := Binomial(e, buf);
    for i := 0 to N / 8
      invariant forall k :: 0 <= k < 8 * i ==> r[k] == all[k]
    {
      var t := LimbBytes.Load4(buf, 4 * i);
      var d := PairSums(t);
      for j := 0 to 8
        invariant forall k :: 0 <= k < 8 * i + j ==> r[k] == all[k]
      {
        PairCoefficient(buf, i, j, e, t, d, 8 * i + j, 4 * j);
        r[8 * i + j] := Dropped(d, 4 * j) % 4 - Dropped(d, 4 * j + 2) % 4;
      }
    }
    assert r[..] == all;
  }

  /** The loops for three bits. */
  method Cbd3(buf: seq<int>, e: nat) returns (r: array<int>)
    requires e == 3 && Bytes(buf, 64 * e)
    ensures fresh(r) && r[..] == Binomial(e, buf)
  {
    r := new int[N];
    ghost var all := Binomial(e, buf);
    for i := 0 to N / 4
      invariant forall k :: 0 <= k < 4 * i ==> r[k] == all[k]
    {
      var t := LimbBytes.Load3(buf, 3 * i);
      var d := TripleSums(t);
      for j := 0 to 4
        invariant forall k :: 0 <= k < 4 * i + j ==> r[k] == all[k]
      {
        TripleCoefficient(buf, i, j, e, t, d, 4 * i + j, 6 * j);
        r[4 * i + j] := Dropped(d, 6 * j) % 8 - Dropped(d, 6 * j + 3) % 8;
      }
    }
    assert r[..] == all;
  }

  // ----- the inputs of the noise

  /** The polynomials drawn with the numbers from 0 on, n of them. */
  function Drawn(o: Oracles, eta: nat, seed: seq<int>, n: nat): (v: seq<Poly>) {
    seq(n, i => Binomial(eta, Hash(o.shake256, seed + [i], 64 * eta)))
  }

  /** Secret and error of a key are one run of draws: no number is used twice. */
  lemma {:induction false} KeyDraws(level: Level, o: Oracles, d: seq<int>)
    ensures Secret(level, o, d) + KeyError(level, o, d)
      == Drawn(o, level.Eta1(), Hash(o.sha3_512, d, 64)[32..], 2 * level.K())
  {
  }

  /** So are the three parts of an encryption, the last two with two bits. */
  lemma {:induction false} CipherDraws(level: Level, o: Oracles, coins: seq<int>)
    ensures Ephemeral(level, o, coins) == Drawn(o, level.Eta1(), coins, level.K())
    ensures Error1(level, o, coins) == Drawn(o, 2, coins, 2 * level.K())[level.K()..]
    ensures Error2(level, o, coins) == Drawn(o, 2, coins, 2 * level.K() + 1)[2 * level.K()]
  {
    ErrorDraws(level, o, coins, level.K());
  }

  lemma {:induction false} ErrorDraws(level: Level, o: Oracles, coins: seq<int>, k: nat)
    requires k == level.K()
    ensures NoiseVec(level, o, 2, coins, k) == Drawn(o, 2, coins, 2 * k)[k..]
  {
    var v, w := NoiseVec(level, o, 2, coins, k), Drawn(o, 2, coins, 2 * k);
    forall i | 0 <= i < k ensures v[i] == w[k..][i] {
      assert v[i] == NoisePoly(o, 2, coins, k + i);
      assert w[k + i] == Binomial(2, Hash(o.shake256, coins + [k + i], 128));
    }
  }
}
