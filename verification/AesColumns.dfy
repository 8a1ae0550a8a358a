/**
  The column mixing of AES as the portable code computes it: the bytes of a column are multiplied by
  small constants without carries, added, and only the sum is brought back to eight bits.
 */
module AesColumns {
  import opened ModArith
  import opened BitXor

  datatype Four = Four(a: nat, b: nat, c: nat, d: nat)

  /** Multiplication without carries: s shifted by every bit of c, added up. */
  function Times(c: nat, s: nat): (p: nat)
    decreases c, s
  {
    if c == 0 then 0 else Xor(if c % 2 == 1 then s else 0, 2 * Times(c / 2, s))
  }

  function Dot(c: Four, s: Four): (p: nat) {
    Xor(Xor(Times(c.a, s.a), Times(c.b, s.b)), Xor(Times(c.c, s.c), Times(c.d, s.d)))
  }

  /** Back to eight bits, for sums of up to twelve: the bits above the eighth come back shifted by 0, 1, 3 and 4. */
  function Reduce(x: nat): (r: nat)
    ensures r < 256
  {
    Xor(x, Times(0x1B, x / 256)) % 256
  }

  /** The other reduction in the code, for sums of nine bits. */
  function ReduceOnce(x: nat): (r: nat)
    ensures r < 256
  {
    (if x / 256 == 1 then Xor(x, 0x11B) else x) % 256
  }

  /** The column turned by one place. */
  function Turned(s: Four): Four {
    Four(s.b, s.c, s.d, s.a)
  }

  /** The four sums of a column take the same factors to the column turned 0, 1, 2 and 3 times. */
  function Mix(s: Four): (t: Four) {
    MixRow(Four(2, 3, 1, 1), s)
  }

  function MixRow(m: Four, s: Four): (t: Four) {
    var (t, u) := (Turned(s), Turned(Turned(s)));
    Four(ReduceOnce(Dot(m, s)), ReduceOnce(Dot(m, t)), ReduceOnce(Dot(m, u)), ReduceOnce(Dot(m, Turned(u))))
  }

  function InvMix(s: Four): (t: Four) {
    InvMixRow(Four(14, 11, 13, 9), s)
  }

  function InvMixRow(m: Four, s: Four): (t: Four) {
    var (t, u) := (Turned(s), Turned(Turned(s)));
    Four(Reduce(Dot(m, s)), Reduce(Dot(m, t)), Reduce(Dot(m, u)), Reduce(Dot(m, Turned(u))))
  }

  predicate Small(s: Four, b: nat) {
    s.a < b && s.b < b && s.c < b && s.d < b
  }

  // ----- the algebra of carryless multiplication

  lemma {:induction false} Interchange(a: nat, b: nat, c: nat, d: nat)
    ensures Xor(Xor(a, b), Xor(c, d)) == Xor(Xor(a, c), Xor(b, d))
  {
    XorAssoc(a, b, Xor(c, d));
    XorAssoc(b, c, d);
    XorSwap(b, c);
    XorAssoc(c, b, d);
    XorAssoc(a, c, Xor(b, d));
  }

  lemma {:induction false} TimesXor(c: nat, a: nat, b: nat)
    ensures Times(c, Xor(a, b)) == Xor(Times(c, a), Times(c, b))
    decreases c
  {
    if c == 0 {
      XorZero(0);
    } else {
      TimesXor(c / 2, a, b);
      XorDouble(Times(c / 2, a), Times(c / 2, b));
      XorZero(0);
      Interchange(if c % 2 == 1 then a else 0, 2 * Times(c / 2, a), if c % 2 == 1 then b else 0, 2 * Times(c / 2, b));
    }
  }

  /** The recursion also holds at zero. */
  lemma {:induction false} TimesStep(h: nat, p: nat, s: nat)
    requires p < 2
    ensures Times(2 * h + p, s) == Xor(if p == 1 then s else 0, 2 * Times(h, s))
  {
    if h == 0 && p == 0 {
      XorZero(0);
    } else {
      assert (2 * h + p) / 2 == h && (2 * h + p) % 2 == p;
    }
  }

  lemma {:induction false} XorTimes(c: nat, d: nat, s: nat)
    ensures Times(Xor(c, d), s) == Xor(Times(c, s), Times(d, s))
    decreases c + d
  {
    if c == 0 && d == 0 {
      XorZero(0);
    } else {
      XorTimesStep(c / 2, c % 2, d / 2, d % 2, s);
    }
  }

  lemma {:induction false} XorTimesStep(h: nat, p: nat, k: nat, q: nat, s: nat)
    requires p < 2 && q < 2 && 2 * h + p + 2 * k + q > 0
    ensures Times(Xor(2 * h + p, 2 * k + q), s) == Xor(Times(2 * h + p, s), Times(2 * k + q, s))
    decreases 2 * h + p + 2 * k + q, 0
  {
    XorTimes(h, k, s);
    XorPair(h, p, k, q);
    TimesStep(h, p, s);
    TimesStep(k, q, s);
    TimesStep(Xor(h, k), Differ(p, q), s);
    XorDouble(Times(h, s), Times(k, s));
    var u, v := if p == 1 then s else 0, if q == 1 then s else 0;
    Interchange(u, 2 * Times(h, s), v, 2 * Times(k, s));
    XorSelf(s);
    XorZero(s);
    XorZero(0);
  }

  lemma {:induction false} TimesTimes(d: nat, c: nat, s: nat)
    ensures Times(d, Times(c, s)) == Times(Times(d, c), s)
    decreases d
  {
    if d != 0 {
      var e := Times(d / 2, c);
      TimesTimes(d / 2, c, s);
      TimesStep(e, 0, s);
      XorZero(2 * Times(e, s));
      XorTimes(if d % 2 == 1 then c else 0, 2 * e, s);
    }
  }

  lemma {:induction false} TimesOne(s: nat)
    ensures Times(1, s) == s && Times(0, s) == 0
  {
    TimesStep(0, 1, s);
    XorZero(s);
  }

  // ----- matrices

  function Scaled(d: nat, c: Four): Four {
    Four(Times(d, c.a), Times(d, c.b), Times(d, c.c), Times(d, c.d))
  }

  function Added(c: Four, d: Four): Four {
    Four(Xor(c.a, d.a), Xor(c.b, d.b), Xor(c.c, d.c), Xor(c.d, d.d))
  }

  lemma {:induction false} DotScaled(d: nat, c: Four, s: Four)
    ensures Times(d, Dot(c, s)) == Dot(Scaled(d, c), s)
  {
    TimesXor(d, Xor(Times(c.a, s.a), Times(c.b, s.b)), Xor(Times(c.c, s.c), Times(c.d, s.d)));
    TimesXor(d, Times(c.a, s.a), Times(c.b, s.b));
    TimesXor(d, Times(c.c, s.c), Times(c.d, s.d));
    TimesTimes(d, c.a, s.a);
    TimesTimes(d, c.b, s.b);
    TimesTimes(d, c.c, s.c);
    TimesTimes(d, c.d, s.d);
  }

  lemma {:induction false} DotAdded(c: Four, d: Four, s: Four)
    ensures Xor(Dot(c, s), Dot(d, s)) == Dot(Added(c, d), s)
  {
    XorTimes(c.a, d.a, s.a);
    XorTimes(c.b, d.b, s.b);
    XorTimes(c.c, d.c, s.c);
    XorTimes(c.d, d.d, s.d);
    Interchange(Xor(Times(c.a, s.a), Times(c.b, s.b)), Xor(Times(c.c, s.c), Times(c.d, s.d)),
      Xor(Times(d.a, s.a), Times(d.b, s.b)), Xor(Times(d.c, s.c), Times(d.d, s.d)));
    Interchange(Times(c.a, s.a), Times(c.b, s.b), Times(d.a, s.a), Times(d.b, s.b));
    Interchange(Times(c.c, s.c), Times(c.d, s.d), Times(d.c, s.c), Times(d.d, s.d));
  }

  /** A row over four rows of a matrix. */
  function Row(d: Four, m: Four, n: Four, o: Four, p: Four): Four {
    Added(Added(Scaled(d.a, m), Scaled(d.b, n)), Added(Scaled(d.c, o), Scaled(d.d, p)))
  }

  lemma {:induction false} DotDot(d: Four, m: Four, n: Four, o: Four, p: Four, s: Four)
    ensures Dot(d, Four(Dot(m, s), Dot(n, s), Dot(o, s), Dot(p, s))) == Dot(Row(d, m, n, o, p), s)
  {
    DotScaled(d.a, m, s);
    DotScaled(d.b, n, s);
    DotScaled(d.c, o, s);
    DotScaled(d.d, p, s);
    DotAdded(Scaled(d.a, m), Scaled(d.b, n), s);
    DotAdded(Scaled(d.c, o), Scaled(d.d, p), s);
    DotAdded(Added(Scaled(d.a, m), Scaled(d.b, n)), Added(Scaled(d.c, o), Scaled(d.d, p)), s);
  }

  // ----- reduction

  lemma {:induction false} ByteJoin(h: nat, l: nat, k: nat, m: nat)
    requires l < 256 && m < 256
    ensures Xor(256 * h + l, 256 * k + m) == 256 * Xor(h, k) + Xor(l, m) && Xor(l, m) < 256
  {
    assert Pow2(8) == 256;
    ByteShift(h);
    ByteShift(k);
    ByteShift(Xor(h, k));
    XorJoin(h, l, k, m, 8);
    XorByte(l, m);
  }

  lemma {:induction false} ByteShift(h: nat)
    ensures Shifted(h, 8) == 256 * h
  {
    assert Shifted(h, 0) == h && Shifted(h, 1) == 2 * h && Shifted(h, 2) == 4 * h && Shifted(h, 3) == 8 * h;
    assert Shifted(h, 4) == 16 * h && Shifted(h, 5) == 32 * h && Shifted(h, 6) == 64 * h && Shifted(h, 7) == 128 * h;
  }

  lemma {:induction false} XorSplit(a: nat, b: nat)
    ensures Xor(a, b) / 256 == Xor(a / 256, b / 256) && Xor(a, b) % 256 == Xor(a % 256, b % 256)
  {
    ByteJoin(a / 256, a % 256, b / 256, b % 256);
    SplitAt(a, b, Xor(a, b), Xor(a / 256, b / 256), Xor(a % 256, b % 256));
  }

  lemma {:induction false} SplitAt(a: nat, b: nat, x: nat, h: nat, l: nat)
    requires x == 256 * h + l && l < 256
    ensures x / 256 == h && x % 256 == l
  {
  }

  lemma {:induction false} ReduceIs(x: nat, y: nat, l: nat)
    requires x == 256 * y + l && l < 256
    ensures Reduce(x) == Xor(l, Times(0x1B, y) % 256)
    ensures Times(0x1B, y) < 256 ==> Reduce(x) == Xor(l, Times(0x1B, y))
  {
    assert x / 256 == y && x % 256 == l;
    XorSplit(x, Times(0x1B, y));
  }

  lemma {:induction false} ReduceXor(a: nat, b: nat)
    ensures Reduce(Xor(a, b)) == Xor(Reduce(a), Reduce(b))
  {
    XorSplit(a, b);
    TimesXor(0x1B, a / 256, b / 256);
    Interchange(a, b, Times(0x1B, a / 256), Times(0x1B, b / 256));
    XorSplit(Xor(a, Times(0x1B, a / 256)), Xor(b, Times(0x1B, b / 256)));
  }

  lemma {:induction false} ReduceByte(s: nat)
    requires s < 256
    ensures Reduce(s) == s
  {
    ReduceIs(s, 0, s);
    TimesNothing(0x1B);
    XorZero(s);
  }

  lemma {:induction false} TimesNothing(c: nat)
    ensures Times(c, 0) == 0
    decreases c
  {
    if c > 0 {
      TimesNothing(c / 2);
      XorZero(0);
    }
  }

  lemma {:induction false} TimesBelow(c: nat, s: nat, k: nat, m: nat)
    requires c < Pow2(k + 1) && s < Pow2(m)
    ensures Times(c, s) < Pow2(k + m)
    decreases k
  {
    if k == 0 {
      TimesOne(s);
    } else {
      TimesBelow(c / 2, s, k - 1, m);
      TimesStep(c / 2, c % 2, s);
      PowMono(m, k + m);
      XorBelow(if c % 2 == 1 then s else 0, 2 * Times(c / 2, s), k + m);
    }
  }

  lemma {:induction false} TimesDouble(c: nat, s: nat)
    ensures Times(c, 2 * s) == 2 * Times(c, s)
    decreases c
  {
    if c > 0 {
      TimesDouble(c / 2, s);
      XorDouble(if c % 2 == 1 then s else 0, 2 * Times(c / 2, s));
    }
  }

  /** Shifting before or after a reduction makes no difference. */
  lemma {:induction false} ReduceShift(x: nat)
    requires x < 2048
    ensures Reduce(2 * x) == Reduce(2 * Reduce(x))
  {
    ReduceShiftAt(x, x - x % 256, x / 256, x % 256);
  }

  lemma {:induction false} ReduceShiftAt(x: nat, h: nat, y: nat, l: nat)
    requires x == h + l && h == 256 * y && y < 8 && l < 256
    ensures Reduce(2 * x) == Reduce(2 * Reduce(x))
  {
    Apart(h, y, l);
    HighShift(h, y);
    ReduceShiftParts(x, h, l, Reduce(h));
  }

  lemma {:induction false} Apart(h: nat, y: nat, l: nat)
    requires h == 256 * y && l < 256
    ensures Xor(h, l) == h + l
  {
    ByteJoinAt(h, y, 0, l, 0, l);
    ZeroRight(y);
    ZeroLeft(l);
  }

  lemma {:induction false} ByteJoinAt(a: nat, h: nat, l: nat, b: nat, k: nat, m: nat)
    requires a == 256 * h + l && b == 256 * k + m && l < 256 && m < 256
    ensures Xor(a, b) == 256 * Xor(h, k) + Xor(l, m)
  {
    ByteJoin(h, l, k, m);
  }

  lemma {:induction false} ZeroRight(a: nat)
    ensures Xor(a, 0) == a
  {
    XorZero(a);
  }

  lemma {:induction false} ZeroLeft(a: nat)
    ensures Xor(0, a) == a
  {
    XorZero(a);
  }

  lemma {:induction false} ReduceShiftParts(x: nat, h: nat, l: nat, r: nat)
    requires x == Xor(h, l) && r == Reduce(h) && Reduce(2 * h) == Reduce(2 * r) && l < 256
    ensures Reduce(2 * x) == Reduce(2 * Reduce(x))
  {
    ReduceXor(h, l);
    ReduceByte(l);
    XorDouble(h, l);
    XorDouble(r, l);
    ReduceXor(2 * h, 2 * l);
    ReduceXor(2 * r, 2 * l);
  }

  lemma {:induction false} HighShift(x: nat, y: nat)
    requires x == 256 * y && y < 8
    ensures Reduce(2 * x) == Reduce(2 * Reduce(x))
  {
    FoldBelow(y);
    TimesDouble(0x1B, y);
    HighReduced(x, y);
    HighReduced(2 * x, 2 * y);
    ReduceByte(2 * Times(0x1B, y));
  }

  lemma {:induction false} FoldBelow(y: nat)
    requires y < 8
    ensures Times(0x1B, y) < 128
  {
    assert Pow2(5) == 32 && Pow2(3) == 8 && Pow2(7) == 128;
    TimesBelow(0x1B, y, 4, 3);
  }

  lemma {:induction false} HighReduced(x: nat, y: nat)
    requires x == 256 * y && Times(0x1B, y) < 256
    ensures Reduce(x) == Times(0x1B, y)
  {
    ReduceIs(x, y, 0);
    ZeroLeft(Times(0x1B, y));
  }

  // ----- the inverse

  /** Reducing an argument first does not change a reduced product. */
  lemma {:induction false} ReduceTimes(c: nat, x: nat, k: nat)
    requires c < Pow2(k + 1) && k <= 3 && x < 512
    ensures Reduce(Times(c, x)) == Reduce(Times(c, Reduce(x)))
    decreases k
  {
    ReduceByte(Reduce(x));
    if k == 0 {
      TimesOne(x);
      TimesOne(Reduce(x));
    } else {
      var h, p := c / 2, c % 2;
      ReduceTimes(h, x, k - 1);
      assert Pow2(9) == 512 && Pow2(11) == 2048;
      PowMono(k - 1 + 9, 11);
      TimesBelow(h, x, k - 1, 9);
      TimesBelow(h, Reduce(x), k - 1, 9);
      ReduceTimesStep(c, h, p, x, Reduce(x));
    }
  }

  lemma {:induction false} ReduceTimesStep(c: nat, h: nat, p: nat, x: nat, y: nat)
    requires c == 2 * h + p && p < 2 && Reduce(x) == Reduce(y)
    requires Times(h, x) < 2048 && Times(h, y) < 2048 && Reduce(Times(h, x)) == Reduce(Times(h, y))
    ensures Reduce(Times(c, x)) == Reduce(Times(c, y))
  {
    TimesReduced(c, h, p, x);
    TimesReduced(c, h, p, y);
    ReduceByte(0);
  }

  lemma {:induction false} TimesReduced(c: nat, h: nat, p: nat, x: nat)
    requires c == 2 * h + p && p < 2 && Times(h, x) < 2048
    ensures Reduce(Times(c, x)) == Xor(Reduce(if p == 1 then x else 0), Reduce(2 * Reduce(Times(h, x))))
  {
    TimesStep(h, p, x);
    ReduceShift(Times(h, x));
    ReduceXor(if p == 1 then x else 0, 2 * Times(h, x));
  }

  function Reduced(t: Four): Four {
    Four(Reduce(t.a), Reduce(t.b), Reduce(t.c), Reduce(t.d))
  }

  lemma {:induction false} ReduceDot(d: Four, t: Four)
    requires Small(d, 16) && Small(t, 512)
    ensures Reduce(Dot(d, t)) == Reduce(Dot(d, Reduced(t)))
  {
    assert Pow2(4) == 16;
    ReduceTimes(d.a, t.a, 3);
    ReduceTimes(d.b, t.b, 3);
    ReduceTimes(d.c, t.c, 3);
    ReduceTimes(d.d, t.d, 3);
    ReduceFour(Times(d.a, t.a), Times(d.b, t.b), Times(d.c, t.c), Times(d.d, t.d));
    ReduceFour(Times(d.a, Reduce(t.a)), Times(d.b, Reduce(t.b)), Times(d.c, Reduce(t.c)), Times(d.d, Reduce(t.d)));
  }

  lemma {:induction false} ReduceFour(a: nat, b: nat, c: nat, d: nat)
    ensures Reduce(Xor(Xor(a, b), Xor(c, d))) == Xor(Xor(Reduce(a), Reduce(b)), Xor(Reduce(c), Reduce(d)))
  {
    ReduceXor(Xor(a, b), Xor(c, d));
    ReduceXor(a, b);
    ReduceXor(c, d);
  }

  lemma {:induction false} ReduceOnceIs(x: nat)
    requires x < 512
    ensures ReduceOnce(x) == Reduce(x)
  {
    if x / 256 == 1 {
      OverflowIs(x, x - 256, 0x11B, 0x1B, 1);
    } else {
      ReduceByte(x);
    }
  }

  lemma {:induction false} OverflowIs(x: nat, l: nat, e: nat, c: nat, one: nat)
    requires x == 256 * one + l && l < 256 && e == 256 * one + c && c == 0x1B && one == 1
    ensures Xor(x, e) % 256 == Xor(l, c) && Reduce(x) == Xor(l, c)
  {
    ByteJoin(one, l, one, c);
    SplitAt(x, e, Xor(x, e), Xor(one, one), Xor(l, c));
    OverflowReduced(x, l, c, one);
  }

  lemma {:induction false} OverflowReduced(x: nat, l: nat, c: nat, one: nat)
    requires x == 256 * one + l && l < 256 && c == 0x1B && one == 1
    ensures Reduce(x) == Xor(l, c)
  {
    UnitFold(one);
    ReduceParts(x, one, l, c);
  }

  lemma {:induction false} UnitFold(one: nat)
    requires one == 1
    ensures Times(0x1B, one) == 0x1B
  {
    TimesUnit(0x1B, one);
  }

  lemma {:induction false} ReduceParts(x: nat, y: nat, l: nat, f: nat)
    requires x == 256 * y + l && l < 256 && f == Times(0x1B, y) && f < 256
    ensures Reduce(x) == Xor(l, f)
  {
    ReduceIs(x, y, l);
  }

  lemma {:induction false} DotBelow(c: Four, s: Four)
    requires Small(c, 4) && Small(s, 256)
    ensures Dot(c, s) < 512
  {
    assert Pow2(2) == 4 && Pow2(8) == 256 && Pow2(9) == 512;
    TimesBelow(c.a, s.a, 1, 8);
    TimesBelow(c.b, s.b, 1, 8);
    TimesBelow(c.c, s.c, 1, 8);
    TimesBelow(c.d, s.d, 1, 8);
    XorBelow(Times(c.a, s.a), Times(c.b, s.b), 9);
    XorBelow(Times(c.c, s.c), Times(c.d, s.d), 9);
    XorBelow(Xor(Times(c.a, s.a), Times(c.b, s.b)), Xor(Times(c.c, s.c), Times(c.d, s.d)), 9);
  }

  // The product of the first inverse row with the mixing matrix.

  lemma {:induction false} ProductA(a: nat, b: nat, c: nat, d: nat)
    requires a == 14 && b == 11 && c == 13 && d == 9
    ensures Xor(Xor(2 * a, b), Xor(c, Xor(d, 2 * d))) == 1
  {
    XorBits5(1, 0, 0, 1, 0, 0, 1, 0, 0, 1);
    XorBits5(0, 0, 1, 1, 1, 1, 1, 0, 1, 0);
    XorBits5(1, 0, 1, 1, 0, 1, 1, 0, 1, 1);
    XorBits5(1, 1, 1, 0, 1, 0, 1, 1, 0, 1);
  }

  lemma {:induction false} ProductB(a: nat, b: nat, c: nat, d: nat)
    requires a == 14 && b == 11 && c == 13 && d == 9
    ensures Xor(Xor(Xor(a, 2 * a), 2 * b), Xor(c, d)) == 0
  {
    XorBits5(0, 1, 1, 1, 0, 0, 0, 1, 1, 1);
    XorBits5(0, 1, 0, 0, 1, 0, 1, 1, 0, 1);
    XorBits5(1, 0, 1, 1, 0, 1, 0, 0, 1, 0);
    XorSelf(Xor(c, d));
  }

  lemma {:induction false} ProductC(a: nat, b: nat, c: nat, d: nat)
    requires a == 14 && b == 11 && c == 13 && d == 9
    ensures Xor(Xor(a, Xor(b, 2 * b)), Xor(2 * c, d)) == 0
  {
    XorBits5(1, 1, 0, 1, 0, 0, 1, 1, 0, 1);
    XorBits5(0, 1, 1, 1, 0, 1, 0, 1, 1, 1);
    XorBits5(0, 1, 0, 1, 1, 1, 0, 0, 1, 0);
    XorSelf(Xor(2 * c, d));
  }

  lemma {:induction false} ProductD(a: nat, b: nat, c: nat, d: nat)
    requires a == 14 && b == 11 && c == 13 && d == 9
    ensures Xor(Xor(a, b), Xor(Xor(c, 2 * c), 2 * d)) == 0
  {
    XorBits5(1, 0, 1, 1, 0, 0, 1, 0, 1, 1);
    XorBits5(0, 1, 1, 1, 0, 1, 1, 0, 1, 0);
    XorBits5(1, 1, 1, 0, 1, 0, 1, 0, 0, 1);
    XorSelf(Xor(a, b));
  }

  lemma {:induction false} TimesSmall(d: nat, one: nat, two: nat, three: nat)
    requires one == 1 && two == 2 && three == 3
    ensures Times(d, one) == d && Times(d, two) == 2 * d && Times(d, three) == Xor(d, 2 * d)
  {
    TimesUnit(d, one);
    TimesDouble(d, one);
    XorBits2(1, 0, 0, 1);
    TimesXor(d, one, two);
  }

  lemma {:induction false} TimesUnit(d: nat, one: nat)
    requires one == 1
    ensures Times(d, one) == d
    decreases d
  {
    if d > 0 {
      TimesUnit(d / 2, one);
      XorPair(0, d % 2, d / 2, 0);
      XorZero(d / 2);
    }
  }

  lemma {:induction false} FirstRow(d: Four, m: Four, n: Four, o: Four, p: Four)
    requires d == Four(14, 11, 13, 9)
    requires m == Four(2, 3, 1, 1) && n == Four(1, 2, 3, 1) && o == Four(1, 1, 2, 3) && p == Four(3, 1, 1, 2)
    ensures Row(d, m, n, o, p) == Four(1, 0, 0, 0)
  {
    TimesSmall(d.a, n.a, m.a, p.a);
    TimesSmall(d.b, n.a, m.a, p.a);
    TimesSmall(d.c, n.a, m.a, p.a);
    TimesSmall(d.d, n.a, m.a, p.a);
    ProductA(d.a, d.b, d.c, d.d);
    ProductB(d.a, d.b, d.c, d.d);
    ProductC(d.a, d.b, d.c, d.d);
    ProductD(d.a, d.b, d.c, d.d);
  }

  lemma {:induction false} DotTurned(c: Four, s: Four)
    ensures Dot(Turned(c), Turned(s)) == Dot(c, s)
  {
    TurnedSum(Times(c.a, s.a), Times(c.b, s.b), Times(c.c, s.c), Times(c.d, s.d));
  }

  lemma {:induction false} TurnedSum(a: nat, b: nat, c: nat, d: nat)
    ensures Xor(Xor(b, c), Xor(d, a)) == Xor(Xor(a, b), Xor(c, d))
  {
    XorSwap(Xor(b, c), Xor(d, a));
    XorSwap(d, a);
    Interchange(a, d, b, c);
    XorSwap(d, c);
  }

  lemma {:induction false} DotUnit(s: Four, e: Four)
    requires e == Four(1, 0, 0, 0)
    ensures Dot(e, s) == s.a
  {
    TimesStep(0, 1, s.a);
    XorZero(s.a);
    XorZero(0);
  }

  /** The sums of a column before reduction. */
  function Sums(m: Four, s: Four): Four {
    var (t, u) := (Turned(s), Turned(Turned(s)));
    Four(Dot(m, s), Dot(m, t), Dot(m, u), Dot(m, Turned(u)))
  }

  lemma {:induction false} SumsReduced(m: Four, s: Four)
    requires Small(m, 4) && Small(s, 256)
    ensures Small(Sums(m, s), 512) && MixRow(m, s) == Reduced(Sums(m, s))
  {
    DotBelow(m, s);
    DotBelow(m, Turned(s));
    DotBelow(m, Turned(Turned(s)));
    DotBelow(m, Turned(Turned(Turned(s))));
    ReduceOnceIs(Dot(m, s));
    ReduceOnceIs(Dot(m, Turned(s)));
    ReduceOnceIs(Dot(m, Turned(Turned(s))));
    ReduceOnceIs(Dot(m, Turned(Turned(Turned(s)))));
  }

  /** The first byte comes back. */
  lemma {:induction false} FirstByte(s: Four, d: Four, m: Four, n: Four, o: Four, p: Four)
    requires Small(s, 256) && d == Four(14, 11, 13, 9)
    requires m == Four(2, 3, 1, 1) && n == Four(1, 2, 3, 1) && o == Four(1, 1, 2, 3) && p == Four(3, 1, 1, 2)
    ensures Reduce(Dot(d, MixRow(m, s))) == s.a
  {
    var t := Sums(m, s);
    SumsReduced(m, s);
    ReduceDot(d, t);
    DotTurned(n, s);
    DotTurned(o, s);
    DotTurned(n, Turned(s));
    DotTurned(p, s);
    DotTurned(o, Turned(s));
    DotTurned(n, Turned(Turned(s)));
    DotDot(d, m, n, o, p, s);
    FirstRow(d, m, n, o, p);
    DotUnit(s, Four(1, 0, 0, 0));
    ReduceByte(s.a);
  }

  lemma {:induction false} MixTurned(m: Four, s: Four)
    ensures MixRow(m, Turned(s)) == Turned(MixRow(m, s))
  {
  }

  /** Unmixing undoes mixing, for all 2^32 columns. */
  lemma {:induction false} UnmixMix(s: Four)
    requires Small(s, 256)
    ensures InvMix(Mix(s)) == s
  {
    UnmixMixRow(s, Four(14, 11, 13, 9), Four(2, 3, 1, 1), Four(1, 2, 3, 1), Four(1, 1, 2, 3), Four(3, 1, 1, 2));
  }

  lemma {:induction false} UnmixMixRow(s: Four, d: Four, m: Four, n: Four, o: Four, p: Four)
    requires Small(s, 256) && d == Four(14, 11, 13, 9)
    requires m == Four(2, 3, 1, 1) && n == Four(1, 2, 3, 1) && o == Four(1, 1, 2, 3) && p == Four(3, 1, 1, 2)
    ensures InvMixRow(d, MixRow(m, s)) == s
  {
    var (t, u) := (Turned(s), Turned(Turned(s)));
    MixTurned(m, s);
    MixTurned(m, t);
    MixTurned(m, u);
    FirstByte(s, d, m, n, o, p);
    FirstByte(t, d, m, n, o, p);
    FirstByte(u, d, m, n, o, p);
    FirstByte(Turned(u), d, m, n, o, p);
  }
}
