/** The Montgomery ladder of the X25519 code, with its deferred swap (section 5 of RFC 7748). */
module X25519 {
  import opened ModArith
  import opened BitPacking
  import opened PolyPacking
  import opened ScalarDigits
  import opened FieldElements

  /** A point on the x-line: X / Z. */
  datatype Line = Line(x: int, z: int)

  function Square(p: int, a: int): int
    requires p > 0
  {
    Mul(p, a, a)
  }

  // ----- the step of RFC 7748

  /** Doubling, with the constant 121665 of the RFC. */
  function Double(p: int, u: Line): Line
    requires p > 0
  {
    var aa, bb := Square(p, Add(p, u.x, u.z)), Square(p, Sub(p, u.x, u.z));
    var e := Sub(p, aa, bb);
    Line(Mul(p, aa, bb), Mul(p, e, Add(p, aa, Mul(p, 121665, e))))
  }

  /** Adding two points whose difference has the coordinate x1. */
  function AddLine(p: int, x1: int, u: Line, v: Line): Line
    requires p > 0
  {
    var da := Mul(p, Sub(p, v.x, v.z), Add(p, u.x, u.z));
    var cb := Mul(p, Add(p, v.x, v.z), Sub(p, u.x, u.z));
    Line(Square(p, Add(p, da, cb)), Mul(p, x1, Square(p, Sub(p, da, cb))))
  }

  datatype Pair = Pair(low: Line, high: Line)

  /** One bit of the ladder without any swapping. */
  function Rung(p: int, x1: int, s: Pair, bit: int): Pair
    requires p > 0
  {
    if bit == 0 then Pair(Double(p, s.low), AddLine(p, x1, s.low, s.high))
    else Pair(AddLine(p, x1, s.high, s.low), Double(p, s.high))
  }

  /** The ladder on the highest bits of a scalar, down to bit i. */
  function Ladder(p: int, x1: int, bits: seq<int>, i: nat): Pair
    requires p > 0 && i <= |bits|
    decreases |bits| - i
  {
    if i == |bits| then Pair(Line(1, 0), Line(x1, 1)) else Rung(p, x1, Ladder(p, x1, bits, i + 1), bits[i])
  }

  // ----- what the ladder computes

  /**
    The x-line arithmetic is right: on(n, u) says that u represents the n-fold of the base point; doubling
    and differential addition respect it, and neighbouring multiples may be added in either order.
   */
  ghost predicate LineArithmetic(p: int, x1: int, on: (int, Line) -> bool)
    requires p > 0
  {
    && on(0, Line(1, 0)) && on(1, Line(x1, 1))
    && forall n: nat, u, v {:trigger At(n, u, v)} :: At(n, u, v) && on(n, u) && on(n + 1, v) ==>
         && on(2 * n, Double(p, u)) && on(2 * (n + 1), Double(p, v))
         && on(2 * n + 1, AddLine(p, x1, u, v)) && on(2 * n + 1, AddLine(p, x1, v, u))
  }

  /** Names the points at which the laws above are used. */
  predicate At(n: nat, u: Line, v: Line) { true }

  /** The bits from i on, as a number. */
  function Number(bits: seq<int>, i: nat): (n: nat)
    requires Below(bits, 2) && i <= |bits|
    decreases |bits| - i
  {
    if i == |bits| then 0 else 2 * Number(bits, i + 1) + bits[i]
  }

  /** The ladder keeps two neighbouring multiples, and ends with the scalar's. */
  lemma {:induction false} LadderMultiples(p: int, x1: int, on: (int, Line) -> bool, bits: seq<int>, i: nat)
    requires p > 0 && LineArithmetic(p, x1, on) && Below(bits, 2) && i <= |bits|
    ensures on(Number(bits, i), Ladder(p, x1, bits, i).low) && on(Number(bits, i) + 1, Ladder(p, x1, bits, i).high)
    decreases |bits| - i
  {
    if i < |bits| {
      LadderMultiples(p, x1, on, bits, i + 1);
      var n, s := Number(bits, i + 1), Ladder(p, x1, bits, i + 1);
      assert At(n, s.low, s.high);
    }
  }

  // ----- the variant of the source

  /** Doubling in the source: 121666 times e is added to BB instead. */
  function SourceDoubleZ(p: int, aa: int, bb: int): int
    requires p > 0
  {
    var e := Sub(p, aa, bb);
    Mul(p, Add(p, Mul(p, e, 121666), bb), e)
  }

  /** Both constants give the same coordinate. */
  lemma {:induction false} SameConstant(p: int, aa: int, bb: int)
    requires p > 0
    ensures var e := Sub(p, aa, bb); SourceDoubleZ(p, aa, bb) == Mul(p, e, Add(p, aa, Mul(p, 121665, e)))
  {
    var e := Sub(p, aa, bb);
    var l, r := Add(p, Mul(p, e, 121666), bb), Add(p, aa, Mul(p, 121665, e));
    ModCong(aa - bb, p);
    ModCong(e * 121666, p);
    ModCong(121665 * e, p);
    ModCong(Mul(p, e, 121666) + bb, p);
    ModCong(aa + Mul(p, 121665, e), p);
    CongAdd(Mul(p, e, 121666), e * 121666, bb, bb, p);
    CongAdd(aa, aa, Mul(p, 121665, e), 121665 * e, p);
    CongAdd(e, aa - bb, 121665 * e + bb, 121665 * e + bb, p);
    CongMul(l, r, e, e, p);
  }

  /** The bits of a clamped scalar that the loop works off: all but the highest. */
  lemma {:induction false} ScalarBits(t: seq<int>)
    requires Below(t, 256) && t != [] && t[|t| - 1] <= 127
    ensures Number(Stream(8, t)[..8 * |t| - 1], 0) == Value(t)
  {
    var s, n := Stream(8, t), 8 * |t| - 1;
    BitsValue(t);
    TopBit(t);
    NumberIsSum(s[..n], 0);
    SumSame(s, s[..n], 1, n);
    assert Sum(s, 1, n + 1) == Sum(s, 1, n) + s[n] * Pow2(n);
    assert Pow2(0) == 1;
  }

  lemma {:induction false} TopBit(t: seq<int>)
    requires Below(t, 256) && t != [] && t[|t| - 1] <= 127
    ensures Stream(8, t)[8 * |t| - 1] == 0
    decreases |t|
  {
    var rest := Stream(8, t[1..]);
    assert Stream(8, t) == ToBits(t[0], 8) + rest;
    if |t| > 1 {
      TopBit(t[1..]);
      assert Stream(8, t)[8 * |t| - 1] == rest[8 * |t[1..]| - 1];
    } else {
      ToBitsAt(t[0], 8, 7);
      HighestBit(t[0]);
    }
  }

  lemma {:induction false} HighestBit(x: nat)
    requires x <= 127
    ensures Bit(x, 7) == 0
  {
    assert Bit(x, 7) == x / 2 / 2 / 2 / 2 / 2 / 2 / 2 % 2;
  }

  lemma {:induction false} NumberIsSum(s: seq<int>, i: nat)
    requires Below(s, 2) && i <= |s|
    ensures Sum(s, 1, |s|) == Sum(s, 1, i) + Pow2(i) * Number(s, i)
    decreases |s| - i
  {
    if i < |s| {
      NumberIsSum(s, i + 1);
      assert Pow2(i + 1) == 2 * Pow2(i);
      SplitNumber(Pow2(i), s[i], Number(s, i + 1));
    }
  }

  lemma {:induction false} SplitNumber(p: int, x: int, h: int)
    ensures x * p + (2 * p) * h == p * (2 * h + x)
  {
  }

  /** X / Z, by the inversion chain. */
  function Quotient(p: int, u: Line): (x: int)
    requires p > 0
    ensures 0 <= x < p
  {
    Mul(p, u.x, Power(p, u.z, Ones(250) * 32 + 11))
  }
}
