/**
  The X25519 ladder on limbs. Every operation of the source is a method on field elements that says which
  residue its result stands for and how large its limbs are; the loops run on these methods.
 */
module LadderLimbs {
  import opened ModArith
  import opened BitPacking
  import opened PolyPacking
  import opened ScalarDigits
  import opened FieldLimbs
  import FieldElements
  import Ed25519
  import X25519

  /** The element stands for the residue. */
  ghost predicate Stands(f: Fe, a: int) {
    Val(f) % P == a
  }

  // ----- the operations

  lemma {:induction false} SumResidue(x: int, y: int, a: int, b: int)
    requires x % P == a && y % P == b
    ensures (x + y) % P == FieldElements.Add(P, a, b) && (x - y) % P == FieldElements.Sub(P, a, b)
  {
    CongIntro(x + y, a + b, P, x / P + y / P);
    CongIntro(x - y, a - b, P, x / P - y / P);
  }

  lemma {:induction false} ProductResidue(z: int, x: int, y: int, a: int, b: int)
    requires Cong(z, x * y, P) && x % P == a && y % P == b
    ensures z % P == FieldElements.Mul(P, a, b)
  {
    FieldElements.ModCong(x, P);
    FieldElements.ModCong(y, P);
    CongMul(a, x, b, y, P);
  }

  method Add(f: Fe, g: Fe, ghost a: int, ghost b: int) returns (h: Fe)
    requires Firm(f) && Firm(g) && Stands(f, a) && Stands(g, b)
    ensures Loose(h) && Stands(h, FieldElements.Add(P, a, b))
  {
    h := Fe(f.h0 + g.h0, f.h1 + g.h1, f.h2 + g.h2, f.h3 + g.h3, f.h4 + g.h4, f.h5 + g.h5, f.h6 + g.h6, f.h7 + g.h7,
      f.h8 + g.h8, f.h9 + g.h9);
    SumResidue(Val(f), Val(g), a, b);
    assert Val(h) == Val(f) + Val(g);
  }

  method Sub(f: Fe, g: Fe, ghost a: int, ghost b: int) returns (h: Fe)
    requires Firm(f) && Firm(g) && Stands(f, a) && Stands(g, b)
    ensures Loose(h) && Stands(h, FieldElements.Sub(P, a, b))
  {
    h := Fe(f.h0 - g.h0, f.h1 - g.h1, f.h2 - g.h2, f.h3 - g.h3, f.h4 - g.h4, f.h5 - g.h5, f.h6 - g.h6, f.h7 - g.h7,
      f.h8 - g.h8, f.h9 - g.h9);
    SumResidue(Val(f), Val(g), a, b);
    assert Val(h) == Val(f) - Val(g);
  }

  lemma {:induction false} TightIsFirm(f: Fe)
    requires Tight(f)
    ensures Firm(f)
  {
  }

  method Times(f: Fe, g: Fe, ghost a: int, ghost b: int) returns (h: Fe)
    requires Loose(f) && Loose(g) && Stands(f, a) && Stands(g, b)
    ensures Firm(h) && Stands(h, FieldElements.Mul(P, a, b))
  {
    h := Mul(f, g);
    TimesIs(f, g, h, a, b);
  }

  lemma {:induction false} TimesIs(f: Fe, g: Fe, h: Fe, a: int, b: int)
    requires Loose(f) && Loose(g) && Stands(f, a) && Stands(g, b) && h == Mul(f, g)
    ensures Firm(h) && Stands(h, FieldElements.Mul(P, a, b))
  {
    MulExact(f, g);
    TightIsFirm(h);
    ProductResidue(Val(h), Val(f), Val(g), a, b);
  }

  method Squared(f: Fe, ghost a: int) returns (h: Fe)
    requires Loose(f) && Stands(f, a)
    ensures Firm(h) && Stands(h, FieldElements.Mul(P, a, a))
  {
    h := Square(f);
    SquareIsMul(f);
    TimesIs(f, f, h, a, a);
  }

  method TimesSmall(f: Fe, n: int, ghost a: int) returns (h: Fe)
    requires Loose(f) && 0 <= n <= 121666 && Stands(f, a)
    ensures Firm(h) && Stands(h, FieldElements.Mul(P, a, n))
  {
    h := Mul32(f, n);
    Mul32Exact(f, n);
    SmallResidue(Val(h), Val(f), a, n);
  }

  lemma {:induction false} SmallResidue(z: int, x: int, a: int, n: int)
    requires Cong(z, x * n, P) && x % P == a
    ensures z % P == FieldElements.Mul(P, a, n)
  {
    FieldElements.ModCong(x, P);
    CongMul(a, x, n, n, P);
  }

  method Cswap(f: Fe, g: Fe, swap: int) returns (h: Fe, k: Fe)
    ensures (h, k) == if swap == 1 then (g, f) else (f, g)
  {
    h, k := f, g;
    if swap == 1 {
      h, k := g, f;
    }
  }

  // ----- a point on the x-line

  /** Two elements with the line coordinates they stand for. */
  ghost predicate On(x: Fe, z: Fe, u: X25519.Line) {
    Firm(x) && Firm(z) && Stands(x, u.x) && Stands(z, u.z)
  }

  /** One step of the ladder after the swap: doubling and differential addition. */
  method Step(x1: Fe, x2: Fe, z2: Fe, x3: Fe, z3: Fe, ghost r: int, ghost u: X25519.Line, ghost v: X25519.Line)
    returns (x2': Fe, z2': Fe, x3': Fe, z3': Fe)
    requires Firm(x1) && Stands(x1, r) && On(x2, z2, u) && On(x3, z3, v)
    ensures On(x2', z2', X25519.Double(P, u)) && On(x3', z3', X25519.AddLine(P, r, u, v))
  {
    var a := Add(x2, z2, u.x, u.z);
    var b := Sub(x2, z2, u.x, u.z);
    ghost var ra, rb := FieldElements.Add(P, u.x, u.z), FieldElements.Sub(P, u.x, u.z);
    x2', z2' := DoubleStep(a, b, ra, rb, u);
    x3', z3' := AddStep(x1, a, b, x3, z3, r, ra, rb, u, v);
  }

  method DoubleStep(a: Fe, b: Fe, ghost ra: int, ghost rb: int, ghost u: X25519.Line) returns (x2: Fe, z2: Fe)
    requires Loose(a) && Loose(b) && Stands(a, ra) && Stands(b, rb)
    requires ra == FieldElements.Add(P, u.x, u.z) && rb == FieldElements.Sub(P, u.x, u.z)
    ensures On(x2, z2, X25519.Double(P, u))
  {
    ghost var raa, rbb := X25519.Square(P, ra), X25519.Square(P, rb);
    var aa := Squared(a, ra);
    var bb := Squared(b, rb);
    x2 := TimesFirm(aa, bb, raa, rbb);
    z2 := DoubleZ(aa, bb, raa, rbb);
    X25519.SameConstant(P, raa, rbb);
  }

  method TimesFirm(f: Fe, g: Fe, ghost a: int, ghost b: int) returns (h: Fe)
    requires Firm(f) && Firm(g) && Stands(f, a) && Stands(g, b)
    ensures Firm(h) && Stands(h, FieldElements.Mul(P, a, b))
  {
    FirmIsLoose(f);
    FirmIsLoose(g);
    h := Times(f, g, a, b);
  }

  method DoubleZ(aa: Fe, bb: Fe, ghost raa: int, ghost rbb: int) returns (z2: Fe)
    requires Firm(aa) && Firm(bb) && Stands(aa, raa) && Stands(bb, rbb)
    ensures Firm(z2) && Stands(z2, X25519.SourceDoubleZ(P, raa, rbb))
  {
    ghost var re := FieldElements.Sub(P, raa, rbb);
    ghost var rs := FieldElements.Mul(P, re, 121666);
    var e := Sub(aa, bb, raa, rbb);
    var s := TimesSmall(e, 121666, re);
    s := Add(s, bb, rs, rbb);
    z2 := Times(s, e, FieldElements.Add(P, rs, rbb), re);
  }

  method AddStep(x1: Fe, a: Fe, b: Fe, x3: Fe, z3: Fe, ghost r: int, ghost ra: int, ghost rb: int,
      ghost u: X25519.Line, ghost v: X25519.Line)
    returns (x: Fe, z: Fe)
    requires Firm(x1) && Stands(x1, r) && Loose(a) && Loose(b) && Stands(a, ra) && Stands(b, rb) && On(x3, z3, v)
    requires ra == FieldElements.Add(P, u.x, u.z) && rb == FieldElements.Sub(P, u.x, u.z)
    ensures On(x, z, X25519.AddLine(P, r, u, v))
  {
    ghost var rda, rcb := FieldElements.Mul(P, FieldElements.Sub(P, v.x, v.z), ra),
      FieldElements.Mul(P, FieldElements.Add(P, v.x, v.z), rb);
    var d := Sub(x3, z3, v.x, v.z);
    var da := Times(d, a, FieldElements.Sub(P, v.x, v.z), ra);
    var c := Add(x3, z3, v.x, v.z);
    var cb := Times(c, b, FieldElements.Add(P, v.x, v.z), rb);
    x, z := CrossStep(x1, da, cb, r, rda, rcb);
    TimesSwap(X25519.Square(P, FieldElements.Sub(P, rda, rcb)), r);
  }

  lemma {:induction false} TimesSwap(x: int, y: int)
    ensures FieldElements.Mul(P, x, y) == FieldElements.Mul(P, y, x)
  {
    assert x * y == y * x;
  }

  method CrossStep(x1: Fe, da: Fe, cb: Fe, ghost r: int, ghost rda: int, ghost rcb: int) returns (x: Fe, z: Fe)
    requires Firm(x1) && Stands(x1, r) && Firm(da) && Firm(cb) && Stands(da, rda) && Stands(cb, rcb)
    ensures Firm(x) && Stands(x, X25519.Square(P, FieldElements.Add(P, rda, rcb)))
    ensures Firm(z) && Stands(z, FieldElements.Mul(P, X25519.Square(P, FieldElements.Sub(P, rda, rcb)), r))
  {
    x := Add(da, cb, rda, rcb);
    x := Squared(x, FieldElements.Add(P, rda, rcb));
    z := Sub(da, cb, rda, rcb);
    z := Squared(z, FieldElements.Sub(P, rda, rcb));
    z := TimesFirm(z, x1, X25519.Square(P, FieldElements.Sub(P, rda, rcb)), r);
  }

  // ----- the loop

  const ONE := Fe(1, 0, 0, 0, 0, 0, 0, 0, 0, 0)
  const ZERO := Fe(0, 0, 0, 0, 0, 0, 0, 0, 0, 0)

  /** The pairs that the ladder passes through, from the end down to place |bits| - n. */
  ghost predicate Traced(trace: seq<X25519.Pair>, r: int, bits: seq<int>, n: nat)
    requires |trace| == |bits| + 1 && n <= |bits|
    decreases n
  {
    n == 0 || (trace[|bits| - n] == X25519.Rung(P, r, trace[|bits| - n + 1], bits[|bits| - n])
      && Traced(trace, r, bits, n - 1))
  }

  lemma {:induction false} TracedAt(trace: seq<X25519.Pair>, r: int, bits: seq<int>, n: nat, pos: nat)
    requires |trace| == |bits| + 1 && n <= |bits| && Traced(trace, r, bits, n) && |bits| - n <= pos < |bits|
    ensures trace[pos] == X25519.Rung(P, r, trace[pos + 1], bits[pos])
    decreases n
  {
    if pos > |bits| - n {
      TracedAt(trace, r, bits, n - 1, pos);
    }
  }

  ghost function Trace(r: int, bits: seq<int>): (t: seq<X25519.Pair>)
    ensures |t| == |bits| + 1 && forall i :: 0 <= i <= |bits| ==> t[i] == X25519.Ladder(P, r, bits, i)
  {
    seq(|bits| + 1, i requires 0 <= i <= |bits| => X25519.Ladder(P, r, bits, i))
  }

  lemma {:induction false} TraceTraced(r: int, bits: seq<int>, n: nat)
    requires n <= |bits|
    ensures Traced(Trace(r, bits), r, bits, n)
    decreases n
  {
    if n > 0 {
      TraceTraced(r, bits, n - 1);
    }
  }

  /** The ladder: from the base point and its zeroth multiple through all bits. */
  method Ladder(x1: Fe, bits: seq<int>, ghost r: int) returns (x2: Fe, z2: Fe)
    requires Firm(x1) && Stands(x1, r) && Below(bits, 2) && bits != []
    ensures On(x2, z2, X25519.Ladder(P, r, bits, 0).low)
  {
    ghost var trace := Trace(r, bits);
    LadderStarts(x1, r, bits, trace);
    x2, z2 := LadderLoop(x1, bits, r, trace);
  }

  lemma {:induction false} LadderStarts(x1: Fe, r: int, bits: seq<int>, trace: seq<X25519.Pair>)
    requires Firm(x1) && Stands(x1, r) && Below(bits, 2) && trace == Trace(r, bits)
    ensures Running(State(ONE, ZERO, x1, ONE, 0, |bits|), x1, bits, r, trace)
  {
    TraceTraced(r, bits, |bits|);
    FirstPair(x1, r);
    TraceEnd(r, bits);
  }

  lemma {:induction false} FirstPair(x1: Fe, r: int)
    requires Firm(x1) && Stands(x1, r)
    ensures InOrder(ONE, ZERO, x1, ONE, 0, X25519.Pair(X25519.Line(1, 0), X25519.Line(r, 1)))
  {
  }

  lemma {:induction false} TraceEnd(r: int, bits: seq<int>)
    ensures Trace(r, bits)[|bits|] == X25519.Pair(X25519.Line(1, 0), X25519.Line(r, 1))
  {
  }

  /** The variables of the loop. */
  datatype State = State(x2: Fe, z2: Fe, x3: Fe, z3: Fe, swap: int, pos: nat)

  ghost predicate Running(s: State, x1: Fe, bits: seq<int>, r: int, trace: seq<X25519.Pair>) {
    && Firm(x1) && Stands(x1, r) && Below(bits, 2) && |trace| == |bits| + 1 && Traced(trace, r, bits, |bits|)
    && s.pos <= |bits| && 0 <= s.swap <= 1 && InOrder(s.x2, s.z2, s.x3, s.z3, s.swap, trace[s.pos])
  }

  /**
    The loop of the source. The two points are swapped only when the bit differs from the one before, so
    between steps they may stand in the wrong order; swap tells.
   */
  method LadderLoop(x1: Fe, bits: seq<int>, ghost r: int, ghost trace: seq<X25519.Pair>) returns (x2: Fe, z2: Fe)
    requires Running(State(ONE, ZERO, x1, ONE, 0, |bits|), x1, bits, r, trace)
    ensures trace != [] && On(x2, z2, trace[0].low)
  {
    var s := State(ONE, ZERO, x1, ONE, 0, |bits|);
    while s.pos > 0
      invariant Running(s, x1, bits, r, trace)
      decreases s.pos
    {
      s := NextBit(s, x1, bits, r, trace);
    }
    x2, z2 := LastSwap(s.x2, s.z2, s.x3, s.z3, s.swap, trace[0]);
  }

  /** The body of the loop. */
  method NextBit(s: State, x1: Fe, bits: seq<int>, ghost r: int, ghost trace: seq<X25519.Pair>) returns (t: State)
    requires Running(s, x1, bits, r, trace) && s.pos > 0
    ensures Running(t, x1, bits, r, trace) && t.pos == s.pos - 1
  {
    var pos := s.pos - 1;
    TracedAt(trace, r, bits, |bits|, pos);
    var x2, z2, x3, z3 := Rung(x1, s.x2, s.z2, s.x3, s.z3, s.swap, bits[pos], r, trace[pos + 1]);
    t := State(x2, z2, x3, z3, bits[pos], pos);
  }

  method LastSwap(x2: Fe, z2: Fe, x3: Fe, z3: Fe, swap: int, ghost s: X25519.Pair) returns (x: Fe, z: Fe)
    requires 0 <= swap <= 1 && InOrder(x2, z2, x3, z3, swap, s)
    ensures On(x, z, s.low)
  {
    var x', z';
    x, x' := Cswap(x2, x3, swap);
    z, z' := Cswap(z2, z3, swap);
  }

  /** The two points stand for the pair, exchanged if swap is 1. */
  ghost predicate InOrder(x2: Fe, z2: Fe, x3: Fe, z3: Fe, swap: int, s: X25519.Pair) {
    if swap == 0 then On(x2, z2, s.low) && On(x3, z3, s.high) else On(x2, z2, s.high) && On(x3, z3, s.low)
  }

  /** One bit: the swap, if it has changed, and the step. */
  method Rung(x1: Fe, x2: Fe, z2: Fe, x3: Fe, z3: Fe, swap: int, bit: int, ghost r: int, ghost s: X25519.Pair)
    returns (x2': Fe, z2': Fe, x3': Fe, z3': Fe)
    requires Firm(x1) && Stands(x1, r) && 0 <= swap <= 1 && 0 <= bit <= 1 && InOrder(x2, z2, x3, z3, swap, s)
    ensures InOrder(x2', z2', x3', z3', bit, X25519.Rung(P, r, s, bit))
  {
    x2', x3' := Cswap(x2, x3, (swap + bit) % 2);
    z2', z3' := Cswap(z2, z3, (swap + bit) % 2);
    if bit == 0 {
      x2', z2', x3', z3' := Step(x1, x2', z2', x3', z3', r, s.low, s.high);
    } else {
      x2', z2', x3', z3' := Step(x1, x2', z2', x3', z3', r, s.high, s.low);
    }
  }

  // ----- inversion

  /** Squares n times. */
  method SquareTimes(f: Fe, n: nat, ghost z: int, ghost e: nat) returns (h: Fe)
    requires Firm(f) && Stands(f, FieldElements.Power(P, z, e))
    ensures Firm(h) && Stands(h, FieldElements.Power(P, z, e * Pow2(n)))
  {
    h := f;
    var i := 0;
    while i < n
      invariant 0 <= i <= n && Firm(h) && Stands(h, FieldElements.Power(P, z, e * Pow2(i)))
    {
      h := FirmPower(h, h, z, e * Pow2(i), e * Pow2(i));
      FieldElements.Twice(e, Pow2(i));
      i := i + 1;
    }
  }

  /** The product of two powers. (The source calls the squaring for equal factors; SquareIsMul.) */
  method FirmPower(f: Fe, g: Fe, ghost z: int, ghost m: nat, ghost n: nat) returns (h: Fe)
    requires Firm(f) && Firm(g) && Stands(f, FieldElements.Power(P, z, m)) && Stands(g, FieldElements.Power(P, z, n))
    ensures Firm(h) && Stands(h, FieldElements.Power(P, z, m + n))
  {
    FirmIsLoose(f);
    FirmIsLoose(g);
    h := TimesPower(f, g, z, m, n);
  }

  method TimesPower(f: Fe, g: Fe, ghost z: int, ghost m: nat, ghost n: nat) returns (h: Fe)
    requires Loose(f) && Loose(g) && Stands(f, FieldElements.Power(P, z, m)) && Stands(g, FieldElements.Power(P, z, n))
    ensures Firm(h) && Stands(h, FieldElements.Power(P, z, m + n))
  {
    FieldElements.PowerAdd(P, z, m, n);
    h := Times(f, g, FieldElements.Power(P, z, m), FieldElements.Power(P, z, n));
  }

  /** Shifting a run of ones by n places and filling up with another run. */
  method Append(f: Fe, g: Fe, n: nat, ghost z: int, ghost m: nat) returns (h: Fe)
    requires Firm(f) && Stands(f, FieldElements.Power(P, z, FieldElements.Ones(m)))
    requires Firm(g) && Stands(g, FieldElements.Power(P, z, FieldElements.Ones(n)))
    ensures Firm(h) && Stands(h, FieldElements.Power(P, z, FieldElements.Ones(m + n)))
  {
    h := SquareTimes(f, n, z, FieldElements.Ones(m));
    FieldElements.OnesAppended(m, n);
    h := FirmPower(h, g, z, FieldElements.Ones(m) * Pow2(n), FieldElements.Ones(n));
  }

  /** The powers z^11 and z^31 that the chain starts from. */
  method FirstPowers(f: Fe, ghost z: int) returns (z11: Fe, o5: Fe)
    requires Loose(f) && Stands(f, z)
    ensures Firm(z11) && Stands(z11, FieldElements.Power(P, z, 11))
    ensures Firm(o5) && Stands(o5, FieldElements.Power(P, z, FieldElements.Ones(5)))
  {
    FieldElements.PowerOne(P, z);
    FieldElements.OnesFive();
    var z2 := TimesPower(f, f, z, 1, 1);
    var z4 := FirmPower(z2, z2, z, 2, 2);
    var z8 := FirmPower(z4, z4, z, 4, 4);
    FirmIsLoose(z8);
    var z9 := TimesPower(f, z8, z, 1, 8);
    z11 := FirmPower(z2, z9, z, 2, 9);
    var z22 := FirmPower(z11, z11, z, 11, 11);
    o5 := FirmPower(z9, z22, z, 9, 22);
  }

  /** The inversion chain. The result is z to the power 2^255 - 21, written as 250 ones followed by 01011. */
  method Invert(f: Fe, ghost z: int) returns (h: Fe)
    requires Loose(f) && Stands(f, z)
    ensures Firm(h) && Stands(h, FieldElements.Power(P, z, FieldElements.Ones(250) * 32 + 11))
  {
    var z11, o5 := FirstPowers(f, z);
    var o50 := FiftyOnes(o5, z);
    var o250 := AllOnes(o50, z);
    h := Last(o250, z11, z, FieldElements.Ones(250));
  }

  method FiftyOnes(o5: Fe, ghost z: int) returns (o50: Fe)
    requires Firm(o5) && Stands(o5, FieldElements.Power(P, z, FieldElements.Ones(5)))
    ensures Firm(o50) && Stands(o50, FieldElements.Power(P, z, FieldElements.Ones(50)))
  {
    var o10 := Append(o5, o5, 5, z, 5);
    var o20 := Append(o10, o10, 10, z, 10);
    var o40 := Append(o20, o20, 20, z, 20);
    o50 := Append(o40, o10, 10, z, 40);
  }

  method AllOnes(o50: Fe, ghost z: int) returns (o250: Fe)
    requires Firm(o50) && Stands(o50, FieldElements.Power(P, z, FieldElements.Ones(50)))
    ensures Firm(o250) && Stands(o250, FieldElements.Power(P, z, FieldElements.Ones(250)))
  {
    var o100 := Append(o50, o50, 50, z, 50);
    var o200 := Append(o100, o100, 100, z, 100);
    o250 := Append(o200, o50, 50, z, 200);
  }

  /** Five more squarings and the last factor. */
  method Last(f: Fe, z11: Fe, ghost z: int, ghost e: nat) returns (h: Fe)
    requires Firm(f) && Stands(f, FieldElements.Power(P, z, e))
    requires Firm(z11) && Stands(z11, FieldElements.Power(P, z, 11))
    ensures Firm(h) && Stands(h, FieldElements.Power(P, z, e * 32 + 11))
  {
    var t := SquareTimes(f, 5, z, e);
    assert Pow2(5) == 32;
    h := FirmPower(t, z11, z, e * 32, 11);
  }

  // ----- the whole function

  /**
    X25519 from bytes to bytes. The result encodes X / Z for a pair that represents the clamped scalar
    times the point; points that the small-order check finds are refused.
   */
  method ScalarMult(n: seq<int>, point: seq<int>, smallOrder: bool, ghost on: (int, X25519.Line) -> bool)
    returns (res: int, q: seq<int>, ghost u: X25519.Line)
    requires Bytes(n, 32) && Bytes(point, 32) && (!smallOrder ==> X25519.LineArithmetic(P, Low255(point) % P, on))
    ensures res == if smallOrder then -1 else 0
    ensures !smallOrder ==> on(Value(Ed25519.Clamp(n)), u) && q == ToBytes(X25519.Quotient(P, u), 32)
  {
    if smallOrder {
      res, q, u := -1, [], X25519.Line(0, 0);
    } else {
      var t := Ed25519.Clamp(n);
      ghost var r := Low255(point) % P;
      FromBytesExact(point);
      var x1 := FromBytes(point);
      X25519.ScalarBits(t);
      var bits := Stream(8, t)[..8 * |t| - 1];
      var x2, z2 := Ladder(x1, bits, r);
      u := X25519.Ladder(P, r, bits, 0).low;
      X25519.LadderMultiples(P, r, on, bits, 0);
      q := Divided(x2, z2, u);
      res := 0;
    }
  }

  /** X times the inverse of Z, encoded. */
  method Divided(x: Fe, z: Fe, ghost u: X25519.Line) returns (q: seq<int>)
    requires On(x, z, u)
    ensures q == ToBytes(X25519.Quotient(P, u), 32)
  {
    ghost var w := FieldElements.Power(P, u.z, FieldElements.Ones(250) * 32 + 11);
    FirmIsLoose(z);
    var i := Invert(z, u.z);
    var h := TimesFirm(x, i, u.x, w);
    q := Encoded(h, FieldElements.Mul(P, u.x, w));
  }

  method Encoded(h: Fe, ghost w: nat) returns (q: seq<int>)
    requires Firm(h) && Stands(h, w)
    ensures q == ToBytes(w, 32)
  {
    FirmIsLoose(h);
    EncodeExact(h);
    q := Encode(h);
  }
}
