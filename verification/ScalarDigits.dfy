/** Scalars as digits: the sliding-window recoding and the signed radix-16 recoding, in place. */
module ScalarDigits {
  import opened ModArith
  import opened BitPacking
  import opened PolyPacking

  /** Little-endian value. */
  function Value(b: seq<int>): (v: nat)
    requires Below(b, 256)
    ensures v < Pow2(8 * |b|)
  {
    if b == [] then 0
    else
      assert Pow2(8 * |b|) == 256 * Pow2(8 * |b[1..]|) by { PowStep(8 * |b[1..]|); }
      b[0] + 256 * Value(b[1..])
  }

  function ToBytes(x: nat, n: nat): (b: seq<int>)
    ensures Bytes(b, n)
    decreases n, x
  {
    if n == 0 then [] else [x % 256] + ToBytes(x / 256, n - 1)
  }

  /** The bytes of the value are the bytes. */
  lemma {:induction false} ToBytesOfValue(b: seq<int>)
    requires Below(b, 256)
    ensures ToBytes(Value(b), |b|) == b
    decreases |b|
  {
    if b != [] {
      ToBytesOfValue(b[1..]);
    }
  }

  /** A number that is at most the value of some n bytes fits into n bytes. */
  lemma {:induction false} ValueOfBytes(x: nat, t: seq<int>)
    requires Below(t, 256) && x <= Value(t)
    ensures Value(ToBytes(x, |t|)) == x
    decreases |t|
  {
    if t != [] {
      ValueOfBytes(x / 256, t[1..]);
      assert ToBytes(x, |t|)[1..] == ToBytes(x / 256, |t| - 1);
    }
  }

  lemma {:induction false} PowStep(n: nat)
    ensures Pow2(n + 8) == 256 * Pow2(n)
  {
    assert Pow2(n + 8) == 2 * Pow2(n + 7) && Pow2(n + 7) == 2 * Pow2(n + 6) && Pow2(n + 6) == 2 * Pow2(n + 5);
    assert Pow2(n + 5) == 2 * Pow2(n + 4) && Pow2(n + 4) == 2 * Pow2(n + 3) && Pow2(n + 3) == 2 * Pow2(n + 2);
    assert Pow2(n + 2) == 2 * Pow2(n + 1) && Pow2(n + 1) == 2 * Pow2(n);
  }

  /** The first n digits in radix 2^w, least significant first. */
  function Sum(s: seq<int>, w: nat, n: nat): int
    requires n <= |s|
    decreases n, |s|
  {
    if n == 0 then 0 else Sum(s, w, n - 1) + s[n - 1] * Pow2(w * (n - 1))
  }

  lemma {:induction false} SumSame(s: seq<int>, t: seq<int>, w: nat, n: nat)
    requires n <= |s| && n <= |t| && s[..n] == t[..n]
    ensures Sum(s, w, n) == Sum(t, w, n)
    decreases n
  {
    if n > 0 {
      assert s[..n][..n - 1] == s[..n - 1] && t[..n][..n - 1] == t[..n - 1];
      assert s[..n][n - 1] == s[n - 1] && t[..n][n - 1] == t[n - 1];
      SumSame(s, t, w, n - 1);
    }
  }

  lemma {:induction false} SumUpdate(s: seq<int>, w: nat, k: nat, v: int, n: nat)
    requires k < n <= |s|
    ensures Sum(s[k := v], w, n) == Sum(s, w, n) + (v - s[k]) * Pow2(w * k)
    decreases n
  {
    if k == n - 1 {
      SumSame(s, s[k := v], w, k);
    } else {
      SumUpdate(s, w, k, v, n - 1);
    }
  }

  /** Zero digits on top add nothing. */
  lemma {:induction false} SumZeros(s: seq<int>, w: nat, k: nat, n: nat)
    requires k <= n <= |s| && forall j :: k <= j < n ==> s[j] == 0
    ensures Sum(s, w, n) == Sum(s, w, k)
    decreases n
  {
    if k < n {
      SumZeros(s, w, k, n - 1);
    }
  }

  // ----- bits

  lemma {:induction false} SumShift(s: seq<int>, w: nat, n: nat)
    requires 0 < n <= |s|
    ensures Sum(s, w, n) == s[0] + Pow2(w) * Sum(s[1..], w, n - 1)
    decreases n
  {
    if n == 1 {
      assert Sum(s, w, 1) == Sum(s, w, 0) + s[0] * Pow2(w * 0);
    } else {
      SumShift(s, w, n - 1);
      assert w * (n - 1) == w + w * (n - 2);
      PowAdd2(w, w * (n - 2));
      TakeOut(Pow2(w), Sum(s[1..], w, n - 2), s[n - 1], Pow2(w * (n - 2)));
    }
  }

  lemma {:induction false} TakeOut(p: int, t: int, x: int, q: int)
    ensures p * t + x * (p * q) == p * (t + x * q)
  {
    assert x * (p * q) == p * (x * q);
  }

  /** The bits of the bytes, as digits in radix 2, have the same value. */
  lemma {:induction false} BitsValue(b: seq<int>)
    requires Below(b, 256)
    ensures Sum(Stream(8, b), 1, 8 * |b|) == Value(b)
    decreases |b|
  {
    if b != [] {
      var rest := Stream(8, b[1..]);
      assert Stream(8, b) == ToBits(b[0], 8) + rest;
      BitsValue(b[1..]);
      SumOfAppended(ToBits(b[0], 8), rest);
      assert Pow2(8) == 256;
      ByteValue(b[0]);
    }
  }

  lemma {:induction false} SumOfAppended(s: seq<int>, t: seq<int>)
    ensures Sum(s + t, 1, |s + t|) == Sum(s, 1, |s|) + Pow2(|s|) * Sum(t, 1, |t|)
    decreases |s|
  {
    if s == [] {
      assert s + t == t;
    } else {
      SumShift(s + t, 1, |s + t|);
      SumShift(s, 1, |s|);
      assert (s + t)[1..] == s[1..] + t;
      SumOfAppended(s[1..], t);
      DoubleSum(Sum(s[1..], 1, |s| - 1), Pow2(|s| - 1), Sum(t, 1, |t|));
      assert Pow2(1) == 2;
    }
  }

  lemma {:induction false} DoubleSum(x: int, p: int, y: int)
    ensures 2 * (x + p * y) == 2 * x + (2 * p) * y
  {
  }

  lemma {:induction false} ByteValue(x: nat)
    requires x < 256
    ensures Sum(ToBits(x, 8), 1, 8) == x
  {
    assert Pow2(8) == 256;
    FromToBits(x, 8);
    SumIsFromBits(ToBits(x, 8));
  }

  lemma {:induction false} SumIsFromBits(s: seq<int>)
    requires Below(s, 2)
    ensures Sum(s, 1, |s|) == FromBits(s)
    decreases |s|
  {
    if s != [] {
      SumShift(s, 1, |s|);
      SumIsFromBits(s[1..]);
      assert Pow2(1) == 2;
    }
  }

  // ----- the sliding window

  /** What the recoding leaves: zero, or odd and at most 15 in absolute value. */
  predicate WindowDigit(d: int) {
    d == 0 || (d % 2 == 1 && -15 <= d <= 15)
  }

  /**
    The state before place i is treated: digits below, bits from there on. Up to place clear the bits are
    zero, and what lies below i is less than half of 2^clear in absolute value.
   */
  ghost predicate Sliding(s: seq<int>, v: int, i: nat, clear: nat) {
    && i <= |s| && Sum(s, 1, |s|) == v
    && (forall k :: 0 <= k < i ==> WindowDigit(s[k]))
    && (forall k :: i <= k < |s| ==> s[k] == 0 || s[k] == 1)
    && (forall k :: i <= k < clear && k < |s| ==> s[k] == 0)
    && 0 - Pow2(clear) < 2 * Sum(s, 1, i) < Pow2(clear)
  }

  /** The state while place i gathers the bits behind it: those before i + b are used up. */
  ghost predicate Gathering(s: seq<int>, v: int, i: nat, b: nat) {
    && i < |s| && Sum(s, 1, |s|) == v && 0 - Pow2(i) < 2 * Sum(s, 1, i) < Pow2(i)
    && GatheringShape(s, i, b)
  }

  ghost predicate GatheringShape(s: seq<int>, i: nat, b: nat)
    requires i < |s|
  {
    && 1 <= b <= 7
    && (forall k :: 0 <= k < i ==> WindowDigit(s[k]))
    && s[i] % 2 == 1 && -15 <= s[i] <= 15 && (b <= 4 ==> 1 <= s[i] < Pow2(b))
    && (forall k :: i < k < |s| ==> s[k] == 0 || s[k] == 1)
    && (forall k :: i < k < i + b && k < i + 5 && k < |s| ==> s[k] == 0)
  }

  lemma {:induction false} SmallPowers()
    ensures Pow2(0) == 1 && Pow2(1) == 2 && Pow2(2) == 4 && Pow2(3) == 8 && Pow2(4) == 16
  {
  }

  lemma {:induction false} Gathered(s: seq<int>, v: int, i: nat, b: nat)
    requires Gathering(s, v, i, b) && (b >= 5 || i + b >= |s|)
    ensures Sliding(s, v, i + 1, i + 5)
  {
    var p := Pow2(i);
    assert Sum(s, 1, i + 1) == Sum(s, 1, i) + s[i] * p;
    MulMono(s[i], 15, p);
    MulMono(-15, s[i], p);
    PowFive(i);
  }

  lemma {:induction false} PowFive(i: nat)
    ensures Pow2(i + 5) == 32 * Pow2(i) && Pow2(i + 4) == 16 * Pow2(i)
  {
    assert Pow2(i + 5) == 2 * Pow2(i + 4) && Pow2(i + 4) == 2 * Pow2(i + 3) && Pow2(i + 3) == 2 * Pow2(i + 2);
    assert Pow2(i + 2) == 2 * Pow2(i + 1) && Pow2(i + 1) == 2 * Pow2(i);
  }

  /** A carry on its way: the ones from place i + b up to k are cleared, and 2^k is still to be added. */
  ghost predicate Carrying(s: seq<int>, v: int, i: nat, b: nat, k: nat) {
    && i + b <= k <= |s| && b >= 1 && i + b < |s| && Sum(s, 1, |s|) + Pow2(k) == v
    && (forall j :: 0 <= j < i ==> WindowDigit(s[j]))
    && s[i] % 2 == 1 && -15 <= s[i] <= 15
    && (forall j :: i < j < |s| ==> s[j] == 0 || s[j] == 1)
    && (forall j :: i < j < k ==> s[j] == 0)
    && 0 - Pow2(i) < 2 * Sum(s, 1, i) < Pow2(i)
  }

  /** The carry never runs off the top: there is room for every value below 2^255. */
  lemma {:induction false} CarryStays(s: seq<int>, v: int, i: nat, k: nat)
    requires Carrying(s, v, i, 4, k) && 0 <= 2 * v < Pow2(|s|)
    ensures k < |s|
  {
    if k == |s| {
      SumZeros(s, 1, i + 1, |s|);
      assert Sum(s, 1, i + 1) == Sum(s, 1, i) + s[i] * Pow2(i);
      MulMono(-15, s[i], Pow2(i));
      PowFive(i);
      PowMono(i + 4, k - 1);
    }
  }

  lemma {:induction false} Skip(s: seq<int>, v: int, i: nat, clear: nat)
    requires Sliding(s, v, i, clear) && i < |s| && s[i] == 0
    ensures Sliding(s, v, i + 1, clear)
  {
  }

  lemma {:induction false} StartGathering(s: seq<int>, v: int, i: nat, clear: nat)
    requires Sliding(s, v, i, clear) && i < |s| && s[i] != 0
    ensures Gathering(s, v, i, 1)
  {
    PowMono(clear, i);
    assert Pow2(1) == 2;
  }

  /** Moving a bit down to place i keeps the sum. */
  lemma {:induction false} MoveDown(s: seq<int>, i: nat, b: nat)
    requires b >= 1 && i + b < |s| && s[i + b] == 1
    ensures Sum(s[i := s[i] + Pow2(b)][i + b := 0], 1, |s|) == Sum(s, 1, |s|)
    ensures Sum(s[i := s[i] + Pow2(b)][i + b := 0], 1, i) == Sum(s, 1, i)
  {
    var t := s[i := s[i] + Pow2(b)];
    PowAdd2(b, i);
    SumUpdate(s, 1, i, s[i] + Pow2(b), |s|);
    SumUpdate(t, 1, i + b, 0, |s|);
    SumSame(s, t[i + b := 0], 1, i);
  }

  lemma {:induction false} GatherOne(s: seq<int>, v: int, i: nat, b: nat)
    requires Gathering(s, v, i, b) && b <= 3 && i + b < |s| && s[i + b] == 1
    ensures Gathering(s[i := s[i] + Pow2(b)][i + b := 0], v, i, b + 1)
  {
    MoveDown(s, i, b);
    SmallPowers();
    assert b == 1 || b == 2 || b == 3;
    GatherShapeOne(s, i, b, Pow2(b));
  }

  lemma {:induction false} GatherShapeOne(s: seq<int>, i: nat, b: nat, p: int)
    requires i < |s| && GatheringShape(s, i, b) && b <= 3 && i + b < |s| && s[i + b] == 1
    requires p == Pow2(b) && p % 2 == 0 && p <= 8
    ensures GatheringShape(s[i := s[i] + p][i + b := 0], i, b + 1)
  {
    assert Pow2(b + 1) == 2 * p;
  }

  lemma {:induction false} Borrow(s: seq<int>, v: int, i: nat)
    requires Gathering(s, v, i, 4) && i + 4 < |s| && s[i + 4] == 1
    ensures s[i] - 16 >= -15 && Carrying(s[i := s[i] - 16], v, i, 4, i + 4)
  {
    SmallPowers();
    BorrowValue(s, i);
  }

  lemma {:induction false} BorrowValue(s: seq<int>, i: nat)
    requires i < |s|
    ensures Sum(s[i := s[i] - 16], 1, |s|) == Sum(s, 1, |s|) - Pow2(i + 4)
    ensures Sum(s[i := s[i] - 16], 1, i) == Sum(s, 1, i)
  {
    PowFive(i);
    SumUpdate(s, 1, i, s[i] - 16, |s|);
    SumSame(s, s[i := s[i] - 16], 1, i);
  }

  /** Places one to three are always taken up, place four is borrowed against, and the others are too far away. */
  lemma {:induction false} Choice(s: seq<int>, v: int, i: nat, b: nat)
    requires Gathering(s, v, i, b) && b <= 6
    ensures s[i] + Pow2(b) <= 15 <==> b <= 3
    ensures b > 3 ==> (s[i] - Pow2(b) >= -15 <==> b == 4)
    ensures b == 4 ==> Pow2(b) == 16
  {
    SmallPowers();
    if b > 4 {
      PowMono(5, b);
      PowFive(0);
    }
  }

  lemma {:induction false} CarryOn(s: seq<int>, v: int, i: nat, k: nat)
    requires Carrying(s, v, i, 4, k) && k < |s| && s[k] == 1
    ensures Carrying(s[k := 0], v, i, 4, k + 1)
  {
    SumUpdate(s, 1, k, 0, |s|);
    SumSame(s, s[k := 0], 1, i);
  }

  lemma {:induction false} CarryEnds(s: seq<int>, v: int, i: nat, k: nat)
    requires Carrying(s, v, i, 4, k) && i + 4 < k < |s| && s[k] == 0
    ensures Gathering(s[k := 1], v, i, 5)
  {
    SumUpdate(s, 1, k, 1, |s|);
    SumSame(s, s[k := 1], 1, i);
  }

  method Put(r: array<int>, k: nat, x: int)
    requires k < r.Length
    modifies r
    ensures r[..] == old(r[..])[k := x]
  {
    r[k] := x;
  }

  method ToArray(s: seq<int>) returns (r: array<int>)
    ensures fresh(r) && r[..] == s && r.Length == |s|
  {
    r := new int[|s|](i requires 0 <= i < |s| => s[i]);
  }

  /** The carry loop: adds one at place from, in binary. */
  method CarryInto(r: array<int>, from: nat, ghost v: int, ghost i: nat)
    requires from == i + 4 < r.Length && r[from] == 1 && 0 <= 2 * v < Pow2(r.Length)
    requires Carrying(r[..], v, i, 4, from)
    modifies r
    ensures Gathering(r[..], v, i, 5)
  {
    var k := from;
    CarryStays(r[..], v, i, k);
    while r[k] != 0
      invariant from <= k < r.Length && Carrying(r[..], v, i, 4, k)
      invariant k == from ==> r[k] == 1
      decreases r.Length - k
    {
      CarryOn(r[..], v, i, k);
      Put(r, k, 0);
      k := k + 1;
      CarryStays(r[..], v, i, k);
    }
    CarryEnds(r[..], v, i, k);
    Put(r, k, 1);
  }

  /** Treats the bit at place i + b: takes it up, borrows against it, or finds that it is too far away. */
  method TakeUp(r: array<int>, i: nat, b: nat, shifted: int, ghost v: int) returns (stop: bool)
    requires b <= 6 && i + b < r.Length && shifted == Pow2(b) && Gathering(r[..], v, i, b)
    requires r[i + b] == 1 && 0 <= 2 * v < Pow2(r.Length)
    modifies r
    ensures if stop then b > 4 && Gathering(r[..], v, i, b) else Gathering(r[..], v, i, b + 1)
  {
    ghost var s := r[..];
    stop := false;
    Choice(s, v, i, b);
    if r[i] + shifted <= 15 {
      GatherOne(s, v, i, b);
      Put(r, i, r[i] + shifted);
      Put(r, i + b, 0);
    } else if r[i] - shifted < -15 {
      stop := true;
    } else {
      Borrow(s, v, i);
      Put(r, i, r[i] - shifted);
      CarryInto(r, i + b, v, i);
    }
  }

  /** The inner loop: place i takes up the bits behind it as long as it stays within 15. */
  method Gather(r: array<int>, i: nat, ghost v: int)
    requires i < r.Length && Gathering(r[..], v, i, 1) && 0 <= 2 * v < Pow2(r.Length)
    modifies r
    ensures Sliding(r[..], v, i + 1, i + 5)
  {
    var b: nat, shifted, stop := 1, 2, false;
    while !stop && b <= 6 && i + b < r.Length
      invariant 1 <= b <= 7 && shifted == Pow2(b) && Gathering(r[..], v, i, b)
      invariant stop ==> b > 4
      decreases 7 - b, !stop
    {
      if r[i + b] != 0 {
        stop := TakeUp(r, i, b, shifted, v);
      }
      if !stop {
        b := b + 1;
        shifted := 2 * shifted;
      }
    }
    Gathered(r[..], v, i, b);
  }

  /** A top byte without its highest bit leaves room for a carry. */
  lemma {:induction false} TopBitFree(a: seq<int>)
    requires Below(a, 256) && a != [] && a[|a| - 1] <= 127
    ensures 2 * Value(a) < Pow2(8 * |a|)
    decreases |a|
  {
    var n := 8 * |a[1..]|;
    PowStep(n);
    if |a| > 1 {
      TopBitFree(a[1..]);
    }
  }

  lemma {:induction false} SlideStart(a: seq<int>)
    requires Below(a, 256) && a != [] && a[|a| - 1] <= 127
    ensures Sliding(Stream(8, a), Value(a), 0, 0) && 2 * Value(a) < Pow2(8 * |a|)
  {
    BitsValue(a);
    TopBitFree(a);
  }

  /** The outer loop, place by place. */
  method SlideBits(r: array<int>, ghost v: int)
    requires Sliding(r[..], v, 0, 0) && 0 <= 2 * v < Pow2(r.Length)
    modifies r
    ensures Sum(r[..], 1, r.Length) == v && forall k :: 0 <= k < r.Length ==> WindowDigit(r[k])
  {
    ghost var clear: nat := 0;
    var i := 0;
    while i < r.Length
      invariant 0 <= i <= r.Length && Sliding(r[..], v, i, clear)
    {
      if r[i] == 0 {
        Skip(r[..], v, i, clear);
      } else {
        StartGathering(r[..], v, i, clear);
        Gather(r, i, v);
        clear := i + 5;
      }
      i := i + 1;
    }
  }

  /**
    The sliding-window recoding in place. For scalars whose top bit is clear it keeps the value and
    leaves only window digits.
   */
  method Slide(a: seq<int>) returns (r: array<int>)
    requires Below(a, 256) && a != [] && a[|a| - 1] <= 127
    ensures fresh(r) && r.Length == 8 * |a| && Sum(r[..], 1, r.Length) == Value(a)
    ensures forall k :: 0 <= k < r.Length ==> WindowDigit(r[k])
  {
    SlideStart(a);
    r := ToArray(Stream(8, a));
    SlideBits(r, Value(a));
  }

  // ----- signed radix 16

  /** The half-bytes of a, low ones first. */
  function Nibbles(a: seq<int>): (s: seq<int>)
    requires Below(a, 256)
    ensures |s| == 2 * |a|
    ensures forall k :: 0 <= k < |a| ==> s[2 * k] == a[k] % 16 && s[2 * k + 1] == a[k] / 16
  {
    if a == [] then [] else [a[0] % 16, a[0] / 16] + Nibbles(a[1..])
  }

  lemma {:induction false} NibblesValue(a: seq<int>)
    requires Below(a, 256)
    ensures Sum(Nibbles(a), 4, 2 * |a|) == Value(a)
    decreases |a|
  {
    if a != [] {
      var s := Nibbles(a);
      SmallPowers();
      NibblesValue(a[1..]);
      SumShift(s, 4, 2 * |a|);
      SumShift(s[1..], 4, 2 * |a| - 1);
      assert s[1..][1..] == Nibbles(a[1..]);
    }
  }

  /** Digits below i are between -8 and 7, the others still half-bytes, and a carry is due at place i. */
  ghost predicate Recoding(s: seq<int>, v: int, i: nat, carry: int) {
    && i < |s| && 0 <= carry <= 1 && Sum(s, 4, |s|) + carry * Pow2(4 * i) == v
    && (forall k :: 0 <= k < i ==> -8 <= s[k] <= 7)
    && (forall k :: i <= k < |s| ==> 0 <= s[k] <= 15) && s[|s| - 1] <= 7
  }

  lemma {:induction false} RecodeOne(s: seq<int>, v: int, i: nat, carry: int, d: int, c: int)
    requires Recoding(s, v, i, carry) && i < |s| - 1 && d == s[i] + carry && c == (d + 8) / 16
    ensures Recoding(s[i := d - c * 16], v, i + 1, c)
  {
    SumUpdate(s, 4, i, d - c * 16, |s|);
    PowFive(4 * i);
    assert 4 * i + 4 == 4 * (i + 1);
    NextCarry(carry, c, Pow2(4 * i));
    assert (d - c * 16 - s[i]) == carry - c * 16;
  }

  /** All digits are between -8 and 8. */
  predicate Signed16(s: seq<int>) {
    forall k :: 0 <= k < |s| ==> -8 <= s[k] <= 8
  }

  lemma {:induction false} RecodeLast(s: seq<int>, v: int, i: nat, carry: int)
    requires Recoding(s, v, i, carry) && i == |s| - 1
    ensures Sum(s[i := s[i] + carry], 4, |s|) == v && Signed16(s[i := s[i] + carry])
  {
    SumUpdate(s, 4, i, s[i] + carry, |s|);
  }

  lemma {:induction false} NextCarry(carry: int, c: int, p: int)
    ensures (carry - c * 16) * p + c * (16 * p) == carry * p
  {
  }

  /** The signed recoding in place: two digits between -8 and 8 for every byte, with the same value. */
  method Radix16(a: seq<int>) returns (e: array<int>)
    requires Below(a, 256) && a != [] && a[|a| - 1] <= 127
    ensures fresh(e) && e.Length == 2 * |a| && Sum(e[..], 4, e.Length) == Value(a)
    ensures Signed16(e[..])
  {
    var n := 2 * |a|;
    e := ToArray(Nibbles(a));
    RecodeStart(a);
    ghost var v := Value(a);
    var i, carry: int := 0, 0;
    while i < n - 1
      invariant 0 <= i < n && Recoding(e[..], v, i, carry)
    {
      var d := e[i] + carry;
      RecodeOne(e[..], v, i, carry, d, (d + 8) / 16);
      carry := (d + 8) / 16;
      Put(e, i, d - carry * 16);
      i := i + 1;
    }
    RecodeLast(e[..], v, i, carry);
    Put(e, n - 1, e[n - 1] + carry);
  }

  lemma {:induction false} RecodeStart(a: seq<int>)
    requires Below(a, 256) && a != [] && a[|a| - 1] <= 127
    ensures Recoding(Nibbles(a), Value(a), 0, 0)
  {
    NibblesValue(a);
    NibblesSmall(a);
  }

  lemma {:induction false} NibblesSmall(a: seq<int>)
    requires Below(a, 256)
    ensures forall k :: 0 <= k < 2 * |a| ==> 0 <= Nibbles(a)[k] <= 15
    ensures a != [] && a[|a| - 1] <= 127 ==> Nibbles(a)[2 * |a| - 1] <= 7
  {
    if a != [] {
      assert Nibbles(a)[2 * (|a| - 1) + 1] == a[|a| - 1] / 16;
    }
    forall k | 0 <= k < 2 * |a| ensures 0 <= Nibbles(a)[k] <= 15 {
      assert k == 2 * (k / 2) || k == 2 * (k / 2) + 1;
      var j := k / 2;
      assert Nibbles(a)[2 * j] == a[j] % 16 && Nibbles(a)[2 * j + 1] == a[j] / 16;
    }
  }
}
