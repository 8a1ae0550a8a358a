/**
  The in-place transform loops of the Dilithium code. Each is proved to leave exactly the value of
  the recursive description in the array, with every intermediate inside its machine integer.
 */
module DilithiumNttLoops {
  import opened MachineInts
  import opened CoefficientBounds
  import opened PolyRing
  import opened NttTheory
  import opened NttLayers
  import opened DilithiumParams
  import opened DilithiumReduce
  import opened DilithiumZetas
  import opened DilithiumNtt

  lemma {:induction false} ZetaBound(k: int)
    ensures -Q < Zeta(k) < Q
  {
  }

  lemma {:induction false} TwiddleBound(k: int, x: int)
    requires -0x8000_0000 <= x <= 0x8000_0000
    ensures InInt64(Zeta(k) * x) && -Q < FORWARD(k, x) < Q
  {
    ZetaBound(k);
    ReducedProductBound(Zeta(k), x);
  }

  lemma {:induction false} InverseTwiddleBound(k: int, x: int)
    requires -0x8000_0000 <= x <= 0x8000_0000
    ensures InInt64(-Zeta(k) * x) && -Q < INVERSE(k, x) < Q
  {
    ZetaBound(k);
    ReducedProductBound(-Zeta(k), x);
  }

  lemma {:induction false} ReducedProductBound(a: int, x: int)
    requires -Q < a < Q && -0x8000_0000 <= x <= 0x8000_0000
    ensures InInt64(a * x) && -Q < MontgomeryReduce(a * x) < Q
  {
    ProductBound(a, Q - 1, x, 0x8000_0000);
    MontgomeryBound(a * x);
  }

  /** A layer adds less than Q to the bound. */
  lemma {:induction false} BoundedButterflies(s: Poly, s': Poly, o: nat, h: nat, k: int, bound: int)
    requires o + 2 * h <= |s| == |s'| && 0 <= bound <= 0x7fff_ffff - Q
    requires Bounded(Slice(s, o, 2 * h), bound) && Stepped(FORWARD, s, s', o, h, k)
    ensures Bounded(Slice(s', o, 2 * h), bound + Q)
  {
    var x, x' := Slice(s, o, 2 * h), Slice(s', o, 2 * h);
    forall i | 0 <= i < 2 * h ensures -bound - Q <= x'[i] <= bound + Q {
      var j := if i < h then i else i - h;
      TwiddleBound(k, x[j + h]);
      assert x'[i] == if i < h then x[j] + FORWARD(k, x[j + h]) else x[j] - FORWARD(k, x[j + h]);
    }
  }

  /** The inner loop of the forward transform: the butterflies of one node. */
  method Butterflies(a: array<int>, start: nat, len: nat, k: int, ghost bound: int)
    requires start + 2 * len <= a.Length && 0 <= bound <= 0x7fff_ffff - Q
    requires Bounded(Slice(a[..], start, 2 * len), bound)
    modifies a
    ensures Stepped(FORWARD, old(a[..]), a[..], start, len, k)
    ensures a[..start] == old(a[..start]) && a[start + 2 * len..] == old(a[start + 2 * len..])
  {
    ghost var s := a[..];
    var zeta := Zeta(k);
    var j := start;
    while j < start + len
      invariant start <= j <= start + len
      invariant SteppedTo(FORWARD, s, a[..], start, len, k, j)
    {
      ghost var before := a[..];
      assert a[j] == s[j] && a[j + len] == s[j + len];
      assert s[j] == Slice(s, start, 2 * len)[j - start] && s[j + len] == Slice(s, start, 2 * len)[j + len - start];
      TwiddleBound(k, s[j + len]);
      var t := MontgomeryReduce(Int64(zeta * a[j + len]));
      assert t == FORWARD(k, s[j + len]);
      a[j + len] := Int32(a[j] - t);
      a[j] := Int32(a[j] + t);
      StepButterfly(FORWARD, s, before, a[..], start, len, k, j);
      j := j + 1;
    }
    ButterfliesDone(FORWARD, s, a[..], start, len, k);
  }

  lemma {:induction false} LayerBounded(s: Poly, s': Poly, h: nat, nb: nat, bound: int)
    requires h > 0 && |s| == |s'| == nb * (2 * h) && 0 <= bound <= 0x7fff_ffff - Q && Bounded(s, bound)
    requires forall b: nat | b < nb :: BlockStepped(FORWARD, s, s', h, nb, b)
    ensures Bounded(s', bound + Q)
  {
    forall b: nat | b < nb ensures b * (2 * h) + 2 * h <= |s| && Bounded(Slice(s', b * (2 * h), 2 * h), bound + Q) {
      BlockFits(b, 2 * h, nb);
      BlockBounded(s, s, b * (2 * h), 2 * h, bound);
      assert BlockStepped(FORWARD, s, s', h, nb, b);
      BoundedButterflies(s, s', b * (2 * h), h, nb + b, bound);
    }
    AllBounded(s', 2 * h, nb, bound + Q);
  }

  /** One block of a layer. */
  method LayerBlock(a: array<int>, start: nat, len: nat, k: int, ghost s: Poly, ghost nb: nat, ghost b: nat,
      ghost bound: int)
    requires len > 0 && a.Length == |s| == nb * (2 * len) && start < a.Length && k == nb + b
    requires 0 <= bound <= 0x7fff_ffff - Q && Bounded(s, bound) && SteppedBelow(FORWARD, s, a[..], len, nb, b, start)
    modifies a
    ensures b < nb && start + 2 * len <= a.Length
    ensures SteppedBelow(FORWARD, s, a[..], len, nb, b + 1, start + 2 * len)
  {
    BlockIn(b, 2 * len, nb, start);
    ghost var s' := a[..];
    BlockBounded(s, s', start, 2 * len, bound);
    Butterflies(a, start, len, k, bound);
    SteppedNext(FORWARD, s, s', a[..], len, nb, b, start);
  }

  /** The middle loop: one layer of nb blocks, each with its own zeta. */
  method Layer(a: array<int>, len: nat, k: int, ghost nb: nat, ghost bound: int) returns (k': int)
    requires len > 0 && a.Length == nb * (2 * len) && k == nb - 1 && 0 <= bound <= 0x7fff_ffff - Q
    requires Bounded(a[..], bound)
    modifies a
    ensures forall b: nat | b < nb :: BlockStepped(FORWARD, old(a[..]), a[..], len, nb, b)
    ensures Bounded(a[..], bound + Q) && k' == 2 * nb - 1
  {
    ghost var s := a[..];
    ghost var b := 0;
    var start := 0;
    k' := k;
    while start < a.Length
      invariant 0 <= b <= nb && k' == k + b
      invariant SteppedBelow(FORWARD, s, a[..], len, nb, b, start)
      decreases a.Length - start
    {
      k' := k' + 1;
      LayerBlock(a, start, len, k', s, nb, b, bound);
      start := start + 2 * len;
      b := b + 1;
    }
    AllBlocks(b, 2 * len, nb, start);
    LayerBounded(s, a[..], len, nb, bound);
  }

  /** The forward transform in place. Coefficients below Q stay below 9Q. */
  method NttInPlace(a: array<int>)
    requires a.Length == N && Bounded(a[..], Q - 1)
    modifies a
    ensures a[..] == PolyNtt(old(a[..]))
    ensures Bounded(a[..], 9 * Q - 1)
  {
    HalvesN();
    ghost var final := PolyNtt(a[..]);
    ghost var t: nat, nb: nat, bound := 8, 1, Q - 1;
    var k, len: nat := 0, N / 2;
    WholeFinishes(a[..], final);
    while len > 0
      invariant len > 0 ==> Shape(t, nb, len)
      invariant len == 0 ==> t == 0 && nb == N
      invariant k == nb - 1 && bound == (9 - t) * Q - 1
      invariant AllFinish(FORWARD, a[..], final, if len == 0 then 1 else 2 * len, nb, t)
      invariant Bounded(a[..], bound)
    {
      ghost var s := a[..];
      NextShape(t, nb, len);
      k := Layer(a, len, k, nb, bound);
      LayerFinishes(FORWARD, s, a[..], final, len, nb, t);
      t, nb, bound := t - 1, 2 * nb, bound + Q;
      len := len / 2;
    }
    Finished(FORWARD, a[..], final, 1, N);
  }

  lemma {:induction false} WholeFinishes(s: Poly, final: Poly)
    requires |s| == N && final == PolyNtt(s)
    ensures AllFinish(FORWARD, s, final, N, 1, 8)
  {
    HalvesN();
    forall b: nat | b < 1 ensures BlockFinishes(FORWARD, s, final, N, 1, 8, b) {
      assert Slice(s, 0, N) == s && Slice(final, 0, N) == final;
    }
  }

  /** t levels remain: nb blocks of 2 * len coefficients. */
  predicate Shape(t: nat, nb: nat, len: nat) {
    match t
    case 8 => nb == 1 && len == 128
    case 7 => nb == 2 && len == 64
    case 6 => nb == 4 && len == 32
    case 5 => nb == 8 && len == 16
    case 4 => nb == 16 && len == 8
    case 3 => nb == 32 && len == 4
    case 2 => nb == 64 && len == 2
    case 1 => nb == 128 && len == 1
    case _ => false
  }

  lemma {:induction false} NextShape(t: nat, nb: nat, len: nat)
    requires Shape(t, nb, len)
    ensures 1 <= t <= 8 && nb * (2 * len) == N
    ensures t > 1 ==> Shape(t - 1, 2 * nb, len / 2) && 2 * (len / 2) == len
    ensures t == 1 ==> len == 1 && nb == 128
  {
  }

  // ----- inverse

  lemma {:induction false} BoundedJoins(s: Poly, s': Poly, o: nat, h: nat, m: int, bound: int)
    requires o + 2 * h <= |s| == |s'| && Q <= bound <= 0x3fff_ffff
    requires Bounded(Slice(s, o, 2 * h), bound) && Joined(INVERSE, SUM, s, s', o, h, m)
    ensures Bounded(Slice(s', o, 2 * h), 2 * bound)
  {
    forall x {:trigger INVERSE(m, x)} | -2 * bound <= x <= 2 * bound ensures -2 * bound <= INVERSE(m, x) <= 2 * bound {
      InverseTwiddleBound(m, x);
    }
    BoundedJoined(INVERSE, SUM, s, s', o, h, m, bound, 2 * bound);
  }

  /** The inner loop of the inverse transform. */
  method Joins(a: array<int>, start: nat, len: nat, k: int, ghost bound: int)
    requires start + 2 * len <= a.Length && Q <= bound <= 0x3fff_ffff
    requires Bounded(Slice(a[..], start, 2 * len), bound)
    modifies a
    ensures Joined(INVERSE, SUM, old(a[..]), a[..], start, len, k)
    ensures a[..start] == old(a[..start]) && a[start + 2 * len..] == old(a[start + 2 * len..])
  {
    ghost var s := a[..];
    var zeta := -Zeta(k);
    var j := start;
    while j < start + len
      invariant start <= j <= start + len
      invariant JoinedTo(INVERSE, SUM, s, a[..], start, len, k, j)
    {
      ghost var before := a[..];
      assert a[j] == s[j] && a[j + len] == s[j + len];
      assert s[j] == Slice(s, start, 2 * len)[j - start] && s[j + len] == Slice(s, start, 2 * len)[j + len - start];
      InverseTwiddleBound(k, s[j] - s[j + len]);
      var t := a[j];
      a[j] := Int32(t + a[j + len]);
      a[j + len] := Int32(t - a[j + len]);
      a[j + len] := MontgomeryReduce(Int64(zeta * a[j + len]));
      assert a[j + len] == INVERSE(k, s[j] - s[j + len]);
      StepJoin(INVERSE, SUM, s, before, a[..], start, len, k, j);
      j := j + 1;
    }
    JoinsDone(INVERSE, SUM, s, a[..], start, len, k);
  }

  lemma {:induction false} JoinsBounded(s: Poly, s': Poly, h: nat, nb: nat, bound: int)
    requires h > 0 && |s| == |s'| == nb * (2 * h) && Q <= bound <= 0x3fff_ffff && Bounded(s, bound)
    requires forall b: nat | b < nb :: BlockJoined(INVERSE, SUM, s, s', h, nb, b)
    ensures Bounded(s', 2 * bound)
  {
    forall b: nat | b < nb ensures b * (2 * h) + 2 * h <= |s| && Bounded(Slice(s', b * (2 * h), 2 * h), 2 * bound) {
      BlockFits(b, 2 * h, nb);
      BlockBounded(s, s, b * (2 * h), 2 * h, bound);
      assert BlockJoined(INVERSE, SUM, s, s', h, nb, b);
      BoundedJoins(s, s', b * (2 * h), h, 2 * nb - 1 - b, bound);
    }
    AllBounded(s', 2 * h, nb, 2 * bound);
  }

  /** The middle loop of the inverse transform: nb blocks, the table read backwards. */
  method InverseLayer(a: array<int>, len: nat, k: int, ghost nb: nat, ghost bound: int) returns (k': int)
    requires len > 0 && a.Length == nb * (2 * len) && k == 2 * nb && Q <= bound <= 0x3fff_ffff
    requires Bounded(a[..], bound)
    modifies a
    ensures forall b: nat | b < nb :: BlockJoined(INVERSE, SUM, old(a[..]), a[..], len, nb, b)
    ensures Bounded(a[..], 2 * bound) && k' == nb
  {
    ghost var s := a[..];
    ghost var b := 0;
    var start := 0;
    k' := k;
    while start < a.Length
      invariant 0 <= b <= nb && k' == k - b
      invariant JoinedBelow(INVERSE, SUM, s, a[..], len, nb, b, start)
      decreases a.Length - start
    {
      BlockIn(b, 2 * len, nb, start);
      ghost var s' := a[..];
      BlockBounded(s, s', start, 2 * len, bound);
      k' := k' - 1;
      Joins(a, start, len, k', bound);
      ghost var s'' := a[..];
      JoinedNext(INVERSE, SUM, s, s', s'', len, nb, b, start);
      start := start + 2 * len;
      b := b + 1;
    }
    AllBlocks(b, 2 * len, nb, start);
    JoinsBounded(s, a[..], len, nb, bound);
  }

  /** The inverse transform in place: sums grow to at most 256Q, and the last loop brings them below Q. */
  method InvNttInPlace(a: array<int>)
    requires a.Length == N && Bounded(a[..], Q - 1)
    modifies a
    ensures a[..] == PolyInvNtt(old(a[..]))
    ensures Bounded(a[..], Q - 1)
  {
    HalvesN();
    ghost var start := a[..];
    ghost var t: nat, nb: nat := 0, N;
    var k, len: nat := N, 1;
    SinglesInverted(start);
    while len < N
      invariant k == nb && Inverting(a[..], start, t, nb, len)
      decreases N - len
    {
      k := InverseStep(a, len, k, nb, t, start);
      t, nb, len := t + 1, nb / 2, 2 * len;
    }
    AllDone(a[..], start, t, nb, len);
    ScaleInPlace(a);
  }

  /** After t layers: blocks of len coefficients are inverted and stay below len Q. */
  ghost predicate Inverting(s: Poly, start: Poly, t: nat, nb: nat, len: nat) {
    && |s| == |start| == N && Bounded(s, len * Q) && AllInverted(INVERSE, SUM, s, start, len, nb, t)
    && if len < N then Shape(t + 1, nb / 2, len) && nb % 2 == 0 else t == 8 && nb == 1 && len == N
  }

  lemma {:induction false} AllDone(s: Poly, start: Poly, t: nat, nb: nat, len: nat)
    requires Inverting(s, start, t, nb, len) && len >= N
    ensures Halves(N, 8) && s == CodeInvNtt(INVERSE, SUM, start, 1, 8) && Bounded(s, N * Q)
  {
    HalvesN();
    assert BlockInverted(INVERSE, SUM, s, start, N, 1, 8, 0);
    assert Slice(s, 0, N) == s && Slice(start, 0, N) == start;
  }

  /** One layer of the inverse transform. */
  method InverseStep(a: array<int>, len: nat, k: int, ghost nb: nat, ghost t: nat, ghost start: Poly) returns (k': int)
    requires len < N && k == nb && Inverting(a[..], start, t, nb, len)
    modifies a
    ensures k' == nb / 2 && Inverting(a[..], start, t + 1, nb / 2, 2 * len)
  {
    ghost var s := a[..];
    NextInverseShape(t, nb, len);
    k' := InverseLayer(a, len, k, nb / 2, len * Q);
    LayerInverts(INVERSE, SUM, s, a[..], start, len, nb / 2, t);
  }

  lemma {:induction false} SinglesInverted(s: Poly)
    requires |s| == N
    ensures AllInverted(INVERSE, SUM, s, s, 1, N, 0)
  {
    forall b: nat | b < N ensures BlockInverted(INVERSE, SUM, s, s, 1, N, 0, b) { }
  }

  lemma {:induction false} NextInverseShape(t: nat, nb: nat, len: nat)
    requires nb % 2 == 0 && Shape(t + 1, nb / 2, len)
    ensures t <= 7 && nb / 2 * (2 * len) == N && len <= 128 && len * Q <= 0x3fff_ffff
    ensures t < 7 ==> Shape(t + 2, nb / 2 / 2, 2 * len) && nb / 2 % 2 == 0 && 2 * len < N
    ensures t == 7 ==> len == 128 && nb == 2
  {
  }

  /** The closing loop of the inverse transform. */
  method ScaleInPlace(a: array<int>)
    requires Bounded(a[..], 0x8000_0000)
    modifies a
    ensures a[..] == MontScale(MONT_F, old(a[..]))
    ensures Bounded(a[..], Q - 1)
  {
    ghost var s := a[..];
    var j := 0;
    while j < a.Length
      invariant 0 <= j <= a.Length
      invariant forall i :: 0 <= i < j ==> a[i] == MontgomeryReduce(MONT_F * s[i]) && -Q < a[i] < Q
      invariant forall i :: j <= i < a.Length ==> a[i] == s[i]
    {
      ReducedProductBound(MONT_F, s[j]);
      a[j] := MontgomeryReduce(Int64(MONT_F * a[j]));
      j := j + 1;
    }
  }
}
