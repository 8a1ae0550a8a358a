/**
  The in-place transform loops of the Kyber code, in 16-bit words: they leave exactly the value of the
  recursive description in the array, and no sum or product leaves its machine integer.
 */
module KyberNttLoops {
  import opened MachineInts
  import opened PolyRing
  import opened NttTheory
  import opened NttLayers
  import opened CoefficientBounds
  import opened KyberParams
  import opened KyberReduce
  import opened KyberZetas
  import opened KyberNtt

  lemma {:induction false} ReducedProductBound(a: int, x: int)
    requires -1664 <= a <= 1664 && -0x8000 <= x <= 0x8000
    ensures InInt32(a * x) && -Q < MontgomeryReduce(a * x) < Q
  {
    ProductBound(a, 1664, x, 0x8000);
    MontgomeryBound(a * x);
  }

  lemma {:induction false} TwiddleBound(k: int, x: int)
    requires -0x7fff <= x <= 0x7fff
    ensures InInt32(Zeta(k) * x) && -Q < FORWARD(k, x) < Q
  {
    ZetaSmall(k);
    ReducedProductBound(Zeta(k), x);
  }

  lemma {:induction false} InverseTwiddleBound(k: int, x: int)
    requires -0x7fff <= x <= 0x7fff
    ensures InInt32(Zeta(k) * -x) && -Q < INVERSE(k, x) < Q
  {
    ZetaSmall(k);
    ReducedProductBound(Zeta(k), -x);
  }

  // ----- forward

  /** A layer adds less than Q to the bound. */
  lemma {:induction false} BoundedButterflies(s: Poly, s': Poly, o: nat, h: nat, k: int, bound: int)
    requires o + 2 * h <= |s| == |s'| && 0 <= bound <= 0x7fff - Q
    requires Bounded(Slice(s, o, 2 * h), bound) && Stepped(FORWARD, s, s', o, h, k)
    ensures Bounded(Slice(s', o, 2 * h), bound + Q)
  {
    var x, x' := Slice(s, o, 2 * h), Slice(s', o, 2 * h);
    forall i | 0 <= i < 2 * h ensures -bound - Q <= x'[i] <= bound + Q {
      var j := if i < h then i else i - h;
      TwiddleBound(k, x[j + h]);
      assert x'[i] == if i < h then x[j] + FORWARD(k, x[j + h]) else x[j] - FORWARD(k, x[j + h]);
    }
  }

  /** The inner loop: the butterflies of one node. */
  method Butterflies(a: array<int>, start: nat, len: nat, k: int, ghost bound: int)
    requires start + 2 * len <= a.Length && 0 <= bound <= 0x7fff - Q
    requires Bounded(Slice(a[..], start, 2 * len), bound)
    modifies a
    ensures Stepped(FORWARD, old(a[..]), a[..], start, len, k)
    ensures a[..start] == old(a[..start]) && a[start + 2 * len..] == old(a[start + 2 * len..])
  {
    ghost var s := a[..];
    var zeta := Zeta(k);
    var j := start;
    while j < start + len
      invariant start <= j <= start + len
      invariant SteppedTo(FORWARD, s, a[..], start, len, k, j)
    {
      ghost var before := a[..];
      assert a[j] == s[j] && a[j + len] == s[j + len];
      assert s[j] == Slice(s, start, 2 * len)[j - start] && s[j + len] == Slice(s, start, 2 * len)[j + len - start];
      TwiddleBound(k, s[j + len]);
      var t := MontgomeryReduce(Int32(zeta * a[j + len]));
      assert t == FORWARD(k, s[j + len]);
      a[j + len] := Int16(a[j] - t);
      a[j] := Int16(a[j] + t);
      StepButterfly(FORWARD, s, before, a[..], start, len, k, j);
      j := j + 1;
    }
    ButterfliesDone(FORWARD, s, a[..], start, len, k);
  }

  lemma {:induction false} LayerBounded(s: Poly, s': Poly, h: nat, nb: nat, bound: int)
    requires h > 0 && |s| == |s'| == nb * (2 * h) && 0 <= bound <= 0x7fff - Q && Bounded(s, bound)
    requires forall b: nat | b < nb :: BlockStepped(FORWARD, s, s', h, nb, b)
    ensures Bounded(s', bound + Q)
  {
    forall b: nat | b < nb ensures b * (2 * h) + 2 * h <= |s| && Bounded(Slice(s', b * (2 * h), 2 * h), bound + Q) {
      BlockFits(b, 2 * h, nb);
      BlockBounded(s, s, b * (2 * h), 2 * h, bound);
      assert BlockStepped(FORWARD, s, s', h, nb, b);
      BoundedButterflies(s, s', b * (2 * h), h, nb + b, bound);
    }
    AllBounded(s', 2 * h, nb, bound + Q);
  }

  /** The middle loop: one layer of nb blocks, each with its own zeta. */
  method Layer(a: array<int>, len: nat, k: int, ghost nb: nat, ghost bound: int) returns (k': int)
    requires len > 0 && a.Length == nb * (2 * len) && k == nb && 0 <= bound <= 0x7fff - Q
    requires Bounded(a[..], bound)
    modifies a
    ensures forall b: nat | b < nb :: BlockStepped(FORWARD, old(a[..]), a[..], len, nb, b)
    ensures Bounded(a[..], bound + Q) && k' == 2 * nb
  {
    ghost var s := a[..];
    ghost var b := 0;
    var start := 0;
    k' := k;
    while start < a.Length
      invariant 0 <= b <= nb && k' == k + b
      invariant SteppedBelow(FORWARD, s, a[..], len, nb, b, start)
      decreases a.Length - start
    {
      BlockIn(b, 2 * len, nb, start);
      ghost var s' := a[..];
      BlockBounded(s, s', start, 2 * len, bound);
      Butterflies(a, start, len, k', bound);
      k' := k' + 1;
      ghost var s'' := a[..];
      SteppedNext(FORWARD, s, s', s'', len, nb, b, start);
      start := start + 2 * len;
      b := b + 1;
    }
    AllBlocks(b, 2 * len, nb, start);
    LayerBounded(s, a[..], len, nb, bound);
  }

  /** t levels remain: nb blocks of 2 * len coefficients. */
  predicate Shape(t: nat, nb: nat, len: nat) {
    match t
    case 7 => nb == 1 && len == 128
    case 6 => nb == 2 && len == 64
    case 5 => nb == 4 && len == 32
    case 4 => nb == 8 && len == 16
    case 3 => nb == 16 && len == 8
    case 2 => nb == 32 && len == 4
    case 1 => nb == 64 && len == 2
    case 0 => nb == 128 && len == 1
    case _ => false
  }

  lemma {:induction false} NextShape(t: nat, nb: nat, len: nat)
    requires Shape(t, nb, len) && len >= 2
    ensures 1 <= t <= 7 && nb * (2 * len) == N && 2 * (len / 2) == len && Shape(t - 1, 2 * nb, len / 2)
  {
  }

  lemma {:induction false} WholeFinishes(s: Poly, final: Poly)
    requires |s| == N && final == NttCore(s)
    ensures AllFinish(FORWARD, s, final, N, 1, 7)
  {
    HalvesN();
    forall b: nat | b < 1 ensures BlockFinishes(FORWARD, s, final, N, 1, 7, b) {
      assert Slice(s, 0, N) == s && Slice(final, 0, N) == final;
    }
  }

  /**
    The layers in place. Coefficients within 9463 of zero stay inside 16 bits; this includes all that
    the source transforms.
   */
  method NttInPlace(a: array<int>)
    requires a.Length == N && Bounded(a[..], 0x7fff - 7 * Q)
    modifies a
    ensures a[..] == NttCore(old(a[..]))
    ensures Bounded(a[..], 0x7fff)
  {
    ghost var final := NttCore(a[..]);
    ghost var t: nat, nb: nat, bound := 7, 1, 0x7fff - 7 * Q;
    var k, len: nat := 1, N / 2;
    WholeFinishes(a[..], final);
    while len >= 2
      invariant Shape(t, nb, len) && k == nb && bound == 0x7fff - t * Q
      invariant AllFinish(FORWARD, a[..], final, 2 * len, nb, t)
      invariant Bounded(a[..], bound)
    {
      ghost var s := a[..];
      NextShape(t, nb, len);
      k := Layer(a, len, k, nb, bound);
      LayerFinishes(FORWARD, s, a[..], final, len, nb, t);
      t, nb, bound := t - 1, 2 * nb, bound + Q;
      len := len / 2;
    }
    Finished(FORWARD, a[..], final, 2, 128);
  }

  method ReduceInPlace(a: array<int>)
    requires Bounded(a[..], 0x7fff)
    modifies a
    ensures a[..] == Reduced(old(a[..])) && Bounded(a[..], 1664)
  {
    ghost var s := a[..];
    var j := 0;
    while j < a.Length
      invariant 0 <= j <= a.Length
      invariant forall i :: 0 <= i < j ==> a[i] == BarrettReduce(s[i]) && -1664 <= a[i] <= 1664
      invariant forall i :: j <= i < a.Length ==> a[i] == s[i]
    {
      BarrettWordExact(a[j]);
      BarrettCentred(a[j]);
      a[j] := BarrettWord(Int16(a[j]));
      j := j + 1;
    }
  }

  /** Transform and reduction. */
  method PolyNttInPlace(a: array<int>)
    requires a.Length == N && Bounded(a[..], 0x7fff - 7 * Q)
    modifies a
    ensures a[..] == PolyNtt(old(a[..])) && Bounded(a[..], 1664)
  {
    NttInPlace(a);
    ReduceInPlace(a);
  }

  // ----- inverse

  lemma {:induction false} SumBound(x: int, y: int)
    requires -0x3fff <= x <= 0x3fff && -0x3fff <= y <= 0x3fff
    ensures InInt16(x + y) && -Q < REDUCE(x + y) < Q && REDUCE(x + y) == BarrettWord(x + y)
  {
    BarrettCentred(x + y);
    BarrettWordExact(x + y);
  }

  lemma {:induction false} DifferenceBound(k: int, x: int, y: int, d: int)
    requires -0x3fff <= x <= 0x3fff && -0x3fff <= y <= 0x3fff && d == y - x
    ensures InInt32(Zeta(k) * d) && -Q < INVERSE(k, x - y) < Q && INVERSE(k, x - y) == MontgomeryReduce(Zeta(k) * d)
  {
    InverseTwiddleBound(k, x - y);
    assert -(x - y) == d;
  }

  lemma {:induction false} BoundedJoins(s: Poly, s': Poly, o: nat, h: nat, m: int)
    requires o + 2 * h <= |s| == |s'|
    requires Bounded(Slice(s, o, 2 * h), 0x3fff) && Joined(INVERSE, REDUCE, s, s', o, h, m)
    ensures Bounded(Slice(s', o, 2 * h), Q)
  {
    forall x {:trigger INVERSE(m, x)} | -0x7ffe <= x <= 0x7ffe ensures -Q <= INVERSE(m, x) <= Q {
      InverseTwiddleBound(m, x);
    }
    forall x {:trigger REDUCE(x)} | -0x7ffe <= x <= 0x7ffe ensures -Q <= REDUCE(x) <= Q {
      BarrettCentred(x);
    }
    BoundedJoined(INVERSE, REDUCE, s, s', o, h, m, 0x3fff, Q);
  }

  predicate Difference(d: int) { -0x7ffe <= d <= 0x7ffe }

  /** The function f(k, d) is what the loop below computes of the negated difference d, with the zeta it is given. */
  ghost predicate JoinsWith(f: (int, int) -> int, k: int, zeta: int) {
    forall d {:trigger Difference(d)} :: Difference(d) ==> InInt32(zeta * -d) && f(k, d) == MontgomeryReduce(zeta * -d)
  }

  lemma {:induction false} JoinsWithBounds(f: (int, int) -> int, k: int, zeta: int)
    requires -1664 <= zeta <= 1664 && forall d :: f(k, d) == MontgomeryReduce(zeta * -d)
    ensures JoinsWith(f, k, zeta)
  {
    forall d {:trigger Difference(d)} | Difference(d) ensures InInt32(zeta * -d) {
      ReducedProductBound(zeta, -d);
    }
  }

  lemma {:induction false} InverseJoins(k: int)
    ensures JoinsWith(INVERSE, k, Zeta(k))
  {
    ZetaSmall(k);
    JoinsWithBounds(INVERSE, k, Zeta(k));
  }

  /** The inner loop of the inverse transform. */
  method Joins(a: array<int>, start: nat, len: nat, zeta: int, ghost k: int, ghost f: (int, int) -> int)
    requires start + 2 * len <= a.Length && Bounded(Slice(a[..], start, 2 * len), 0x3fff) && JoinsWith(f, k, zeta)
    modifies a
    ensures Joined(f, REDUCE, old(a[..]), a[..], start, len, k)
    ensures a[..start] == old(a[..start]) && a[start + 2 * len..] == old(a[start + 2 * len..])
  {
    ghost var s := a[..];
    var j := start;
    while j < start + len
      invariant start <= j <= start + len
      invariant JoinedTo(f, REDUCE, s, a[..], start, len, k, j)
    {
      ghost var before := a[..];
      assert a[j] == s[j] && a[j + len] == s[j + len];
      assert s[j] == Slice(s, start, 2 * len)[j - start] && s[j + len] == Slice(s, start, 2 * len)[j + len - start];
      SumBound(s[j], s[j + len]);
      ghost var d := s[j] - s[j + len];
      assert Difference(d);
      var t := a[j];
      a[j] := BarrettWord(Int16(t + a[j + len]));
      a[j + len] := Int16(a[j + len] - t);
      assert a[j + len] == -d;
      a[j + len] := MontgomeryReduce(Int32(zeta * a[j + len]));
      StepJoin(f, REDUCE, s, before, a[..], start, len, k, j);
      j := j + 1;
    }
    JoinsDone(f, REDUCE, s, a[..], start, len, k);
  }

  method JoinBlock(a: array<int>, start: nat, len: nat, k: int)
    requires start + 2 * len <= a.Length && Bounded(Slice(a[..], start, 2 * len), 0x3fff)
    modifies a
    ensures Joined(INVERSE, REDUCE, old(a[..]), a[..], start, len, k)
    ensures a[..start] == old(a[..start]) && a[start + 2 * len..] == old(a[start + 2 * len..])
  {
    InverseJoins(k);
    Joins(a, start, len, Zeta(k), k, INVERSE);
  }

  lemma {:induction false} JoinsBounded(s: Poly, s': Poly, h: nat, nb: nat)
    requires h > 0 && |s| == |s'| == nb * (2 * h) && Bounded(s, 0x3fff)
    requires forall b: nat | b < nb :: BlockJoined(INVERSE, REDUCE, s, s', h, nb, b)
    ensures Bounded(s', Q)
  {
    forall b: nat | b < nb ensures b * (2 * h) + 2 * h <= |s| && Bounded(Slice(s', b * (2 * h), 2 * h), Q) {
      BlockFits(b, 2 * h, nb);
      BlockBounded(s, s, b * (2 * h), 2 * h, 0x3fff);
      assert BlockJoined(INVERSE, REDUCE, s, s', h, nb, b);
      BoundedJoins(s, s', b * (2 * h), h, 2 * nb - 1 - b);
    }
    AllBounded(s', 2 * h, nb, Q);
  }

  /** The middle loop of the inverse transform: nb blocks, the table read backwards. */
  method InverseLayer(a: array<int>, len: nat, k: int, ghost nb: nat) returns (k': int)
    requires len > 0 && a.Length == nb * (2 * len) && k == 2 * nb - 1 && Bounded(a[..], 0x3fff)
    modifies a
    ensures forall b: nat | b < nb :: BlockJoined(INVERSE, REDUCE, old(a[..]), a[..], len, nb, b)
    ensures Bounded(a[..], Q) && k' == nb - 1
  {
    ghost var s := a[..];
    ghost var b := 0;
    var start := 0;
    k' := k;
    while start < a.Length
      invariant 0 <= b <= nb && k' == k - b
      invariant JoinedBelow(INVERSE, REDUCE, s, a[..], len, nb, b, start)
      decreases a.Length - start
    {
      BlockIn(b, 2 * len, nb, start);
      ghost var s' := a[..];
      BlockBounded(s, s', start, 2 * len, 0x3fff);
      JoinBlock(a, start, len, k');
      k' := k' - 1;
      ghost var s'' := a[..];
      JoinedNext(INVERSE, REDUCE, s, s', s'', len, nb, b, start);
      start := start + 2 * len;
      b := b + 1;
    }
    AllBlocks(b, 2 * len, nb, start);
    JoinsBounded(s, a[..], len, nb);
  }

  lemma {:induction false} PairsInverted(s: Poly)
    requires |s| == N
    ensures AllInverted(INVERSE, REDUCE, s, s, 2, 128, 0)
  {
    forall b: nat | b < 128 ensures BlockInverted(INVERSE, REDUCE, s, s, 2, 128, 0, b) {
    }
  }

  lemma {:induction false} NextInverseShape(t: nat, nb: nat, half: nat)
    requires Shape(t, nb, half) && half <= 64
    ensures nb / 2 * (4 * half) == N && 2 * (nb / 2) == nb && t <= 6 && Shape(t + 1, nb / 2, 2 * half)
  {
  }

  /** The closing loop of the inverse transform. */
  method ScaleInPlace(a: array<int>)
    requires Bounded(a[..], 0x7fff)
    modifies a
    ensures a[..] == MontScale(MONT_F, old(a[..])) && Bounded(a[..], Q - 1)
  {
    ghost var s := a[..];
    var j := 0;
    while j < a.Length
      invariant 0 <= j <= a.Length
      invariant forall i :: 0 <= i < j ==> a[i] == MontgomeryReduce(s[i] * MONT_F) && -Q < a[i] < Q
      invariant forall i :: j <= i < a.Length ==> a[i] == s[i]
    {
      ReducedProductBound(MONT_F, s[j]);
      a[j] := MontgomeryReduce(Int32(a[j] * MONT_F));
      j := j + 1;
    }
  }

  /** The layers of the inverse transform: the sums are reduced at every join, so nothing grows. */
  method InverseLayers(a: array<int>)
    requires a.Length == N && Bounded(a[..], 0x3fff)
    modifies a
    ensures a[..] == InvNttCore(old(a[..])) && Bounded(a[..], 0x3fff)
  {
    ghost var start := a[..];
    ghost var t: nat, nb: nat, half: nat := 0, 128, 1;
    var k, len: nat := 127, 2;
    PairsInverted(start);
    while len <= 128
      invariant Shape(t, nb, half) && len == 2 * half && k == nb - 1
      invariant AllInverted(INVERSE, REDUCE, a[..], start, len, nb, t)
      invariant Bounded(a[..], 0x3fff)
      decreases 256 - len
    {
      ghost var s := a[..];
      NextInverseShape(t, nb, half);
      k := InverseLayer(a, len, k, nb / 2);
      LayerInverts(INVERSE, REDUCE, s, a[..], start, len, nb / 2, t);
      t, nb, half := t + 1, nb / 2, len;
      len := 2 * len;
    }
    WholeInverted(a[..], start);
  }

  lemma {:induction false} WholeInverted(s: Poly, start: Poly)
    requires |s| == |start| == N && AllInverted(INVERSE, REDUCE, s, start, N, 1, 7)
    ensures s == InvNttCore(start)
  {
    HalvesN();
    assert BlockInverted(INVERSE, REDUCE, s, start, N, 1, 7, 0);
    assert Slice(s, 0, N) == s && Slice(start, 0, N) == start;
  }

  /** The inverse transform in place. */
  method InvNttInPlace(a: array<int>)
    requires a.Length == N && Bounded(a[..], 0x3fff)
    modifies a
    ensures a[..] == PolyInvNtt(old(a[..])) && Bounded(a[..], Q - 1)
  {
    InverseLayers(a);
    ScaleInPlace(a);
  }
}
