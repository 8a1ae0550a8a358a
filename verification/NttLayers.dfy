/**
  The source runs a transform layer by layer over one array; NttTheory describes it as a tree.
  After some layers the array consists of nb blocks of n coefficients, block b standing at node nb + b.
 */
module NttLayers {
  import opened PolyRing
  import opened NttTheory

  function Slice(s: Poly, o: int, n: nat): (x: Poly)
    requires 0 <= o && o + n <= |s|
    ensures |x| == n
  {
    s[o..o + n]
  }

  lemma {:induction false} BlockFits(b: nat, n: nat, nb: nat)
    requires b < nb
    ensures b * n + n <= nb * n
  {
    assert nb * n == b * n + n + (nb - b - 1) * n;
  }

  /** Walking over the blocks: a start inside the array begins a whole block. */
  lemma {:induction false} BlockIn(b: nat, n: nat, nb: nat, start: nat)
    requires n > 0 && start == b * n && start < nb * n
    ensures b < nb && start + n <= nb * n && (b + 1) * n == start + n
  {
    if b < nb {
      BlockFits(b, n, nb);
    }
  }

  lemma {:induction false} AllBlocks(b: nat, n: nat, nb: nat, start: nat)
    requires n > 0 && b <= nb && start == b * n && start >= nb * n
    ensures b == nb
  {
    if b < nb {
      BlockFits(b, n, nb);
    }
  }

  /** What lies behind the current block is still as it was. */
  lemma {:induction false} SuffixKept(s: Poly, s': Poly, s'': Poly, p: nat, n: nat)
    requires |s| == |s'| == |s''| && p + n <= |s| && s'[p..] == s[p..] && s''[p + n..] == s'[p + n..]
    ensures s''[p + n..] == s[p + n..]
  {
    assert s'[p..][n..] == s'[p + n..] && s[p..][n..] == s[p + n..];
  }

  lemma {:induction false} SuffixSlices(s: Poly, s': Poly, p: nat, h: nat)
    requires |s| == |s'| && p + 2 * h <= |s| && s[p..] == s'[p..]
    ensures Slice(s, p, h) == Slice(s', p, h) && Slice(s, p + h, h) == Slice(s', p + h, h)
    ensures Slice(s, p, 2 * h) == Slice(s', p, 2 * h)
  {
    assert forall i :: p <= i < |s| ==> s[i] == s[p..][i - p] && s'[i] == s'[p..][i - p];
  }

  /** Where the two halves of a block start. */
  lemma {:induction false} HalfOffsets(b: nat, h: nat)
    ensures (2 * b) * h == b * (2 * h) && (2 * b + 1) * h == b * (2 * h) + h
  {
  }

  lemma {:induction false} SliceHalves(s: Poly, o: int, h: nat)
    requires 0 <= o && o + 2 * h <= |s|
    ensures Lo(Slice(s, o, 2 * h)) == Slice(s, o, h) && Hi(Slice(s, o, 2 * h)) == Slice(s, o + h, h)
  {
  }

  // ----- one block, one butterfly at a time

  /** Coefficient i once the butterflies of the block at o, of two halves of h, are done up to offset j. */
  function ButterflyAt(f: (int, int) -> int, s: Poly, o: nat, h: nat, k: int, j: nat, i: nat): int
    requires j <= o + h && o + 2 * h <= |s| && i < |s|
  {
    if o <= i < j then s[i] + f(k, s[i + h])
    else if o + h <= i < j + h then s[i - h] - f(k, s[i])
    else s[i]
  }

  /** The sequence t is s with the butterflies of the block at o done up to offset j. */
  predicate SteppedTo(f: (int, int) -> int, s: Poly, t: Poly, o: nat, h: nat, k: int, j: nat)
    requires j <= o + h && o + 2 * h <= |s|
  {
    |t| == |s| && forall i :: 0 <= i < |s| ==> t[i] == ButterflyAt(f, s, o, h, k, j, i)
  }

  /** One butterfly. */
  lemma {:induction false} StepButterfly(f: (int, int) -> int, s: Poly, t: Poly, t': Poly, o: nat, h: nat, k: int,
      j: nat)
    requires o <= j < o + h && o + 2 * h <= |s| && SteppedTo(f, s, t, o, h, k, j)
    requires t' == t[j + h := s[j] - f(k, s[j + h])][j := s[j] + f(k, s[j + h])]
    ensures SteppedTo(f, s, t', o, h, k, j + 1)
  {
  }

  /** Finishing all butterflies of a block steps it and leaves the rest alone. */
  lemma {:induction false} ButterfliesDone(f: (int, int) -> int, s: Poly, s': Poly, o: nat, h: nat, k: int)
    requires o + 2 * h <= |s| == |s'|
    requires SteppedTo(f, s, s', o, h, k, o + h)
    ensures Stepped(f, s, s', o, h, k)
    ensures s'[..o] == s[..o] && s'[o + 2 * h..] == s[o + 2 * h..]
  {
    var x, x' := Slice(s, o, 2 * h), Slice(s', o, 2 * h);
    var y := LowHalf(f, x, k) + HighHalf(f, x, k);
    forall i | 0 <= i < 2 * h ensures x'[i] == y[i] {
      assert x'[i] == s'[o + i];
    }
  }

  /** Coefficient i once the blocks at o, of two halves of h, are joined up to offset j. */
  function JoinAt(f: (int, int) -> int, g: int -> int, s: Poly, o: nat, h: nat, m: int, j: nat, i: nat): int
    requires j <= o + h && o + 2 * h <= |s| && i < |s|
  {
    if o <= i < j then g(s[i] + s[i + h])
    else if o + h <= i < j + h then f(m, s[i - h] - s[i])
    else s[i]
  }

  /** The sequence t is s with the two halves at o joined up to offset j. */
  predicate JoinedTo(f: (int, int) -> int, g: int -> int, s: Poly, t: Poly, o: nat, h: nat, m: int, j: nat)
    requires j <= o + h && o + 2 * h <= |s|
  {
    |t| == |s| && forall i :: 0 <= i < |s| ==> t[i] == JoinAt(f, g, s, o, h, m, j, i)
  }

  lemma {:induction false} StepJoin(f: (int, int) -> int, g: int -> int, s: Poly, t: Poly, t': Poly, o: nat, h: nat,
      m: int, j: nat)
    requires o <= j < o + h && o + 2 * h <= |s| && JoinedTo(f, g, s, t, o, h, m, j)
    requires t' == t[j := g(s[j] + s[j + h])][j + h := f(m, s[j] - s[j + h])]
    ensures JoinedTo(f, g, s, t', o, h, m, j + 1)
  {
  }

  lemma {:induction false} JoinsDone(f: (int, int) -> int, g: int -> int, s: Poly, s': Poly, o: nat, h: nat, m: int)
    requires o + 2 * h <= |s| == |s'|
    requires JoinedTo(f, g, s, s', o, h, m, o + h)
    ensures Joined(f, g, s, s', o, h, m)
    ensures s'[..o] == s[..o] && s'[o + 2 * h..] == s[o + 2 * h..]
  {
    var x' := Slice(s', o, 2 * h);
    var y := CodeJoin(f, g, Slice(s, o, h), Slice(s, o + h, h), m);
    forall i | 0 <= i < 2 * h ensures x'[i] == y[i] {
      assert x'[i] == s'[o + i];
    }
  }

  // ----- forward

  /** Finishing the block at offset o on its own, t levels down from node k, gives its part of the result. */
  ghost predicate Finishes(f: (int, int) -> int, s: Poly, final: Poly, o: int, n: nat, k: int, t: nat) {
    && 0 <= o && o + n <= |s| == |final|
    && Halves(n, t)
    && CodeNtt(f, Slice(s, o, n), k, t) == Slice(final, o, n)
  }

  ghost predicate BlockFinishes(f: (int, int) -> int, s: Poly, final: Poly, n: nat, nb: nat, t: nat, b: nat) {
    Finishes(f, s, final, b * n, n, nb + b, t)
  }

  ghost predicate AllFinish(f: (int, int) -> int, s: Poly, final: Poly, n: nat, nb: nat, t: nat) {
    |s| == |final| && forall b: nat | b < nb :: BlockFinishes(f, s, final, n, nb, t, b)
  }

  /** s' is s with the butterflies of node k applied to the 2h coefficients at offset o. */
  ghost predicate Stepped(f: (int, int) -> int, s: Poly, s': Poly, o: int, h: nat, k: int) {
    && 0 <= o && o + 2 * h <= |s| == |s'|
    && Slice(s', o, 2 * h) == LowHalf(f, Slice(s, o, 2 * h), k) + HighHalf(f, Slice(s, o, 2 * h), k)
  }

  ghost predicate BlockStepped(f: (int, int) -> int, s: Poly, s': Poly, h: nat, nb: nat, b: nat) {
    Stepped(f, s, s', b * (2 * h), h, nb + b)
  }

  /** A block keeps its step, or its join, when only later coefficients change. */
  lemma {:induction false} SteppedFrame(f: (int, int) -> int, s: Poly, s': Poly, s'': Poly, h: nat, nb: nat, b: nat,
      p: nat)
    requires BlockStepped(f, s, s', h, nb, b) && |s''| == |s'| && b * (2 * h) + 2 * h <= p <= |s'|
      && s''[..p] == s'[..p]
    ensures BlockStepped(f, s, s'', h, nb, b)
  {
    SlicePrefix(s', s'', b * (2 * h), 2 * h, p);
  }

  /** The blocks before b, which end at p, are stepped; the rest is as it was. */
  ghost predicate SteppedBelow(f: (int, int) -> int, s: Poly, t: Poly, h: nat, nb: nat, b: nat, p: nat) {
    && |t| == |s| && p == b * (2 * h) && p <= |s| && t[p..] == s[p..]
    && forall c: nat | c < b :: BlockStepped(f, s, t, h, nb, c)
  }

  /** The next block. */
  lemma {:induction false} SteppedNext(f: (int, int) -> int, s: Poly, s': Poly, s'': Poly, h: nat, nb: nat, b: nat,
      p: nat)
    requires SteppedBelow(f, s, s', h, nb, b, p) && |s''| == |s| && p + 2 * h <= |s|
    requires s''[..p] == s'[..p] && s''[p + 2 * h..] == s'[p + 2 * h..]
    requires Stepped(f, s', s'', p, h, nb + b)
    ensures SteppedBelow(f, s, s'', h, nb, b + 1, p + 2 * h)
  {
    SuffixSlices(s, s', p, h);
    SuffixKept(s, s', s'', p, 2 * h);
    assert (b + 1) * (2 * h) == p + 2 * h;
    forall c: nat | c < b + 1 ensures BlockStepped(f, s, s'', h, nb, c) {
      if c < b {
        BlockFits(c, 2 * h, b);
        SteppedFrame(f, s, s', s'', h, nb, c, p);
      }
    }
  }

  lemma {:induction false} SlicePrefix(s: Poly, s': Poly, o: int, n: nat, p: nat)
    requires 0 <= o && o + n <= p <= |s| == |s'| && s[..p] == s'[..p]
    ensures Slice(s, o, n) == Slice(s', o, n)
  {
    assert s[o..o + n] == s[..p][o..o + n];
    assert s'[o..o + n] == s'[..p][o..o + n];
  }

  lemma {:induction false} FinishHalves(f: (int, int) -> int, s: Poly, s': Poly, final: Poly, o: int, h: nat, k: int,
      t: nat)
    requires t > 0 && Finishes(f, s, final, o, 2 * h, k, t) && Stepped(f, s, s', o, h, k)
    ensures Finishes(f, s', final, o, h, 2 * k, t - 1)
    ensures Finishes(f, s', final, o + h, h, 2 * k + 1, t - 1)
  {
    SliceHalves(s', o, h);
    SliceHalves(final, o, h);
    var x := Slice(s, o, 2 * h);
    var lo, hi := LowHalf(f, x, k), HighHalf(f, x, k);
    assert Lo(lo + hi) == lo && Hi(lo + hi) == hi;
    var u, v := CodeNtt(f, lo, 2 * k, t - 1), CodeNtt(f, hi, 2 * k + 1, t - 1);
    assert Slice(final, o, 2 * h) == u + v;
    assert Lo(u + v) == u && Hi(u + v) == v;
  }

  /** One layer over all blocks keeps the final result and halves the blocks. */
  lemma {:induction false} LayerFinishes(f: (int, int) -> int, s: Poly, s': Poly, final: Poly, h: nat, nb: nat, t: nat)
    requires t > 0 && |s'| == |s| && AllFinish(f, s, final, 2 * h, nb, t)
    requires forall b: nat | b < nb :: BlockStepped(f, s, s', h, nb, b)
    ensures AllFinish(f, s', final, h, 2 * nb, t - 1)
  {
    var n', t' := 2 * nb, t - 1;
    forall c: nat | c < n' ensures BlockFinishes(f, s', final, h, n', t', c) {
      var b := c / 2;
      assert BlockFinishes(f, s, final, 2 * h, nb, t, b);
      assert BlockStepped(f, s, s', h, nb, b);
      HalfOffsets(b, h);
      FinishHalves(f, s, s', final, b * (2 * h), h, nb + b, t);
    }
  }

  /** With no levels left and blocks of n coefficients, the array is the final result. */
  lemma {:induction false} Finished(f: (int, int) -> int, s: Poly, final: Poly, n: nat, nb: nat)
    requires n > 0 && nb * n == |s| && AllFinish(f, s, final, n, nb, 0)
    ensures s == final
  {
    forall i | 0 <= i < |s| ensures s[i] == final[i] {
      var b := i / n;
      DivBelow(i, n, nb);
      assert BlockFinishes(f, s, final, n, nb, 0, b);
      assert Slice(s, b * n, n)[i - b * n] == Slice(final, b * n, n)[i - b * n];
    }
  }

  lemma {:induction false} DivBelow(i: nat, n: nat, nb: nat)
    requires n > 0 && i < nb * n
    ensures i / n < nb && i / n * n <= i < i / n * n + n
  {
  }

  // ----- inverse

  /** The block at offset o is the inverse transform, at node m, of what it was at the start. */
  ghost predicate Inverted(f: (int, int) -> int, g: int -> int, s: Poly, start: Poly, o: int, n: nat, m: int, t: nat)
  {
    && 0 <= o && o + n <= |s| == |start|
    && Halves(n, t)
    && Slice(s, o, n) == CodeInvNtt(f, g, Slice(start, o, n), m, t)
  }

  /** Inverse nodes are counted from the right. */
  ghost predicate BlockInverted(f: (int, int) -> int, g: int -> int, s: Poly, start: Poly, n: nat, nb: nat, t: nat,
      b: nat)
  {
    Inverted(f, g, s, start, b * n, n, 2 * nb - 1 - b, t)
  }

  ghost predicate AllInverted(f: (int, int) -> int, g: int -> int, s: Poly, start: Poly, n: nat, nb: nat, t: nat) {
    |s| == |start| && forall b: nat | b < nb :: BlockInverted(f, g, s, start, n, nb, t, b)
  }

  /** s' is s with the two halves of the 2h coefficients at offset o joined at node m. */
  ghost predicate Joined(f: (int, int) -> int, g: int -> int, s: Poly, s': Poly, o: int, h: nat, m: int) {
    && 0 <= o && o + 2 * h <= |s| == |s'|
    && Slice(s', o, 2 * h) == CodeJoin(f, g, Slice(s, o, h), Slice(s, o + h, h), m)
  }

  /** One coefficient of a joined block. */
  lemma {:induction false} JoinedValue(f: (int, int) -> int, g: int -> int, s: Poly, s': Poly, o: int, h: nat, m: int,
      i: nat)
    requires Joined(f, g, s, s', o, h, m) && i < 2 * h
    ensures var x := Slice(s, o, 2 * h);
      Slice(s', o, 2 * h)[i] == if i < h then g(x[i] + x[i + h]) else f(m, x[i - h] - x[i])
  {
    var x := Slice(s, o, 2 * h);
    var j := if i < h then i else i - h;
    assert x[j] == Slice(s, o, h)[j] && x[j + h] == Slice(s, o + h, h)[j];
  }

  ghost predicate BlockJoined(f: (int, int) -> int, g: int -> int, s: Poly, s': Poly, h: nat, nb: nat, b: nat) {
    Joined(f, g, s, s', b * (2 * h), h, 2 * nb - 1 - b)
  }

  lemma {:induction false} JoinedFrame(f: (int, int) -> int, g: int -> int, s: Poly, s': Poly, s'': Poly, h: nat,
      nb: nat, b: nat, p: nat)
    requires BlockJoined(f, g, s, s', h, nb, b) && |s''| == |s'| && b * (2 * h) + 2 * h <= p <= |s'|
      && s''[..p] == s'[..p]
    ensures BlockJoined(f, g, s, s'', h, nb, b)
  {
    SlicePrefix(s', s'', b * (2 * h), 2 * h, p);
  }

  /** The blocks before b, which end at p, are joined; the rest is as it was. */
  ghost predicate JoinedBelow(f: (int, int) -> int, g: int -> int, s: Poly, t: Poly, h: nat, nb: nat, b: nat, p: nat) {
    && |t| == |s| && p == b * (2 * h) && p <= |s| && t[p..] == s[p..]
    && forall c: nat | c < b :: BlockJoined(f, g, s, t, h, nb, c)
  }

  lemma {:induction false} JoinedNext(f: (int, int) -> int, g: int -> int, s: Poly, s': Poly, s'': Poly, h: nat,
      nb: nat, b: nat, p: nat)
    requires JoinedBelow(f, g, s, s', h, nb, b, p) && |s''| == |s| && p + 2 * h <= |s|
    requires s''[..p] == s'[..p] && s''[p + 2 * h..] == s'[p + 2 * h..]
    requires Joined(f, g, s', s'', p, h, 2 * nb - 1 - b)
    ensures JoinedBelow(f, g, s, s'', h, nb, b + 1, p + 2 * h)
  {
    SuffixSlices(s, s', p, h);
    SuffixKept(s, s', s'', p, 2 * h);
    assert (b + 1) * (2 * h) == p + 2 * h;
    forall c: nat | c < b + 1 ensures BlockJoined(f, g, s, s'', h, nb, c) {
      if c < b {
        BlockFits(c, 2 * h, b);
        JoinedFrame(f, g, s, s', s'', h, nb, c, p);
      }
    }
  }

  lemma {:induction false} JoinInverts(f: (int, int) -> int, g: int -> int, s: Poly, s': Poly, start: Poly, o: int,
      h: nat, m: int, t: nat)
    requires Inverted(f, g, s, start, o, h, 2 * m + 1, t) && Inverted(f, g, s, start, o + h, h, 2 * m, t)
    requires Joined(f, g, s, s', o, h, m)
    ensures Inverted(f, g, s', start, o, 2 * h, m, t + 1)
  {
    SliceHalves(start, o, h);
  }

  lemma {:induction false} LayerInverts(f: (int, int) -> int, g: int -> int, s: Poly, s': Poly, start: Poly, h: nat,
      nb: nat, t: nat)
    requires |s'| == |s| && AllInverted(f, g, s, start, h, 2 * nb, t)
    requires forall b: nat | b < nb :: BlockJoined(f, g, s, s', h, nb, b)
    ensures AllInverted(f, g, s', start, 2 * h, nb, t + 1)
  {
    var n', t' := 2 * h, t + 1;
    forall b: nat | b < nb ensures BlockInverted(f, g, s', start, n', nb, t', b) {
      var o, m := b * n', 2 * nb - 1 - b;
      assert BlockInverted(f, g, s, start, h, 2 * nb, t, 2 * b);
      assert BlockInverted(f, g, s, start, h, 2 * nb, t, 2 * b + 1);
      HalvesInverted(f, g, s, start, h, nb, t, b, o, m);
      assert BlockJoined(f, g, s, s', h, nb, b);
      JoinInverts(f, g, s, s', start, o, h, m, t);
    }
  }

  lemma {:induction false} HalvesInverted(f: (int, int) -> int, g: int -> int, s: Poly, start: Poly, h: nat, nb: nat,
      t: nat, b: nat, o: int, m: int)
    requires BlockInverted(f, g, s, start, h, 2 * nb, t, 2 * b)
    requires BlockInverted(f, g, s, start, h, 2 * nb, t, 2 * b + 1)
    requires o == b * (2 * h) && m == 2 * nb - 1 - b
    ensures Inverted(f, g, s, start, o, h, 2 * m + 1, t) && Inverted(f, g, s, start, o + h, h, 2 * m, t)
  {
    HalfOffsets(b, h);
    HalfInverted(f, g, s, start, h, 2 * nb, t, 2 * b, o, 2 * m + 1);
    HalfInverted(f, g, s, start, h, 2 * nb, t, 2 * b + 1, o + h, 2 * m);
  }

  lemma {:induction false} HalfInverted(f: (int, int) -> int, g: int -> int, s: Poly, start: Poly, n: nat, nb: nat,
      t: nat, b: nat, o: int, m: int)
    requires BlockInverted(f, g, s, start, n, nb, t, b) && o == b * n && m == 2 * nb - 1 - b
    ensures Inverted(f, g, s, start, o, n, m, t)
  {
  }
}
