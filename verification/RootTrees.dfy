/**
  Where the roots come from. Both schemes store, in bit-reversed order, the powers of a primitive
  root psi with psi^N = -1 modulo q: node k of the transform tree uses psi^BitRev(k).
 */
module RootTrees {
  import opened ModArith
  import opened NttTheory

  function Pow(b: int, e: nat): int {
    if e == 0 then 1 else b * Pow(b, e - 1)
  }

  lemma {:induction false} PowAdd(b: int, d: nat, e: nat)
    ensures Pow(b, d + e) == Pow(b, d) * Pow(b, e)
    decreases d
  {
    if d == 0 {
    } else {
      PowAdd(b, d - 1, e);
      assert b * (Pow(b, d - 1) * Pow(b, e)) == (b * Pow(b, d - 1)) * Pow(b, e);
    }
  }

  /** Squaring step of a power table: x = b^e gives y = b^(2e) when y = x^2 modulo q. */
  lemma {:induction false} PowDouble(b: int, e: nat, x: int, y: int, q: int)
    requires q > 0 && Cong(Pow(b, e), x, q) && Cong(x * x, y, q)
    ensures Cong(Pow(b, e + e), y, q)
  {
    PowAdd(b, e, e);
    CongMul(Pow(b, e), x, Pow(b, e), x, q);
  }

  /** A power of two. */
  predicate PowerOfTwo(p: nat) {
    p == 1 || (p > 1 && p % 2 == 0 && PowerOfTwo(p / 2))
  }

  /** The bits of k read backwards: bit p counts w, bit p/2 counts 2w, and so on. */
  function BitRev(k: nat, p: nat, w: nat): nat
    decreases p
  {
    if p == 0 then 0
    else if k >= p then w + BitRev(k - p, p / 2, 2 * w)
    else BitRev(k, p / 2, 2 * w)
  }

  lemma {:induction false} BitRevStep(k: nat, p: nat, w: nat)
    requires p > 0
    ensures BitRev(k, p, w) == if k >= p then w + BitRev(k - p, p / 2, 2 * w) else BitRev(k, p / 2, 2 * w)
  {
  }

  lemma {:induction false} BitRevOfBit(k: nat, w: nat)
    requires k < 2
    ensures 2 * BitRev(2 * k, 2, w) == BitRev(k, 1, 2 * w)
  {
    assert BitRev(0, 1, 2 * w) == 0 && BitRev(0, 0, 4 * w) == 0;
    assert k == 0 || k == 1;
  }

  lemma {:induction false} BitRevEven(k: nat, p: nat, w: nat)
    requires PowerOfTwo(p) && k < 2 * p
    ensures 2 * BitRev(2 * k, 2 * p, w) == BitRev(k, p, 2 * w)
    decreases p
  {
    if p == 1 {
      BitRevOfBit(k, w);
    } else if k >= p {
      BitRevEven(k - p, p / 2, 2 * w);
      BitRevStep(2 * k, 2 * p, w);
      BitRevStep(k, p, 2 * w);
    } else {
      BitRevEven(k, p / 2, 2 * w);
      BitRevStep(2 * k, 2 * p, w);
      BitRevStep(k, p, 2 * w);
    }
  }

  lemma {:induction false} BitRevOdd(k: nat, p: nat, w: nat)
    requires PowerOfTwo(p) && 2 * k + 1 < 2 * p
    ensures BitRev(2 * k + 1, p, w) == BitRev(2 * k, p, w) + p * w
    decreases p
  {
    if p == 1 {
      assert k == 0;
      assert BitRev(1, 1, w) == w + BitRev(0, 0, 2 * w);
      assert BitRev(0, 1, w) == BitRev(0, 0, 2 * w);
    } else {
      assert p / 2 * (2 * w) == p * w;
      if 2 * k >= p {
        BitRevOdd(k - p / 2, p / 2, 2 * w);
        assert 2 * (k - p / 2) == 2 * k - p;
      } else {
        BitRevOdd(k, p / 2, 2 * w);
      }
    }
  }

  /** What bit s of an index counts in BitRev. */
  function BitWeight(s: nat, p: nat, w: nat): nat
    decreases p
  {
    if s == p || p == 0 then w else BitWeight(s, p / 2, 2 * w)
  }

  lemma {:induction false} BitRevTopBit(k: nat, s: nat, p: nat, w: nat)
    requires PowerOfTwo(p) && PowerOfTwo(s) && s <= p && s <= k < 2 * s
    ensures BitRev(k, p, w) == BitRev(k - s, p, w) + BitWeight(s, p, w)
    decreases p
  {
    if s < p {
      assert s <= p / 2 by { HalfAbove(s, p); }
      BitRevTopBit(k, s, p / 2, 2 * w);
    }
  }

  lemma {:induction false} BitRevZero(p: nat, w: nat)
    ensures BitRev(0, p, w) == 0
    decreases p
  {
    if p > 0 {
      BitRevZero(p / 2, 2 * w);
    }
  }

  lemma {:induction false} HalfAbove(s: nat, p: nat)
    requires PowerOfTwo(p) && PowerOfTwo(s) && s < p
    ensures s <= p / 2
    decreases p
  {
    if s > 1 {
      HalfAbove(s / 2, p / 2);
    }
  }

  /** The root at node k of the tree whose leaves have index below 2p. */
  function NodeRoot(psi: int, p: nat, k: int): int {
    if k < 0 then 0 else Pow(psi, BitRev(k, p, 1))
  }

  /** The root of a node from the node without its top bit. */
  lemma {:induction false} NodeRootTopBit(psi: int, p: nat, k: nat, s: nat)
    requires PowerOfTwo(p) && PowerOfTwo(s) && s <= p && s <= k < 2 * s
    ensures NodeRoot(psi, p, k) == NodeRoot(psi, p, k - s) * Pow(psi, BitWeight(s, p, 1))
  {
    BitRevTopBit(k, s, p, 1);
    PowAdd(psi, BitRev(k - s, p, 1), BitWeight(s, p, 1));
  }

  /** Going down one level halves the exponent, and the right child adds half a turn. */
  lemma {:induction false} Children(k: nat, p: nat)
    requires PowerOfTwo(p) && p > 1 && k < p
    ensures 2 * BitRev(2 * k, p, 1) == BitRev(k, p, 1)
    ensures BitRev(2 * k + 1, p, 1) == BitRev(2 * k, p, 1) + p
  {
    BitRevEven(k, p / 2, 1);
    BitRevOdd(k, p, 1);
  }

  /** z(2k)^2 = z(k) and z(2k+1)^2 = -z(k). */
  lemma {:induction false} ChildRoots(psi: int, p: nat, k: nat, q: int)
    requires q > 0 && PowerOfTwo(p) && p > 1 && k < p && Cong(Pow(psi, 2 * p), -1, q)
    ensures Cong(NodeRoot(psi, p, 2 * k) * NodeRoot(psi, p, 2 * k), NodeRoot(psi, p, k), q)
    ensures Cong(NodeRoot(psi, p, 2 * k + 1) * NodeRoot(psi, p, 2 * k + 1), -NodeRoot(psi, p, k), q)
  {
    Children(k, p);
    var e := BitRev(2 * k, p, 1);
    PowAdd(psi, e, e);
    PowAdd(psi, e + p, e + p);
    assert (e + p) + (e + p) == 2 * e + 2 * p;
    PowAdd(psi, 2 * e, 2 * p);
    var r := Pow(psi, 2 * e);
    CongMul(r, r, Pow(psi, 2 * p), -1, q);
    assert r * -1 == -r;
  }

  /** The nodes with t levels below them. */
  predicate AtHeight(k: nat, t: nat, p: nat)
    decreases t
  {
    t == 0 || (1 <= k < 2 * p && AtHeight(2 * k, t - 1, p) && AtHeight(2 * k + 1, t - 1, p))
  }

  /** The bit-reversed powers of psi form a root tree below every node. */
  lemma {:induction false} RootTreeBelow(psi: int, p: nat, z: int -> int, k: nat, r: int, t: nat, q: int)
    requires q > 0 && PowerOfTwo(p) && p > 1 && Cong(Pow(psi, 2 * p), -1, q)
    requires forall i {:trigger z(i)} :: 1 <= i < 2 * p ==> z(i) == NodeRoot(psi, p, i)
    requires AtHeight(k, t, p) && Cong(z(k) * z(k), r, q)
    ensures RootTree(q, z, k, r, t)
    decreases t
  {
    if t > 1 {
      ChildRoots(psi, p, k, q);
      assert z(2 * k) == NodeRoot(psi, p, 2 * k) && z(2 * k + 1) == NodeRoot(psi, p, 2 * k + 1);
      RootTreeBelow(psi, p, z, 2 * k, z(k), t - 1, q);
      RootTreeBelow(psi, p, z, 2 * k + 1, -z(k), t - 1, q);
    }
  }

  lemma {:induction false} AtHeightWithin(k: nat, t: nat, p: nat)
    requires t > 0 ==> 1 <= k && (k + 1) * Pow2(t - 1) <= 2 * p
    ensures AtHeight(k, t, p)
    decreases t
  {
    if t == 1 {
    } else if t > 1 {
      var w := Pow2(t - 2);
      assert (k + 1) * (2 * w) == (2 * k + 2) * w;
      assert (2 * k + 1) * w <= (2 * k + 2) * w;
      assert k + 1 <= (k + 1) * (2 * w) by { MulMono(1, 2 * w, k + 1); }
      AtHeightWithin(2 * k, t - 1, p);
      AtHeightWithin(2 * k + 1, t - 1, p);
    }
  }

  lemma {:induction false} MinusOne(x: int, y: int, q: int)
    requires q > 0 && Cong(x * y, -1, q)
    ensures Cong(x * -y, 1, q)
  {
    assert x * -y == 0 - x * y;
    CongSub(0, 0, x * y, -1, q);
  }

  lemma {:induction false} MirrorProduct(psi: int, p: nat, k: nat, m: nat, q: int)
    requires q > 0 && Cong(Pow(psi, 2 * p), -1, q) && BitRev(k, p, 1) + BitRev(m, p, 1) == 2 * p
    ensures Cong(NodeRoot(psi, p, k) * -NodeRoot(psi, p, m), 1, q)
  {
    var x, y := NodeRoot(psi, p, k), NodeRoot(psi, p, m);
    PowAdd(psi, BitRev(k, p, 1), BitRev(m, p, 1));
    assert Cong(x * y, -1, q);
    MinusOne(x, y, q);
  }

  /** Mirrored nodes have exponents that add up to a half turn, so their roots multiply to -1. */
  lemma {:induction false} InverseTreeBelow(psi: int, p: nat, z: int -> int, v: int -> int, k: nat, m: nat, t: nat,
      q: int)
    requires q > 0 && PowerOfTwo(p) && p > 1 && Cong(Pow(psi, 2 * p), -1, q)
    requires forall i {:trigger z(i)} :: 1 <= i < 2 * p ==> z(i) == NodeRoot(psi, p, i)
    requires forall i {:trigger v(i)} :: 1 <= i < 2 * p ==> v(i) == -NodeRoot(psi, p, i)
    requires AtHeight(k, t, p) && AtHeight(m, t, p) && BitRev(k, p, 1) + BitRev(m, p, 1) == 2 * p
    ensures InverseTree(q, z, v, k, m, t)
    decreases t
  {
    if t > 0 {
      MirrorProduct(psi, p, k, m, q);
      assert z(k) == NodeRoot(psi, p, k) && v(m) == -NodeRoot(psi, p, m);
    }
    if t > 1 {
      Children(k, p);
      Children(m, p);
      InverseTreeBelow(psi, p, z, v, 2 * k, 2 * m + 1, t - 1, q);
      InverseTreeBelow(psi, p, z, v, 2 * k + 1, 2 * m, t - 1, q);
    }
  }

  /** The highest power of two, at most p, that is not above k. */
  function TopBit(k: nat, p: nat): (s: nat)
    requires PowerOfTwo(p) && 1 <= k < 2 * p
    ensures PowerOfTwo(s) && s <= p && s <= k < 2 * s
  {
    if k >= p then p else TopBit(k, p / 2)
  }
}
