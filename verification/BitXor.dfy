/** Bitwise exclusive or on natural numbers and on byte sequences, and the algebra it obeys. */
module BitXor {
  import opened ModArith
  import opened BitPacking

  function Xor(a: nat, b: nat): (c: nat)
    decreases a + b
  {
    if a == 0 && b == 0 then 0 else (a + b) % 2 + 2 * Xor(a / 2, b / 2)
  }

  /** Bit by bit this is the sum modulo 2. */
  lemma {:induction false} XorBit(a: nat, b: nat, i: nat)
    ensures Bit(Xor(a, b), i) == (Bit(a, i) + Bit(b, i)) % 2
    decreases i
  {
    XorHalf(a, b);
    if i > 0 {
      XorBit(a / 2, b / 2, i - 1);
      BitStep(a, i);
      BitStep(b, i);
      BitStep(Xor(a, b), i);
    } else {
      LowestBits(a, b);
    }
  }

  lemma {:induction false} XorHalf(a: nat, b: nat)
    ensures Xor(a, b) / 2 == Xor(a / 2, b / 2) && Xor(a, b) % 2 == (a + b) % 2
  {
  }

  lemma {:induction false} BitStep(a: nat, i: nat)
    requires i > 0
    ensures Bit(a, i) == Bit(a / 2, i - 1)
  {
  }

  lemma {:induction false} LowestBits(a: nat, b: nat)
    ensures (a + b) % 2 == (a % 2 + b % 2) % 2
  {
  }

  lemma {:induction false} XorZero(a: nat)
    ensures Xor(a, 0) == a && Xor(0, a) == a
    decreases a
  {
    if a > 0 {
      XorZero(a / 2);
    }
  }

  lemma {:induction false} XorSelf(a: nat)
    ensures Xor(a, a) == 0
    decreases a
  {
    if a > 0 {
      XorSelf(a / 2);
    }
  }

  lemma {:induction false} XorSwap(a: nat, b: nat)
    ensures Xor(a, b) == Xor(b, a)
    decreases a + b
  {
    if a + b > 0 {
      XorSwap(a / 2, b / 2);
    }
  }

  function Differ(p: int, q: int): (d: nat)
    ensures d < 2
  {
    if p == q then 0 else 1
  }

  /** The lowest bit apart. */
  lemma {:induction false} XorPair(h: nat, p: nat, k: nat, q: nat)
    requires p < 2 && q < 2
    ensures Xor(2 * h + p, 2 * k + q) == 2 * Xor(h, k) + Differ(p, q)
  {
    var a, b := 2 * h + p, 2 * k + q;
    assert a / 2 == h && b / 2 == k && (a + b) % 2 == Differ(p, q);
    if a == 0 && b == 0 {
      assert h == 0 && k == 0;
    }
  }

  lemma {:induction false} XorAssoc(a: nat, b: nat, c: nat)
    ensures Xor(Xor(a, b), c) == Xor(a, Xor(b, c))
    decreases a + b + c
  {
    if a + b + c > 0 {
      XorAssocStep(a / 2, a % 2, b / 2, b % 2, c / 2, c % 2);
    }
  }

  lemma {:induction false} XorAssocStep(h: nat, p: nat, k: nat, q: nat, l: nat, r: nat)
    requires p < 2 && q < 2 && r < 2 && h + p + k + q + l + r > 0
    ensures Xor(Xor(2 * h + p, 2 * k + q), 2 * l + r) == Xor(2 * h + p, Xor(2 * k + q, 2 * l + r))
    decreases 2 * (h + k + l) + p + q + r, 0
  {
    XorAssoc(h, k, l);
    LeftFirst(h, p, k, q, l, r);
    RightFirst(h, p, k, q, l, r);
    assert Differ(Differ(p, q), r) == Differ(p, Differ(q, r));
  }

  lemma {:induction false} LeftFirst(h: nat, p: nat, k: nat, q: nat, l: nat, r: nat)
    requires p < 2 && q < 2 && r < 2
    ensures Xor(Xor(2 * h + p, 2 * k + q), 2 * l + r) == 2 * Xor(Xor(h, k), l) + Differ(Differ(p, q), r)
  {
    XorPair(h, p, k, q);
    XorPair(Xor(h, k), Differ(p, q), l, r);
  }

  lemma {:induction false} RightFirst(h: nat, p: nat, k: nat, q: nat, l: nat, r: nat)
    requires p < 2 && q < 2 && r < 2
    ensures Xor(2 * h + p, Xor(2 * k + q, 2 * l + r)) == 2 * Xor(h, Xor(k, l)) + Differ(p, Differ(q, r))
  {
    XorPair(k, q, l, r);
    XorPair(h, p, Xor(k, l), Differ(q, r));
  }

  /** The same mask twice undoes itself. */
  lemma {:induction false} XorTwice(a: nat, b: nat)
    ensures Xor(Xor(a, b), b) == a && Xor(b, Xor(b, a)) == a
  {
    XorAssoc(a, b, b);
    XorSelf(b);
    XorZero(a);
    XorAssoc(b, b, a);
  }

  lemma {:induction false} XorDouble(a: nat, b: nat)
    ensures Xor(2 * a, 2 * b) == 2 * Xor(a, b)
  {
    XorPair(a, 0, b, 0);
  }

  function Shifted(h: nat, t: nat): (s: nat) {
    if t == 0 then h else 2 * Shifted(h, t - 1)
  }

  /** High and low parts do not meet. */
  lemma {:induction false} XorJoin(h: nat, l: nat, k: nat, m: nat, t: nat)
    requires l < Pow2(t) && m < Pow2(t)
    ensures Xor(Shifted(h, t) + l, Shifted(k, t) + m) == Shifted(Xor(h, k), t) + Xor(l, m)
    decreases t
  {
    if t > 0 {
      XorJoin(h, l / 2, k, m / 2, t - 1);
      XorJoinFrom(h, l / 2, l % 2, k, m / 2, m % 2, t - 1, t, l, m);
    } else {
      XorJoinNone(h, l, k, m, t);
    }
  }

  lemma {:induction false} XorJoinNone(h: nat, l: nat, k: nat, m: nat, t: nat)
    requires t == 0 && l == 0 && m == 0
    ensures Xor(Shifted(h, t) + l, Shifted(k, t) + m) == Shifted(Xor(h, k), t) + Xor(l, m)
  {
    XorZero(l);
  }

  lemma {:induction false} XorJoinFrom(h: nat, x: nat, p: nat, k: nat, y: nat, q: nat, r: nat, t: nat, l: nat, m: nat)
    requires t == r + 1 && l == 2 * x + p && m == 2 * y + q
    requires p < 2 && q < 2 && Xor(Shifted(h, r) + x, Shifted(k, r) + y) == Shifted(Xor(h, k), r) + Xor(x, y)
    ensures Xor(Shifted(h, t) + l, Shifted(k, t) + m) == Shifted(Xor(h, k), t) + Xor(l, m)
  {
    XorJoinStep(Shifted(h, r), x, p, Shifted(k, r), y, q, Shifted(Xor(h, k), r));
  }

  lemma {:induction false} XorJoinStep(a: nat, x: nat, p: nat, b: nat, y: nat, q: nat, c: nat)
    requires p < 2 && q < 2 && Xor(a + x, b + y) == c + Xor(x, y)
    ensures Xor(2 * a + (2 * x + p), 2 * b + (2 * y + q)) == 2 * c + Xor(2 * x + p, 2 * y + q)
  {
    XorPair(a + x, p, b + y, q);
    XorPair(x, p, y, q);
    assert 2 * a + (2 * x + p) == 2 * (a + x) + p && 2 * b + (2 * y + q) == 2 * (b + y) + q;
  }

  lemma {:induction false} XorBelow(a: nat, b: nat, k: nat)
    requires a < Pow2(k) && b < Pow2(k)
    ensures Xor(a, b) < Pow2(k)
    decreases k
  {
    if k > 0 {
      XorBelow(a / 2, b / 2, k - 1);
    }
  }

  lemma {:induction false} XorByte(a: nat, b: nat)
    requires a < 256 && b < 256
    ensures Xor(a, b) < 256
  {
    assert Pow2(8) == 256;
    XorBelow(a, b, 8);
  }

  // ----- up to eight bits, written out

  lemma {:induction false} XorBits1(p0: nat, q0: nat)
    requires p0 < 2 && q0 < 2
    ensures Xor(p0, q0) == Differ(p0, q0)
  {
    XorPair(0, p0, 0, q0);
    XorZero(0);
  }

  lemma {:induction false} XorBits2(p0: nat, p1: nat, q0: nat, q1: nat)
    requires p0 < 2 && q0 < 2 && p1 < 2 && q1 < 2
    ensures Xor(p0 + 2 * p1, q0 + 2 * q1) == Differ(p0, q0) + 2 * Differ(p1, q1)
  {
    XorBits1(p1, q1);
    XorPair(p1, p0, q1, q0);
  }

  lemma {:induction false} XorBits3(p0: nat, p1: nat, p2: nat, q0: nat, q1: nat, q2: nat)
    requires p0 < 2 && q0 < 2 && p1 < 2 && q1 < 2 && p2 < 2 && q2 < 2
    ensures Xor(p0 + 2 * (p1 + 2 * p2), q0 + 2 * (q1 + 2 * q2))
      == Differ(p0, q0) + 2 * (Differ(p1, q1) + 2 * Differ(p2, q2))
  {
    XorBits2(p1, p2, q1, q2);
    XorPair(p1 + 2 * p2, p0, q1 + 2 * q2, q0);
  }

  lemma {:induction false} XorBits4(p0: nat, p1: nat, p2: nat, p3: nat, q0: nat, q1: nat, q2: nat, q3: nat)
    requires p0 < 2 && q0 < 2 && p1 < 2 && q1 < 2 && p2 < 2 && q2 < 2 && p3 < 2 && q3 < 2
    ensures Xor(p0 + 2 * (p1 + 2 * (p2 + 2 * p3)), q0 + 2 * (q1 + 2 * (q2 + 2 * q3)))
      == Differ(p0, q0) + 2 * (Differ(p1, q1) + 2 * (Differ(p2, q2) + 2 * Differ(p3, q3)))
  {
    XorBits3(p1, p2, p3, q1, q2, q3);
    XorPair(p1 + 2 * (p2 + 2 * p3), p0, q1 + 2 * (q2 + 2 * q3), q0);
  }

  lemma {:induction false} XorBits5(p0: nat, p1: nat, p2: nat, p3: nat, p4: nat, q0: nat, q1: nat, q2: nat, q3: nat,
      q4: nat)
    requires p0 < 2 && q0 < 2 && p1 < 2 && q1 < 2 && p2 < 2 && q2 < 2 && p3 < 2 && q3 < 2 && p4 < 2 && q4 < 2
    ensures Xor(p0 + 2 * (p1 + 2 * (p2 + 2 * (p3 + 2 * p4))), q0 + 2 * (q1 + 2 * (q2 + 2 * (q3 + 2 * q4))))
      == Differ(p0, q0) + 2 * (Differ(p1, q1) + 2 * (Differ(p2, q2) + 2 * (Differ(p3, q3) + 2 * Differ(p4, q4))))
  {
    XorBits4(p1, p2, p3, p4, q1, q2, q3, q4);
    XorPair(p1 + 2 * (p2 + 2 * (p3 + 2 * p4)), p0, q1 + 2 * (q2 + 2 * (q3 + 2 * q4)), q0);
  }

  lemma {:induction false} XorBits6(p0: nat, p1: nat, p2: nat, p3: nat, p4: nat, p5: nat,
      q0: nat, q1: nat, q2: nat, q3: nat, q4: nat, q5: nat)
    requires p0 < 2 && p1 < 2 && p2 < 2 && p3 < 2 && p4 < 2 && p5 < 2
    requires q0 < 2 && q1 < 2 && q2 < 2 && q3 < 2 && q4 < 2 && q5 < 2
    ensures Xor(p0 + 2 * (p1 + 2 * (p2 + 2 * (p3 + 2 * (p4 + 2 * p5)))),
                q0 + 2 * (q1 + 2 * (q2 + 2 * (q3 + 2 * (q4 + 2 * q5)))))
      == Differ(p0, q0) + 2 * (Differ(p1, q1) + 2 * (Differ(p2, q2)
        + 2 * (Differ(p3, q3) + 2 * (Differ(p4, q4) + 2 * Differ(p5, q5)))))
  {
    XorBits5(p1, p2, p3, p4, p5, q1, q2, q3, q4, q5);
    XorPair(p1 + 2 * (p2 + 2 * (p3 + 2 * (p4 + 2 * p5))), p0, q1 + 2 * (q2 + 2 * (q3 + 2 * (q4 + 2 * q5))), q0);
  }

  lemma {:induction false} XorBits7(p0: nat, p1: nat, p2: nat, p3: nat, p4: nat, p5: nat, p6: nat,
      q0: nat, q1: nat, q2: nat, q3: nat, q4: nat, q5: nat, q6: nat)
    requires p0 < 2 && p1 < 2 && p2 < 2 && p3 < 2 && p4 < 2 && p5 < 2 && p6 < 2
    requires q0 < 2 && q1 < 2 && q2 < 2 && q3 < 2 && q4 < 2 && q5 < 2 && q6 < 2
    ensures Xor(p0 + 2 * (p1 + 2 * (p2 + 2 * (p3 + 2 * (p4 + 2 * (p5 + 2 * p6))))),
                q0 + 2 * (q1 + 2 * (q2 + 2 * (q3 + 2 * (q4 + 2 * (q5 + 2 * q6))))))
      == Differ(p0, q0) + 2 * (Differ(p1, q1) + 2 * (Differ(p2, q2)
        + 2 * (Differ(p3, q3) + 2 * (Differ(p4, q4) + 2 * (Differ(p5, q5) + 2 * Differ(p6, q6))))))
  {
    XorBits6(p1, p2, p3, p4, p5, p6, q1, q2, q3, q4, q5, q6);
    XorPair(p1 + 2 * (p2 + 2 * (p3 + 2 * (p4 + 2 * (p5 + 2 * p6)))), p0, q1
      + 2 * (q2 + 2 * (q3 + 2 * (q4 + 2 * (q5 + 2 * q6)))), q0);
  }

  lemma {:induction false} XorBits8(p0: nat, p1: nat, p2: nat, p3: nat, p4: nat, p5: nat, p6: nat, p7: nat,
      q0: nat, q1: nat, q2: nat, q3: nat, q4: nat, q5: nat, q6: nat, q7: nat)
    requires p0 < 2 && p1 < 2 && p2 < 2 && p3 < 2 && p4 < 2 && p5 < 2 && p6 < 2 && p7 < 2
    requires q0 < 2 && q1 < 2 && q2 < 2 && q3 < 2 && q4 < 2 && q5 < 2 && q6 < 2 && q7 < 2
    ensures Xor(p0 + 2 * (p1 + 2 * (p2 + 2 * (p3 + 2 * (p4 + 2 * (p5 + 2 * (p6 + 2 * p7)))))),
                q0 + 2 * (q1 + 2 * (q2 + 2 * (q3 + 2 * (q4 + 2 * (q5 + 2 * (q6 + 2 * q7)))))))
      == Differ(p0, q0) + 2 * (Differ(p1, q1) + 2 * (Differ(p2, q2)
        + 2 * (Differ(p3, q3) + 2 * (Differ(p4, q4) + 2 * (Differ(p5, q5)
        + 2 * (Differ(p6, q6) + 2 * Differ(p7, q7)))))))
  {
    XorBits7(p1, p2, p3, p4, p5, p6, p7, q1, q2, q3, q4, q5, q6, q7);
    XorPair(p1 + 2 * (p2 + 2 * (p3 + 2 * (p4 + 2 * (p5 + 2 * (p6 + 2 * p7))))), p0, q1
      + 2 * (q2 + 2 * (q3 + 2 * (q4 + 2 * (q5 + 2 * (q6 + 2 * q7))))), q0);
  }

  // ----- byte sequences

  function XorBytes(a: seq<int>, b: seq<int>): (c: seq<int>)
    requires |a| == |b| && Below(a, 256) && Below(b, 256)
    ensures |c| == |a| && Below(c, 256)
  {
    if a == [] then []
    else
      XorByte(a[0], b[0]);
      [Xor(a[0], b[0])] + XorBytes(a[1..], b[1..])
  }

  lemma {:induction false} XorBytesAt(a: seq<int>, b: seq<int>, i: nat)
    requires |a| == |b| && Below(a, 256) && Below(b, 256) && i < |a|
    ensures XorBytes(a, b)[i] == Xor(a[i], b[i])
    decreases |a|
  {
    if i > 0 {
      XorBytesAt(a[1..], b[1..], i - 1);
    }
  }

  lemma {:induction false} XorBytesTwice(a: seq<int>, b: seq<int>)
    requires |a| == |b| && Below(a, 256) && Below(b, 256)
    ensures XorBytes(XorBytes(a, b), b) == a && XorBytes(b, XorBytes(b, a)) == a
    decreases |a|
  {
    if a != [] {
      XorBytesTwice(a[1..], b[1..]);
      XorTwice(a[0], b[0]);
      assert XorBytes(a, b)[1..] == XorBytes(a[1..], b[1..]) && XorBytes(b, a)[1..] == XorBytes(b[1..], a[1..]);
    }
  }

  lemma {:induction false} XorBytesSwap(a: seq<int>, b: seq<int>)
    requires |a| == |b| && Below(a, 256) && Below(b, 256)
    ensures XorBytes(a, b) == XorBytes(b, a)
    decreases |a|
  {
    if a != [] {
      XorBytesSwap(a[1..], b[1..]);
      XorSwap(a[0], b[0]);
    }
  }
}
