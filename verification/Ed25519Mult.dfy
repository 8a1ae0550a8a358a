/** Scalar multiplication of the Ed25519 code, over any abelian group. */
module Ed25519Mult {
  import opened ModArith
  import opened BitPacking
  import opened PolyPacking
  import opened Groups
  import opened ScalarDigits

  // ----- a A + b B, for verification

  /** Table entry j is the (2j + 1)-fold of p. */
  ghost predicate OddTable<G(!new)>(g: Group<G>, t: seq<G>, p: G) {
    |t| == 8 && forall j :: 0 <= j < 8 ==> t[j] == Multiple(g, 2 * j + 1, p)
  }

  method OddMultiples<G(!new)>(g: Group<G>, p: G) returns (t: seq<G>)
    requires Abelian(g)
    ensures OddTable(g, t, p)
  {
    var p2 := g.add(p, p);
    t := [p];
    Laws(g, p, p, p);
    MultipleNext(g, 0, p);
    MultipleNext(g, 1, p);
    while |t| < 8
      invariant 1 <= |t| <= 8 && p2 == Multiple(g, 2, p)
      invariant forall j :: 0 <= j < |t| ==> t[j] == Multiple(g, 2 * j + 1, p)
    {
      MultipleAdd(g, 2, 2 * (|t| - 1) + 1, p);
      t := t + [g.add(p2, t[|t| - 1])];
    }
  }

  /** Adds or subtracts the table entry of a window digit. */
  function AddDigit<G>(g: Group<G>, r: G, t: seq<G>, d: int): G
    requires |t| == 8 && WindowDigit(d)
  {
    if d > 0 then g.add(r, t[d / 2]) else if d < 0 then g.add(r, g.neg(t[(-d) / 2])) else r
  }

  lemma {:induction false} AddDigitAdds<G(!new)>(g: Group<G>, r: G, t: seq<G>, d: int, p: G)
    requires Abelian(g) && OddTable(g, t, p) && WindowDigit(d)
    ensures AddDigit(g, r, t, d) == g.add(r, Multiple(g, d, p))
  {
    if d > 0 {
      assert t[d / 2] == Multiple(g, 2 * (d / 2) + 1, p) && 2 * (d / 2) + 1 == d;
    } else if d < 0 {
      var j := (-d) / 2;
      assert t[j] == Multiple(g, 2 * j + 1, p) && 2 * j + 1 == -d;
      MultipleNeg(g, -d, p);
    } else {
      Laws(g, r, r, r);
    }
  }

  /** The digits from i on, as a number of their own. */
  function High(s: seq<int>, i: nat): int
    requires i <= |s|
    decreases |s| - i
  {
    if i == |s| then 0 else s[i] + 2 * High(s, i + 1)
  }

  lemma {:induction false} HighIsSum(s: seq<int>, i: nat)
    requires i <= |s|
    ensures Sum(s, 1, |s|) == Sum(s, 1, i) + Pow2(i) * High(s, i)
    decreases |s| - i
  {
    if i < |s| {
      HighIsSum(s, i + 1);
      assert Pow2(i + 1) == 2 * Pow2(i);
      SplitHigh(Pow2(i), s[i], High(s, i + 1));
    }
  }

  lemma {:induction false} HighIsValue(s: seq<int>)
    ensures High(s, 0) == Sum(s, 1, |s|)
  {
    HighIsSum(s, 0);
    assert Pow2(0) == 1;
  }

  lemma {:induction false} SplitHigh(p: int, x: int, h: int)
    ensures x * p + (2 * p) * h == p * (x + 2 * h)
  {
  }

  lemma {:induction false} HighZero(s: seq<int>, i: nat)
    requires i <= |s| && forall k :: i <= k < |s| ==> s[k] == 0
    ensures High(s, i) == 0
    decreases |s| - i
  {
    if i < |s| {
      HighZero(s, i + 1);
    }
  }

  /** m p + n q */
  function Both<G>(g: Group<G>, m: int, p: G, n: int, q: G): G {
    g.add(Multiple(g, m, p), Multiple(g, n, q))
  }

  lemma {:induction false} BothDoubled<G(!new)>(g: Group<G>, m: int, p: G, n: int, q: G)
    requires Abelian(g)
    ensures g.add(Both(g, m, p, n, q), Both(g, m, p, n, q)) == Both(g, 2 * m, p, 2 * n, q)
  {
    var x, y := Multiple(g, m, p), Multiple(g, n, q);
    Swap(g, x, y, x, y);
    MultipleAdd(g, m, m, p);
    MultipleAdd(g, n, n, q);
  }

  lemma {:induction false} BothPlus<G(!new)>(g: Group<G>, m: int, p: G, n: int, q: G, c: int, d: int)
    requires Abelian(g)
    ensures g.add(g.add(Both(g, m, p, n, q), Multiple(g, c, p)), Multiple(g, d, q)) == Both(g, m + c, p, n + d, q)
  {
    var x, y, u, v := Multiple(g, m, p), Multiple(g, n, q), Multiple(g, c, p), Multiple(g, d, q);
    Laws(g, g.add(x, y), u, v);
    Swap(g, x, y, u, v);
    MultipleAdd(g, m, c, p);
    MultipleAdd(g, n, d, q);
  }

  /** One place of both scalars. */
  function Place<G>(g: Group<G>, r: G, t: seq<G>, x: int, u: seq<G>, y: int): G
    requires |t| == 8 && |u| == 8 && WindowDigit(x) && WindowDigit(y)
  {
    AddDigit(g, AddDigit(g, g.add(r, r), t, x), u, y)
  }

  lemma {:induction false} PlaceAdds<G(!new)>(g: Group<G>, r: G, t: seq<G>, x: int, p: G, m: int, u: seq<G>, y: int,
      q: G, n: int)
    requires Abelian(g) && OddTable(g, t, p) && OddTable(g, u, q) && WindowDigit(x) && WindowDigit(y)
    requires r == Both(g, m, p, n, q)
    ensures Place(g, r, t, x, u, y) == Both(g, x + 2 * m, p, y + 2 * n, q)
  {
    BothDoubled(g, m, p, n, q);
    AddDigitAdds(g, g.add(r, r), t, x, p);
    AddDigitAdds(g, AddDigit(g, g.add(r, r), t, x), u, y, q);
    BothPlus(g, 2 * m, p, 2 * n, q, x, y);
  }

  /**
    The double scalar multiplication of verification: both scalars recoded with sliding windows and
    worked off together from the top. The table for the base point is a constant of the source.
   */
  method DoubleScalarMult<G(!new)>(g: Group<G>, a: seq<int>, p: G, b: seq<int>, baseTable: seq<G>,
      ghost base: G) returns (r: G)
    requires Abelian(g) && OddTable(g, baseTable, base)
    requires Bytes(a, 32) && a[31] <= 127 && Bytes(b, 32) && b[31] <= 127
    ensures r == Both(g, Value(a), p, Value(b), base)
  {
    var x := Slide(a);
    var y := Slide(b);
    var t := OddMultiples(g, p);
    r := WorkOff(g, x[..], t, p, y[..], baseTable, base);
    HighIsValue(x[..]);
    HighIsValue(y[..]);
  }

  method WorkOff<G(!new)>(g: Group<G>, x: seq<int>, t: seq<G>, ghost p: G, y: seq<int>, u: seq<G>,
      ghost q: G) returns (r: G)
    requires Abelian(g) && OddTable(g, t, p) && OddTable(g, u, q) && |x| == |y|
    requires forall k :: 0 <= k < |x| ==> WindowDigit(x[k]) && WindowDigit(y[k])
    ensures r == Both(g, High(x, 0), p, High(y, 0), q)
  {
    var i := |x| - 1;
    while i >= 0 && x[i] == 0 && y[i] == 0
      invariant -1 <= i < |x|
      invariant forall k :: i < k < |x| ==> x[k] == 0 && y[k] == 0
    {
      i := i - 1;
    }
    HighZero(x, i + 1);
    HighZero(y, i + 1);
    r := FromPlace(g, x, t, p, y, u, q, i);
  }

  /** The places from the first one that is not zero in both scalars, down to zero. */
  method FromPlace<G(!new)>(g: Group<G>, x: seq<int>, t: seq<G>, ghost p: G, y: seq<int>, u: seq<G>, ghost q: G,
      first: int) returns (r: G)
    requires Abelian(g) && OddTable(g, t, p) && OddTable(g, u, q) && |x| == |y|
    requires forall k :: 0 <= k < |x| ==> WindowDigit(x[k]) && WindowDigit(y[k])
    requires -1 <= first < |x| && High(x, first + 1) == 0 && High(y, first + 1) == 0
    ensures r == Both(g, High(x, 0), p, High(y, 0), q)
  {
    var i := first;
    r := g.zero;
    Laws(g, g.zero, g.zero, g.zero);
    while i >= 0
      invariant -1 <= i < |x| && r == Both(g, High(x, i + 1), p, High(y, i + 1), q)
    {
      r := NextPlace(g, r, x, t, p, y, u, q, i);
      i := i - 1;
    }
  }

  /** Place i of both scalars, behind the places above it. */
  method NextPlace<G(!new)>(g: Group<G>, h: G, x: seq<int>, t: seq<G>, ghost p: G, y: seq<int>, u: seq<G>, ghost q: G,
      i: nat) returns (r: G)
    requires Abelian(g) && OddTable(g, t, p) && OddTable(g, u, q) && i < |x| == |y|
    requires WindowDigit(x[i]) && WindowDigit(y[i]) && h == Both(g, High(x, i + 1), p, High(y, i + 1), q)
    ensures r == Both(g, High(x, i), p, High(y, i), q)
  {
    PlaceAdds(g, h, t, x[i], p, High(x, i + 1), u, y[i], q, High(y, i + 1));
    r := Place(g, h, t, x[i], u, y[i]);
  }

  // ----- a B, for key generation and signing

  /** The source's constant table: entry (i, j) is the (j + 1) * 256^i - fold of the base point. */
  ghost predicate CombTable<G(!new)>(g: Group<G>, table: (int, int) -> G, base: G) {
    forall i: nat, j: nat | i < 32 && j < 8 :: table(i, j) == Multiple(g, (j + 1) * Pow2(8 * i), base)
  }

  function Select<G>(g: Group<G>, table: (int, int) -> G, i: int, d: int): G {
    if d == 0 then g.zero else if d > 0 then table(i, d - 1) else g.neg(table(i, -d - 1))
  }

  lemma {:induction false} Selected<G(!new)>(g: Group<G>, table: (int, int) -> G, base: G, i: nat, d: int)
    requires Abelian(g) && CombTable(g, table, base) && i < 32 && -8 <= d <= 8
    ensures Select(g, table, i, d) == Multiple(g, d * Pow2(8 * i), base)
  {
    if d > 0 {
      var j: nat := d - 1;
      assert table(i, j) == Multiple(g, (j + 1) * Pow2(8 * i), base);
    } else if d < 0 {
      var j: nat := -d - 1;
      assert table(i, j) == Multiple(g, (j + 1) * Pow2(8 * i), base);
      MultipleNeg(g, -d * Pow2(8 * i), base);
      assert -(-d * Pow2(8 * i)) == d * Pow2(8 * i);
    }
  }

  /** Every other digit, from place k % 2 on and below k, weighted with 256 per pair. */
  function Comb(s: seq<int>, k: nat): int
    requires k <= |s| + 1
    decreases k, |s|
  {
    if k < 2 then 0 else Comb(s, k - 2) + s[k - 2] * Pow2(8 * ((k - 2) / 2))
  }

  /** The odd digits times 16 and the even ones make up the sum. */
  lemma {:induction false} CombIsSum(s: seq<int>, n: nat)
    requires 2 * n <= |s|
    ensures 16 * Comb(s, 2 * n + 1) + Comb(s, 2 * n) == Sum(s, 4, 2 * n)
    decreases n
  {
    if n > 0 {
      CombIsSum(s, n - 1);
      var p, m: nat := Pow2(8 * (n - 1)), 8 * (n - 1);
      assert (2 * n - 1) / 2 == n - 1 && (2 * n - 2) / 2 == n - 1;
      assert 4 * (2 * n - 2) == m && 4 * (2 * n - 1) == m + 4;
      PowFive(m);
      assert Sum(s, 4, 2 * n) == Sum(s, 4, 2 * n - 2) + s[2 * n - 2] * p + s[2 * n - 1] * (16 * p);
      assert Comb(s, 2 * n + 1) == Comb(s, 2 * n - 1) + s[2 * n - 1] * p;
      assert Comb(s, 2 * n) == Comb(s, 2 * n - 2) + s[2 * n - 2] * p;
      SixteenTimes(s[2 * n - 1], p);
    }
  }

  lemma {:induction false} SixteenTimes(x: int, p: int)
    ensures 16 * (x * p) == x * (16 * p)
  {
  }

  lemma {:induction false} CombNext<G(!new)>(g: Group<G>, table: (int, int) -> G, base: G, s: seq<int>, i: nat, n: int)
    requires Abelian(g) && CombTable(g, table, base) && i < |s| <= 64 && -8 <= s[i] <= 8
    ensures g.add(Multiple(g, n + Comb(s, i), base), Select(g, table, i / 2, s[i]))
      == Multiple(g, n + Comb(s, i + 2), base)
  {
    Selected(g, table, base, i / 2, s[i]);
    MultipleAdd(g, n + Comb(s, i), s[i] * Pow2(8 * (i / 2)), base);
  }

  /** Every other digit from the first given one on, each with its own row of the table. */
  method AddEveryOther<G(!new)>(g: Group<G>, h: G, e: seq<int>, first: int, table: (int, int) -> G, ghost base: G,
      ghost n: int) returns (r: G)
    requires Abelian(g) && CombTable(g, table, base) && |e| <= 64 && |e| % 2 == 0 && 0 <= first <= 1
    requires Signed16(e)
    requires h == Multiple(g, n, base)
    ensures r == Multiple(g, n + Comb(e, |e| + first), base)
  {
    r := h;
    var i := first;
    while i < |e|
      invariant first <= i <= |e| + first && i % 2 == first && r == Multiple(g, n + Comb(e, i), base)
    {
      r := NextDigit(g, r, e, i, table, base, n);
      i := i + 2;
    }
  }

  method NextDigit<G(!new)>(g: Group<G>, h: G, e: seq<int>, i: nat, table: (int, int) -> G, ghost base: G,
      ghost n: int) returns (r: G)
    requires Abelian(g) && CombTable(g, table, base) && i < |e| <= 64 && -8 <= e[i] <= 8
    requires h == Multiple(g, n + Comb(e, i), base)
    ensures r == Multiple(g, n + Comb(e, i + 2), base)
  {
    CombNext(g, table, base, e, i, n);
    r := g.add(h, Select(g, table, i / 2, e[i]));
  }

  /** Four doublings. */
  method Times16<G(!new)>(g: Group<G>, h: G, ghost n: int, ghost base: G) returns (r: G)
    requires Abelian(g) && h == Multiple(g, n, base)
    ensures r == Multiple(g, 16 * n, base)
  {
    MultipleAdd(g, n, n, base);
    r := g.add(h, h);
    MultipleAdd(g, 2 * n, 2 * n, base);
    r := g.add(r, r);
    MultipleAdd(g, 4 * n, 4 * n, base);
    r := g.add(r, r);
    MultipleAdd(g, 8 * n, 8 * n, base);
    r := g.add(r, r);
  }

  /** The fixed-base multiplication: odd digits first, four doublings, then the even digits. */
  method ScalarMultBase<G(!new)>(g: Group<G>, a: seq<int>, table: (int, int) -> G, ghost base: G) returns (h: G)
    requires Abelian(g) && CombTable(g, table, base) && Bytes(a, 32) && a[31] <= 127
    ensures h == Multiple(g, Value(a), base)
  {
    var e := Radix16(a);
    CombIsSum(e[..], |a|);
    h := CombDigits(g, e[..], table, base);
  }

  method CombDigits<G(!new)>(g: Group<G>, s: seq<int>, table: (int, int) -> G, ghost base: G) returns (h: G)
    requires Abelian(g) && CombTable(g, table, base) && Signed16(s) && |s| % 2 == 0 && |s| <= 64
    ensures h == Multiple(g, 16 * Comb(s, |s| + 1) + Comb(s, |s|), base)
  {
    h := AddEveryOther(g, g.zero, s, 1, table, base, 0);
    h := Times16(g, h, Comb(s, |s| + 1), base);
    h := AddEveryOther(g, h, s, 0, table, base, 16 * Comb(s, |s| + 1));
  }
}
