/** The scalar operations stay inside 64-bit signed integers: every product, sum and carry on the way fits. */
module ScalarWidths {
  import opened MachineInts
  import opened PolyPacking
  import opened ScalarReduce
  import opened ScalarMulAdd

  // ----- what a step computes on the way

  /** The six products of a fold and the limbs they are added to. */
  predicate FoldFits(s: seq<int>, k: nat)
    requires 12 <= k < |s|
  {
    var (x, t) := (s[k], Fold(s, k));
    && InInt64(x * 666643) && InInt64(x * 470296) && InInt64(x * 654183)
    && InInt64(x * 997805) && InInt64(x * 136657) && InInt64(x * 683901)
    && InInt64(t[k - 12]) && InInt64(t[k - 11]) && InInt64(t[k - 10])
    && InInt64(t[k - 9]) && InInt64(t[k - 8]) && InInt64(t[k - 7])
  }

  /** The rounding constant added to the limb, the carry shifted back, and the two new limbs. */
  predicate CarryFits(s: seq<int>, i: nat, half: int)
    requires i + 1 < |s|
  {
    var c := (s[i] + half) / LIMB;
    InInt64(s[i] + half) && InInt64(c * LIMB) && InInt64(s[i + 1] + c) && InInt64(s[i] - c * LIMB)
  }

  predicate FoldsFit(s: seq<int>, hi: nat, lo: nat)
    requires 12 <= lo && hi < |s|
    decreases hi, |s|
  {
    hi < lo || (FoldFits(s, hi) && FoldsFit(Fold(s, hi), hi - 1, lo))
  }

  predicate RoundsFit(s: seq<int>, i: nat, last: nat)
    requires last + 1 < |s|
    decreases |s| - i
  {
    i > last || (CarryFits(s, i, 0x10_0000) && RoundsFit(Round(s, i), i + 2, last))
  }

  predicate FloorsFit(s: seq<int>, i: nat, last: nat)
    requires last + 1 < |s|
    decreases |s| - i
  {
    i > last || (CarryFits(s, i, 0) && FloorsFit(Floor(s, i), i + 1, last))
  }

  predicate PassesFit(s: seq<int>, i: nat, last: nat, last': nat)
    requires i <= last && last + 1 < |s| && last' + 1 < |s|
  {
    RoundsFit(s, i, last) && RoundsFit(Rounds(s, i, last), i + 1, last')
  }

  /** All steps of the reduction. */
  predicate ReduceFits(s: seq<int>)
    requires |s| == 24
  {
    var a := Folds(s, 23, 18);
    var b := BothPasses(a, 6, 16, 15);
    var c := Folds(b, 17, 12);
    var d := BothPasses(c[12 := 0], 0, 10, 11);
    var e := Fold(d, 12)[12 := 0];
    var f := Floors(e, 0, 11);
    && FoldsFit(s, 23, 18) && PassesFit(a, 6, 16, 15)
    && FoldsFit(b, 17, 12) && PassesFit(c[12 := 0], 0, 10, 11)
    && FoldFits(d, 12) && FloorsFit(e, 0, 11)
    && FoldFits(f, 12) && FloorsFit(Fold(f, 12), 0, 10)
  }

  // ----- bounds that suffice

  const WIDE := 0x2000_0000_0000_0000    // 2^61

  lemma {:induction false} FoldWidth(s: seq<int>, k: nat, m: int, b: int)
    requires 12 <= k < |s| && -m <= s[k] <= m && 0 <= m <= 0x200_0000_0000 && 0 <= b <= WIDE && Within(s, 0, k - 6, b)
    ensures FoldFits(s, k)
  {
    ProductWithin(s[k], m);
  }

  lemma {:induction false} StillWithin(s: seq<int>, t: seq<int>, lo: nat, hi: nat, m: int)
    requires |s| == |t| && lo <= hi < |s| && t[lo..] == s[lo..] && Within(s, lo, hi + 1, m)
    ensures Within(t, lo, hi, m)
  {
    assert forall i :: lo <= i < hi ==> t[i] == t[lo..][i - lo] == s[lo..][i - lo];
  }

  /** What n folds may add to a limb. */
  function Growth(n: nat, c: nat): (g: nat)
    decreases n, c
  {
    if n == 0 then 0 else Growth(n - 1, c) + c
  }

  lemma {:induction false} GrowthOfSix(c: nat)
    ensures Growth(6, c) == 6 * c
  {
    assert Growth(1, c) == c && Growth(2, c) == 2 * c && Growth(3, c) == 3 * c && Growth(4, c) == 4 * c
      && Growth(5, c) == 5 * c;
  }

  lemma {:induction false} FoldsWidth(s: seq<int>, hi: nat, lo: nat, m: int, b: int, c: nat)
    requires 12 <= lo <= hi + 1 && hi < |s| && hi < lo + 6 && 0 <= m <= 0x80_0000_0000 && c == m * 0x10_0000
    requires 0 <= b && b + Growth(hi + 1 - lo, c) <= WIDE && Within(s, lo, hi + 1, m) && Within(s, 0, lo, b)
    ensures FoldsFit(s, hi, lo)
    decreases hi
  {
    if lo <= hi {
      FoldStep(s, hi, lo, m, b, c);
      FoldsWidth(Fold(s, hi), hi - 1, lo, m, b + c, c);
    }
  }

  lemma {:induction false} FoldStep(s: seq<int>, hi: nat, lo: nat, m: int, b: int, c: nat)
    requires 12 <= lo <= hi < |s| && hi < lo + 6 && 0 <= m <= 0x80_0000_0000 && c == m * 0x10_0000
    requires 0 <= b && b + c <= WIDE && Within(s, lo, hi + 1, m) && Within(s, 0, lo, b)
    ensures FoldFits(s, hi) && Within(Fold(s, hi), 0, lo, b + c) && Within(Fold(s, hi), lo, hi, m)
  {
    FoldWidth(s, hi, m, b);
    FoldWithin(s, hi, lo, m, b);
    StillWithin(s, Fold(s, hi), lo, hi, m);
  }

  lemma {:induction false} CarryWidth(s: seq<int>, i: nat, half: int)
    requires i + 1 < |s| && 0 <= half <= 0x10_0000 && -2 * WIDE <= s[i] <= 2 * WIDE && -WIDE <= s[i + 1] <= WIDE
    ensures CarryFits(s, i, half)
  {
  }

  lemma {:induction false} RoundsWidth(s: seq<int>, i: nat, last: nat)
    requires last + 1 < |s| && (last - i) % 2 == 0 && i <= last + 2 && Within(s, i, last + 2, WIDE)
    ensures RoundsFit(s, i, last)
    decreases |s| - i
  {
    if i <= last {
      CarryWidth(s, i, 0x10_0000);
      RoundsWidth(Round(s, i), i + 2, last);
    }
  }

  lemma {:induction false} FloorsWidth(s: seq<int>, i: nat, last: nat, m: int)
    requires last + 1 < |s| && i <= last + 1 && LIMB <= m && 2 * m <= WIDE
    requires -2 * m <= s[i] <= 2 * m && Within(s, i + 1, last + 2, m)
    ensures FloorsFit(s, i, last)
    decreases |s| - i
  {
    if i <= last {
      CarryWidth(s, i, 0);
      assert -m <= s[i] / LIMB <= m;
      FloorsWidth(Floor(s, i), i + 1, last, m);
    }
  }

  /** Both passes, from limbs of at most m. */
  lemma {:induction false} PassesWidth(s: seq<int>, i: nat, last: nat, last': nat, m: int)
    requires i < last && (last - i) % 2 == 0 && last + 1 < |s| && last' + 1 < |s|
    requires last' == last + 1 || last' == last - 1
    requires 0x10_0000_0000 <= m && 2 * m <= WIDE && Within(s, i, (if last' > last then last' else last) + 2, m)
    ensures PassesFit(s, i, last, last')
  {
    var r := Rounds(s, i, last);
    RoundsWidth(s, i, last);
    RoundsWithin(s, i, last, m);
    forall j | i + 1 <= j < last' + 2 ensures -WIDE <= r[j] <= WIDE {
      if j <= last && (j - i) % 2 == 0 {
        assert -0x10_0000 <= r[j] < 0x10_0000;
      } else if j <= last + 1 {
        assert (j - i) % 2 == 1;
        assert m / LIMB + 1 <= m;
      }
    }
    RoundsWidth(r, i + 1, last');
  }

  // ----- the reduction

  lemma {:induction false} FirstWidth(s: seq<int>)
    requires |s| == 24 && Within(s, 0, 24, SMALL)
    ensures FoldsFit(s, 23, 18) && PassesFit(Folds(s, 23, 18), 6, 16, 15)
  {
    var a := Folds(s, 23, 18);
    GrowthOfSix(SMALL * 0x10_0000);
    FoldsWidth(s, 23, 18, SMALL, SMALL, SMALL * 0x10_0000);
    FoldsWithin(s, 23, 18, SMALL, SMALL, SMALL * 0x10_0000);
    assert Within(a, 6, 18, 0x40_0000_0000_0000);
    PassesWidth(a, 6, 16, 15, 0x40_0000_0000_0000);
  }

  lemma {:induction false} SecondWidth(b: seq<int>)
    requires |b| == 24 && Within(b, 0, 18, 0x8_0000_0000)
    ensures FoldsFit(b, 17, 12) && PassesFit(Folds(b, 17, 12)[12 := 0], 0, 10, 11)
  {
    var a := Folds(b, 17, 12);
    GrowthOfSix(0x8_0000_0000 * 0x10_0000);
    FoldsWidth(b, 17, 12, 0x8_0000_0000, 0x8_0000_0000, 0x8_0000_0000 * 0x10_0000);
    FoldsWithin(b, 17, 12, 0x8_0000_0000, 0x8_0000_0000, 0x8_0000_0000 * 0x10_0000);
    assert Within(a[12 := 0], 0, 13, 0x400_0000_0000_0000);
    PassesWidth(a[12 := 0], 0, 10, 11, 0x400_0000_0000_0000);
  }

  lemma {:induction false} ThirdWidth(d: seq<int>)
    requires |d| == 24 && Within(d, 0, 12, 0x40_0010_0001) && -0x10_0000 <= d[11] < 0x10_0000
      && Within(d, 12, 13, 0x80_0000_0000)
    ensures var e := Fold(d, 12)[12 := 0]; FoldFits(d, 12) && FloorsFit(e, 0, 11)
  {
    var e := Fold(d, 12)[12 := 0];
    FoldWidth(d, 12, 0x80_0000_0000, 0x40_0010_0001);
    FoldWithin(d, 12, 12, 0x80_0000_0000, 0x40_0010_0001);
    assert Within(e, 0, 13, 0x1000_0000_0000_0000);
    FloorsWidth(e, 0, 11, 0x1000_0000_0000_0000);
  }

  lemma {:induction false} LastWidth(f: seq<int>)
    requires |f| == 24 && (f[12] == -1 || f[12] == 0) && forall j :: 0 <= j < 12 ==> 0 <= f[j] < LIMB
    ensures FoldFits(f, 12) && FloorsFit(Fold(f, 12), 0, 10)
  {
    FoldWidth(f, 12, 1, LIMB);
    FoldWithin(f, 12, 12, 1, LIMB);
    FloorsWidth(Fold(f, 12), 0, 10, 2 * LIMB);
  }

  /** No step of the reduction overflows, under the conditions that make it exact. */
  lemma {:induction false} ReduceStaysInside(s: seq<int>)
    requires |s| == 24 && Within(s, 0, 24, SMALL)
    ensures ReduceFits(s)
  {
    var b := BothPasses(Folds(s, 23, 18), 6, 16, 15);
    var d := BothPasses(Folds(b, 17, 12)[12 := 0], 0, 10, 11);
    var e := Fold(d, 12)[12 := 0];
    FirstWidth(s);
    FirstHalf(s);
    SecondWidth(b);
    SecondHalf(b);
    ThirdWidth(d);
    NearZero(d);
    LastFold(e);
    FloorsRange(e, 0, 11);
    LastWidth(Floors(e, 0, 11));
  }

  // ----- multiply and add

  /** Every product, every partial sum of the products, and every step after them. */
  predicate MulAddFits(a: seq<int>, b: seq<int>, c: seq<int>)
    requires |a| == |b| == |c| == 12
  {
    var c' := c + seq(12, _ => 0);
    var u := ProductLimbs(a, b, c', 12);
    && (forall i, j :: 0 <= i < 12 && 0 <= j < 12 ==> InInt64(a[i] * b[j]))
    && (forall n: nat, k :: n <= 12 && 0 <= k < 24 ==> InInt64(ProductLimbs(a, b, c', n)[k]))
    && PassesFit(u, 0, 22, 21) && ReduceFits(BothPasses(u, 0, 22, 21))
  }

  /** Multiplication and addition do not overflow either. */
  lemma {:induction false} MulAddStaysInside(a: seq<int>, b: seq<int>, c: seq<int>)
    requires ScalarLimbs(a) && ScalarLimbs(b) && ScalarLimbs(c)
    ensures MulAddFits(a, b, c)
  {
    var c' := c + seq(12, _ => 0);
    var u := ProductLimbs(a, b, c', 12);
    forall i, j | 0 <= i < 12 && 0 <= j < 12 ensures InInt64(a[i] * b[j]) {
      BoundedProduct(a[i], b[j], 0x200_0000, 0x200_0000);
    }
    forall n: nat, k | n <= 12 && 0 <= k < 24
      ensures 0 <= ProductLimbs(a, b, c', n)[k] <= 0x4_0000_0000_0000 && (k == 23 ==> ProductLimbs(a, b, c', n)[k] == 0)
    {
      ProductWithinBounds(a, b, c', n, k);
    }
    PassesWidth(u, 0, 22, 21, 0x4_0000_0000_0000);
    BothPassesWithin(u, 0, 22, 21, 23, 0x4_0000_0000_0000, 0x4000_0001);
    ReduceStaysInside(BothPasses(u, 0, 22, 21));
  }

  /** From 64 bytes, and from three times 32 bytes, whatever they are. */
  lemma {:induction false} BytesStayInside(x: seq<int>, a: seq<int>, b: seq<int>, c: seq<int>)
    requires Bytes(x, 64) && Bytes(a, 32) && Bytes(b, 32) && Bytes(c, 32)
    ensures ReduceFits(LoadAll(x)) && MulAddFits(LoadTwelve(a), LoadTwelve(b), LoadTwelve(c))
  {
    LoadAllValue(x);
    ReduceStaysInside(LoadAll(x));
    LoadTwelveValue(a);
    LoadTwelveValue(b);
    LoadTwelveValue(c);
    MulAddStaysInside(LoadTwelve(a), LoadTwelve(b), LoadTwelve(c));
  }
}
