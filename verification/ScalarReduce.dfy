/**
  Reduction of scalars modulo the group order, on signed limbs of 21 bits. The source writes every fold
  and every carry out; here runs of folds and of carries are functions of the limbs.
 */
module ScalarReduce {
  import opened ModArith
  import opened ScalarDigits

  /** 2^252 + 27742317777372353535851937790883648493, the order of the base point. */
  const L: nat := 7237005577332262213973186563042994240857116359379907606001950938285454250989

  const LIMB := 0x20_0000    // 2^21

  /** The value of the first n limbs. */
  function Limbs(s: seq<int>, n: nat): int
    requires n <= |s|
  {
    Sum(s, 21, n)
  }

  // ----- the three operations

  /** Replaces limb k, worth 2^252 times limb k - 12, by its equivalent modulo L. */
  function Fold(s: seq<int>, k: nat): (t: seq<int>)
    requires 12 <= k < |s|
    ensures |t| == |s|
  {
    var (j, x) := (k - 12, s[k]);
    s[j := s[j] + x * 666643][j + 1 := s[j + 1] + x * 470296][j + 2 := s[j + 2] + x * 654183]
     [j + 3 := s[j + 3] - x * 997805][j + 4 := s[j + 4] + x * 136657][j + 5 := s[j + 5] - x * 683901]
  }

  function Carry(s: seq<int>, i: nat, c: int): (t: seq<int>)
    requires i + 1 < |s|
    ensures |t| == |s|
  {
    s[i + 1 := s[i + 1] + c][i := s[i] - c * LIMB]
  }

  /** Carries out of limb i so that it ends up between -2^20 and 2^20. */
  function Round(s: seq<int>, i: nat): (t: seq<int>)
    requires i + 1 < |s|
    ensures |t| == |s|
  {
    Carry(s, i, (s[i] + 0x10_0000) / LIMB)
  }

  /** Carries out of limb i so that it ends up between 0 and 2^21. */
  function Floor(s: seq<int>, i: nat): (t: seq<int>)
    requires i + 1 < |s|
    ensures |t| == |s|
  {
    Carry(s, i, s[i] / LIMB)
  }

  // ----- what they do to the value

  lemma {:induction false} PowLimb(n: nat)
    ensures Pow2(n + 21) == LIMB * Pow2(n)
  {
    PowStep(n);
    PowStep(n + 8);
    PowFive(n + 16);
  }

  lemma {:induction false} CarryKeeps(s: seq<int>, i: nat, c: int, n: nat)
    requires i + 1 < n <= |s|
    ensures Limbs(Carry(s, i, c), n) == Limbs(s, n)
  {
    var t := s[i + 1 := s[i + 1] + c];
    SumUpdate(s, 21, i + 1, s[i + 1] + c, n);
    SumUpdate(t, 21, i, s[i] - c * LIMB, n);
    PowLimb(21 * i);
    Cancelled(c, Pow2(21 * i));
  }

  lemma {:induction false} Cancelled(c: int, p: int)
    ensures c * (LIMB * p) + (0 - c * LIMB) * p == 0
  {
  }

  /** A fold takes a multiple of L away and the top limb with it. */
  lemma {:induction false} FoldKeeps(s: seq<int>, k: nat)
    requires 12 <= k < |s|
    ensures Limbs(Fold(s, k), k) == Limbs(s, k + 1) - s[k] * Pow2(21 * (k - 12)) * L
  {
    var j, x, p := k - 12, s[k], Pow2(21 * (k - 12));
    var s1 := s[j := s[j] + x * 666643];
    var s2 := s1[j + 1 := s[j + 1] + x * 470296];
    var s3 := s2[j + 2 := s[j + 2] + x * 654183];
    var s4 := s3[j + 3 := s[j + 3] - x * 997805];
    var s5 := s4[j + 4 := s[j + 4] + x * 136657];
    SumUpdate(s, 21, j, s[j] + x * 666643, k);
    SumUpdate(s1, 21, j + 1, s[j + 1] + x * 470296, k);
    SumUpdate(s2, 21, j + 2, s[j + 2] + x * 654183, k);
    SumUpdate(s3, 21, j + 3, s[j + 3] - x * 997805, k);
    SumUpdate(s4, 21, j + 4, s[j + 4] + x * 136657, k);
    SumUpdate(s5, 21, j + 5, s[j + 5] - x * 683901, k);
    FoldPowers(j);
    FoldValue(x, p);
  }

  lemma {:induction false} FoldPowers(j: nat)
    ensures var p := Pow2(21 * j);
      && Pow2(21 * (j + 1)) == 0x20_0000 * p
      && Pow2(21 * (j + 2)) == 0x400_0000_0000 * p
      && Pow2(21 * (j + 3)) == 0x8000_0000_0000_0000 * p
      && Pow2(21 * (j + 4)) == 0x10_0000_0000_0000_0000_0000 * p
      && Pow2(21 * (j + 5)) == 0x200_0000_0000_0000_0000_0000_0000 * p
      && Pow2(21 * (j + 12)) == (L - 27742317777372353535851937790883648493) * p
  {
    PowLimb(21 * j);
    PowLimb(21 * j + 21);
    PowLimb(21 * j + 42);
    PowLimb(21 * j + 63);
    PowLimb(21 * j + 84);
    PowLimb(21 * j + 105);
    PowLimb(21 * j + 126);
    PowLimb(21 * j + 147);
    PowLimb(21 * j + 168);
    PowLimb(21 * j + 189);
    PowLimb(21 * j + 210);
    PowLimb(21 * j + 231);
  }

  lemma {:induction false} FoldValue(x: int, p: int)
    ensures (x * 666643) * p + (x * 470296) * (0x20_0000 * p) + (x * 654183) * (0x400_0000_0000 * p)
          + (0 - x * 997805) * (0x8000_0000_0000_0000 * p) + (x * 136657) * (0x10_0000_0000_0000_0000_0000 * p)
          + (0 - x * 683901) * (0x200_0000_0000_0000_0000_0000_0000 * p)
          == x * ((L - 27742317777372353535851937790883648493) * p) - x * p * L
  {
  }

  // ----- runs of operations

  /** Folds limbs from hi down to lo. */
  function Folds(s: seq<int>, hi: nat, lo: nat): (t: seq<int>)
    requires 12 <= lo && hi < |s|
    ensures |t| == |s|
    decreases hi, |s|
  {
    if hi < lo then s else Folds(Fold(s, hi), hi - 1, lo)
  }

  /** Rounds every other limb from i to last. */
  function Rounds(s: seq<int>, i: nat, last: nat): (t: seq<int>)
    requires last + 1 < |s|
    ensures |t| == |s|
    decreases |s| - i
  {
    if i > last then s else Rounds(Round(s, i), i + 2, last)
  }

  function Floors(s: seq<int>, i: nat, last: nat): (t: seq<int>)
    requires last + 1 < |s|
    ensures |t| == |s|
    decreases |s| - i
  {
    if i > last then s else Floors(Floor(s, i), i + 1, last)
  }

  lemma {:induction false} FoldsCong(s: seq<int>, hi: nat, lo: nat)
    requires 12 <= lo <= hi + 1 && hi < |s|
    ensures Cong(Limbs(Folds(s, hi, lo), lo), Limbs(s, hi + 1), L)
    decreases hi
  {
    if lo <= hi {
      var t := Fold(s, hi);
      FoldKeeps(s, hi);
      CongIntro(Limbs(t, hi), Limbs(s, hi + 1), L, -(s[hi] * Pow2(21 * (hi - 12))));
      FoldsCong(t, hi - 1, lo);
      CongTrans(Limbs(Folds(t, hi - 1, lo), lo), Limbs(t, hi), Limbs(s, hi + 1), L);
    }
  }

  lemma {:induction false} RoundsKeep(s: seq<int>, i: nat, last: nat, n: nat)
    requires last + 1 < n <= |s|
    ensures Limbs(Rounds(s, i, last), n) == Limbs(s, n)
    decreases |s| - i
  {
    if i <= last {
      CarryKeeps(s, i, (s[i] + 0x10_0000) / LIMB, n);
      RoundsKeep(Round(s, i), i + 2, last, n);
    }
  }

  lemma {:induction false} FloorsKeep(s: seq<int>, i: nat, last: nat, n: nat)
    requires last + 1 < n <= |s|
    ensures Limbs(Floors(s, i, last), n) == Limbs(s, n)
    decreases |s| - i
  {
    if i <= last {
      CarryKeeps(s, i, s[i] / LIMB, n);
      FloorsKeep(Floor(s, i), i + 1, last, n);
    }
  }

  // ----- how large the limbs get

  /** Limbs lo to hi - 1 are within m of zero. */
  predicate Within(s: seq<int>, lo: nat, hi: nat, m: int) {
    hi <= |s| && forall i :: lo <= i < hi ==> -m <= s[i] <= m
  }

  lemma {:induction false} ProductWithin(x: int, m: int)
    requires -m <= x <= m
    ensures -(m * 0x10_0000) <= x * 666643 <= m * 0x10_0000 && -(m * 0x10_0000) <= x * 470296 <= m * 0x10_0000
    ensures -(m * 0x10_0000) <= x * 654183 <= m * 0x10_0000 && -(m * 0x10_0000) <= x * 997805 <= m * 0x10_0000
    ensures -(m * 0x10_0000) <= x * 136657 <= m * 0x10_0000 && -(m * 0x10_0000) <= x * 683901 <= m * 0x10_0000
  {
  }

  lemma {:induction false} FoldWithin(s: seq<int>, k: nat, lo: nat, m: int, b: int)
    requires 12 <= lo <= k < lo + 6 && k < |s| && 0 <= m && -m <= s[k] <= m && Within(s, 0, lo, b)
    ensures var t := Fold(s, k);
      && Within(t, 0, lo, b + m * 0x10_0000) && t[lo..] == s[lo..] && t[..lo - 12] == s[..lo - 12]
  {
    ProductWithin(s[k], m);
  }

  /** Folding limbs of at most m adds at most 2^20 m per fold, and leaves the limbs to be folded alone. */
  lemma {:induction false} FoldsWithin(s: seq<int>, hi: nat, lo: nat, m: int, b: int, c: int)
    requires 12 <= lo <= hi + 1 && hi < |s| && hi < lo + 6 && 0 <= m && c == m * 0x10_0000
    requires Within(s, lo, hi + 1, m) && Within(s, 0, lo, b)
    ensures Within(Folds(s, hi, lo), 0, lo, b + (hi + 1 - lo) * c)
    ensures Folds(s, hi, lo)[..lo - 12] == s[..lo - 12]
    ensures forall j :: hi - 6 <= j < |s| ==> Folds(s, hi, lo)[j] == s[j]
    decreases hi
  {
    if lo <= hi {
      var t := Fold(s, hi);
      FoldWithin(s, hi, lo, m, b);
      assert Within(t, lo, hi, m) by {
        assert forall i :: lo <= i < hi ==> t[i] == t[lo..][i - lo] == s[lo..][i - lo];
      }
      FoldsWithin(t, hi - 1, lo, m, b + c, c);
      assert (hi + 1 - lo) * c == (hi - lo) * c + c;
    }
  }

  lemma {:induction false} RoundWithin(s: seq<int>, i: nat, m: int)
    requires i + 1 < |s| && 0x10_0000 <= m && -m <= s[i] <= m
    ensures var t := Round(s, i);
      && (forall j :: 0 <= j < |s| && j != i && j != i + 1 ==> t[j] == s[j])
      && -0x10_0000 <= t[i] < 0x10_0000
      && -(m / LIMB + 1) <= t[i + 1] - s[i + 1] <= m / LIMB + 1
  {
  }

  /** One pass over every other limb: they come down to 2^20, and their neighbours grow by the carries. */
  lemma {:induction false} RoundsWithin(s: seq<int>, i: nat, last: nat, m: int)
    requires last + 1 < |s| && (last - i) % 2 == 0 && i <= last + 2
    requires 0x10_0000 <= m && forall j :: i <= j <= last && (j - i) % 2 == 0 ==> -m <= s[j] <= m
    ensures var t := Rounds(s, i, last);
      && (forall j :: 0 <= j < i ==> t[j] == s[j])
      && (forall j :: i <= j <= last && (j - i) % 2 == 0 ==> -0x10_0000 <= t[j] < 0x10_0000)
      && (forall j :: i < j <= last + 1 && (j - i) % 2 == 1 ==> -(m / LIMB + 1) <= t[j] - s[j] <= m / LIMB + 1)
      && (forall j :: last + 1 < j < |s| ==> t[j] == s[j])
    decreases |s| - i
  {
    if i <= last {
      RoundWithin(s, i, m);
      RoundsWithin(Round(s, i), i + 2, last, m);
    }
  }

  /** Two passes: the limbs i, i + 2, and so on to last, then those between, to last'. */
  function BothPasses(s: seq<int>, i: nat, last: nat, last': nat): (t: seq<int>)
    requires i <= last && last + 1 < |s| && last' + 1 < |s|
    ensures |t| == |s|
  {
    Rounds(Rounds(s, i, last), i + 1, last')
  }

  /**
    After the two passes the limbs have come down from m to little more than 2^20; top is the limb
    carried into last.
   */
  lemma {:induction false} BothPassesWithin(s: seq<int>, i: nat, last: nat, last': nat, top: nat, m: int, c: int)
    requires i < last && (last - i) % 2 == 0 && last + 1 < |s| && last' + 1 < |s|
    requires (last' == last + 1 && top == last + 2) || (last' == last - 1 && top == last + 1)
    requires 0x10_0000_0000 <= m && c == m / 0x10_0000 + 1 && top < |s| && Within(s, i, top, m)
    ensures var t := BothPasses(s, i, last, last');
      && Within(t, i, top, 0x10_0000 + c) && -c <= t[top] - s[top] <= c
      && (last' == last + 1 ==> -0x10_0000 <= t[last + 1] < 0x10_0000)
      && (forall j :: 0 <= j < i || top < j < |s| ==> t[j] == s[j])
  {
    var r := Rounds(s, i, last);
    RoundsWithin(s, i, last, m);
    OddWithin(s, r, i, last, last', m);
    RoundsWithin(r, i + 1, last', 2 * m);
    PassesTogether(s, r, Rounds(r, i + 1, last'), i, last, last', top, m, c);
  }

  lemma {:induction false} PassesTogether(s: seq<int>, r: seq<int>, t: seq<int>, i: nat, last: nat, last': nat,
      top: nat, m: int, c: int)
    requires |s| == |r| == |t| && i < last && (last - i) % 2 == 0 && last + 1 < |s| && last' + 1 < |s|
    requires (last' == last + 1 && top == last + 2) || (last' == last - 1 && top == last + 1)
    requires top < |s| && c == m / 0x10_0000 + 1 && 0 <= m
    requires forall j :: i <= j <= last && (j - i) % 2 == 0 ==> -0x10_0000 <= r[j] < 0x10_0000
    requires forall j :: 0 <= j < i || last + 1 < j < |s| ==> r[j] == s[j]
    requires forall j :: i < j <= last + 1 && (j - i) % 2 == 1 ==> -(m / LIMB + 1) <= r[j] - s[j] <= m / LIMB + 1
    requires forall j :: 0 <= j < i + 1 || last' + 1 < j < |s| ==> t[j] == r[j]
    requires forall j :: i + 1 <= j <= last' && (j - (i + 1)) % 2 == 0 ==> -0x10_0000 <= t[j] < 0x10_0000
    requires forall j :: i + 1 < j <= last' + 1 && (j - (i + 1)) % 2 == 1 ==>
      -(2 * m / LIMB + 1) <= t[j] - r[j] <= 2 * m / LIMB + 1
    ensures Within(t, i, top, 0x10_0000 + c) && -c <= t[top] - s[top] <= c
    ensures last' == last + 1 ==> -0x10_0000 <= t[last + 1] < 0x10_0000
    ensures forall j :: 0 <= j < i || top < j < |s| ==> t[j] == s[j]
  {
    assert 2 * m / LIMB <= m / 0x10_0000 && m / LIMB <= m / 0x10_0000;
    forall j | i <= j < top ensures -(0x10_0000 + c) <= t[j] <= 0x10_0000 + c {
      if (j - i) % 2 == 0 {
        assert -0x10_0000 <= r[j] < 0x10_0000;
      }
    }
  }

  lemma {:induction false} OddWithin(s: seq<int>, r: seq<int>, i: nat, last: nat, last': nat, m: int)
    requires |r| == |s| && last + 1 < |s| && last' <= last + 1 && 0x10_0000_0000 <= m
    requires forall j :: i <= j <= last' ==> -m <= s[j] <= m
    requires forall j :: i < j <= last + 1 && (j - i) % 2 == 1 ==> -(m / LIMB + 1) <= r[j] - s[j] <= m / LIMB + 1
    ensures forall j :: i + 1 <= j <= last' && (j - (i + 1)) % 2 == 0 ==> -(2 * m) <= r[j] <= 2 * m
  {
    forall j | i + 1 <= j <= last' && (j - (i + 1)) % 2 == 0 ensures -(2 * m) <= r[j] <= 2 * m {
      assert (j - i) % 2 == 1;
    }
  }

  lemma {:induction false} FloorsRange(s: seq<int>, i: nat, last: nat)
    requires last + 1 < |s| && i <= last + 1
    ensures var t := Floors(s, i, last);
      && (forall j :: 0 <= j < i ==> t[j] == s[j])
      && (forall j :: i <= j <= last ==> 0 <= t[j] < LIMB)
      && (forall j :: last + 1 < j < |s| ==> t[j] == s[j])
    decreases |s| - i
  {
    if i <= last {
      assert forall j :: i + 1 < j < |s| ==> Floor(s, i)[j] == s[j];
      assert 0 <= Floor(s, i)[i] < LIMB;
      FloorsRange(Floor(s, i), i + 1, last);
    }
  }

  lemma {:induction false} LimbsRange(s: seq<int>, n: nat)
    requires n <= |s| && forall j :: 0 <= j < n ==> 0 <= s[j] < LIMB
    ensures 0 <= Limbs(s, n) < Pow2(21 * n)
    decreases n
  {
    if n > 0 {
      LimbsRange(s, n - 1);
      PowLimb(21 * (n - 1));
      TopDigit(s[n - 1], Pow2(21 * (n - 1)));
    }
  }

  lemma {:induction false} TopDigit(x: int, p: int)
    requires 0 <= x < LIMB && p > 0
    ensures 0 <= x * p && x * p + p <= LIMB * p
  {
    MulMono(x + 1, LIMB, p);
    MulMono(0, x, p);
  }

  lemma {:induction false} LimbsBound(s: seq<int>, n: nat, m: int)
    requires 1 <= n <= |s| && Within(s, 0, n, m) && m >= 0
    ensures -(2 * (m * Pow2(21 * (n - 1)))) <= Limbs(s, n) <= 2 * (m * Pow2(21 * (n - 1)))
    decreases n
  {
    var x, p := s[n - 1], Pow2(21 * (n - 1));
    ScaledWithin(x, m, p);
    if n == 1 {
      assert Limbs(s, 1) == Limbs(s, 0) + x * p;
    } else {
      LimbsBound(s, n - 1, m);
      PowLimb(21 * (n - 2));
      LowerPart(m, Pow2(21 * (n - 2)), p);
    }
  }

  lemma {:induction false} ScaledWithin(x: int, m: int, p: int)
    requires -m <= x <= m && p > 0
    ensures -(m * p) <= x * p <= m * p && 0 <= m * p
  {
    MulMono(x, m, p);
    MulMono(-m, x, p);
    assert -m * p == -(m * p);
  }

  lemma {:induction false} LowerPart(m: int, q: int, p: int)
    requires m >= 0 && q > 0 && p == LIMB * q
    ensures 2 * (m * q) <= m * p
  {
    assert m * (LIMB * q) == LIMB * (m * q);
    assert 0 <= m * q;
  }

  // ----- the reduction

  /** The source's reduction of 24 limbs to 12. */
  function Reduce(s: seq<int>): (t: seq<int>)
    requires |s| == 24
    ensures |t| == 24
  {
    var b := BothPasses(Folds(s, 23, 18), 6, 16, 15);
    var d := BothPasses(Folds(b, 17, 12)[12 := 0], 0, 10, 11);
    var f := Floors(Fold(d, 12)[12 := 0], 0, 11);
    Floors(Fold(f, 12), 0, 10)
  }

  const SMALL := 0x8000_0000    // 2^31

  lemma {:induction false} FirstHalf(s: seq<int>)
    requires |s| == 24 && Within(s, 0, 24, SMALL)
    ensures var b := BothPasses(Folds(s, 23, 18), 6, 16, 15);
      Within(b, 0, 18, 0x8_0000_0000) && Cong(Limbs(b, 18), Limbs(s, 24), L)
  {
    var a := Folds(s, 23, 18);
    FoldsWithin(s, 23, 18, SMALL, SMALL, SMALL * 0x10_0000);
    FoldsCong(s, 23, 18);
    BothPassesWithin(a, 6, 16, 15, 17, 0x40_0000_0000_0000, 0x4_0000_0001);
    RoundsKeep(a, 6, 16, 18);
    RoundsKeep(Rounds(a, 6, 16), 7, 15, 18);
    var b := BothPasses(a, 6, 16, 15);
    assert forall j :: 0 <= j < 6 ==> b[j] == a[j] == a[..6][j] == s[..6][j] == s[j];
  }

  lemma {:induction false} SecondHalf(b: seq<int>)
    requires |b| == 24 && Within(b, 0, 18, 0x8_0000_0000)
    ensures var d := BothPasses(Folds(b, 17, 12)[12 := 0], 0, 10, 11);
      && Within(d, 0, 12, 0x40_0010_0001) && -0x10_0000 <= d[11] < 0x10_0000 && Within(d, 12, 13, 0x80_0000_0000)
      && Cong(Limbs(d, 13), Limbs(b, 18), L)
  {
    var a := Folds(b, 17, 12);
    var c := a[12 := 0];
    FoldsWithin(b, 17, 12, 0x8_0000_0000, 0x8_0000_0000, 0x8_0000_0000 * 0x10_0000);
    FoldsCong(b, 17, 12);
    SumSame(a, c, 21, 12);
    BothPassesWithin(c, 0, 10, 11, 12, 0x400_0000_0000_0000, 0x40_0000_0001);
    RoundsKeep(c, 0, 10, 13);
    RoundsKeep(Rounds(c, 0, 10), 1, 11, 13);
    assert Limbs(c, 13) == Limbs(c, 12) + 0 * Pow2(21 * 12);
  }

  const DELTA := 27742317777372353535851937790883648493    // L - 2^252

  /** The weights of the upper limbs, k being the number of limbs that remain. */
  lemma {:induction false} TopPowers(k: nat)
    requires k == 12
    ensures Pow2(21 * k) == L - DELTA && LIMB * Pow2(21 * (k - 1)) == L - DELTA
      && LIMB * (LIMB * Pow2(21 * (k - 2))) == L - DELTA
  {
    FoldPowers(k - 12);
    assert Pow2(21 * (k - 12)) == Pow2(0) == 1;
    PowLimb(21 * (k - 1));
    PowLimb(21 * (k - 2));
  }

  /** Before the first run of floors the value lies strictly between -2^252 and 2^252. */
  lemma {:induction false} NearZero(d: seq<int>)
    requires |d| == 24 && Within(d, 0, 12, 0x40_0010_0001) && -0x10_0000 <= d[11] < 0x10_0000
      && Within(d, 12, 13, 0x80_0000_0000)
    ensures var e := Fold(d, 12)[12 := 0];
      && Limbs(e, 13) == Limbs(d, 13) - d[12] * L && -(L - DELTA) < Limbs(e, 13) < L - DELTA
  {
    var e, k: nat := Fold(d, 12)[12 := 0], 12;
    TopPowers(k);
    FoldKeeps(d, k);
    assert Pow2(21 * (k - 12)) == Pow2(0) == 1;
    SumSame(Fold(d, k), e, 21, k);
    assert Limbs(e, k + 1) == Limbs(e, k) + 0 * Pow2(21 * k);
    assert Limbs(d, k + 1) == Limbs(d, k) + d[k] * (L - DELTA);
    TwelveLimbs(d, k);
  }

  lemma {:induction false} TwelveLimbs(d: seq<int>, k: nat)
    requires |d| == 24 && k == 12 && Within(d, 0, 12, 0x40_0010_0001) && -0x10_0000 <= d[11] < 0x10_0000
    ensures -7 * (L - DELTA) < 8 * Limbs(d, k) < 7 * (L - DELTA)
  {
    TopPowers(k);
    LimbsBound(d, k - 1, 0x40_0010_0001);
    ScaledWithin(d[k - 1], 0x10_0000, Pow2(21 * (k - 1)));
    assert Limbs(d, k) == Limbs(d, k - 1) + d[k - 1] * Pow2(21 * (k - 1));
  }

  /** The carry out of limb 11 is -1 or 0, so one more fold lands in [0, L). */
  lemma {:induction false} LastFold(e: seq<int>)
    requires |e| == 24 && -(L - DELTA) <= Limbs(e, 13) < L - DELTA
    ensures var f := Floors(e, 0, 11); var g := Fold(f, 12);
      && (f[12] == -1 || f[12] == 0) && Limbs(g, 12) == Limbs(e, 13) - f[12] * L && 0 <= Limbs(g, 12) < L
  {
    var f, k: nat := Floors(e, 0, 11), 12;
    TopPowers(k);
    FloorsKeep(e, 0, 11, 13);
    FloorsRange(e, 0, 11);
    LimbsRange(f, k);
    assert Limbs(f, k + 1) == Limbs(f, k) + f[k] * (L - DELTA);
    FoldKeeps(f, k);
    assert Pow2(21 * (k - 12)) == Pow2(0) == 1;
  }

  /**
    Reduction is exact: 24 limbs that are small to begin with end as twelve limbs that hold the unique
    representative in [0, L), eleven of them of 21 bits and the last at most 2^21.
   */
  lemma {:induction false} ReduceExact(s: seq<int>)
    requires |s| == 24 && Within(s, 0, 24, SMALL)
    ensures Limbs(Reduce(s), 12) == Limbs(s, 24) % L
    ensures (forall j :: 0 <= j < 11 ==> 0 <= Reduce(s)[j] < LIMB) && 0 <= Reduce(s)[11] <= LIMB
  {
    var b := BothPasses(Folds(s, 23, 18), 6, 16, 15);
    var d := BothPasses(Folds(b, 17, 12)[12 := 0], 0, 10, 11);
    var e := Fold(d, 12)[12 := 0];
    var f := Floors(e, 0, 11);
    var g := Fold(f, 12);
    FirstHalf(s);
    SecondHalf(b);
    NearZero(d);
    LastFold(e);
    FloorsKeep(g, 0, 10, 12);
    FloorsRange(g, 0, 10);
    CongIntro(Limbs(g, 12), Limbs(d, 13), L, -d[12] - f[12]);
    CongTrans(Limbs(g, 12), Limbs(d, 13), Limbs(b, 18), L);
    CongTrans(Limbs(g, 12), Limbs(b, 18), Limbs(s, 24), L);
    Residue(Limbs(g, 12), Limbs(s, 24));
    TopLimb(Reduce(s));
  }

  lemma {:induction false} Residue(x: int, y: int)
    requires 0 <= x < L && Cong(x, y, L)
    ensures x == y % L
  {
    DivModUnique(x, L, 0, x);
  }

  lemma {:induction false} TopLimb(t: seq<int>)
    requires |t| == 24 && 0 <= Limbs(t, 12) < L && forall j :: 0 <= j < 11 ==> 0 <= t[j] < LIMB
    ensures 0 <= t[11] <= LIMB
  {
    var k: nat := 12;
    TopPowers(k);
    LimbsRange(t, k - 1);
    assert Limbs(t, k) == Limbs(t, k - 1) + t[k - 1] * Pow2(21 * (k - 1));
    TopRange(t[k - 1], Pow2(21 * (k - 1)), Limbs(t, k - 1));
  }

  lemma {:induction false} TopRange(x: int, p: int, low: int)
    requires p > 0 && LIMB * p == L - DELTA && 0 <= low < p && 0 <= low + x * p < L
    ensures 0 <= x <= LIMB
  {
    if x < 0 {
      MulMono(x, -1, p);
    } else if x > LIMB {
      MulMono(LIMB + 1, x, p);
    }
  }
}
