/** Counters kept as bytes, most or least significant first. */
module ByteCounters {
  import opened ModArith
  import opened BitPacking
  import opened ScalarDigits

  /** The value of bytes, most significant first. */
  function BigEndian(b: seq<int>): (v: nat)
    requires Below(b, 256)
  {
    if b == [] then 0 else 256 * BigEndian(b[..|b| - 1]) + b[|b| - 1]
  }

  /** One more, the last byte first, with carries towards the front. */
  function NextBig(b: seq<int>): (c: seq<int>)
    requires Below(b, 256)
    ensures |c| == |b| && Below(c, 256)
  {
    if b == [] then []
    else if b[|b| - 1] == 255 then NextBig(b[..|b| - 1]) + [0]
    else b[|b| - 1 := b[|b| - 1] + 1]
  }

  function NextLittle(b: seq<int>): (c: seq<int>)
    requires Below(b, 256)
    ensures |c| == |b| && Below(c, 256)
  {
    if b == [] then []
    else if b[0] == 255 then [0] + NextLittle(b[1..])
    else b[0 := b[0] + 1]
  }

  lemma {:induction false} BigBelow(b: seq<int>)
    requires Below(b, 256)
    ensures BigEndian(b) < Pow2(8 * |b|)
    decreases |b|
  {
    if b != [] {
      BigBelow(b[..|b| - 1]);
      PowStep(8 * (|b| - 1));
    }
  }

  /** The next big-endian value is one more, modulo the range. */
  lemma {:induction false} NextBigValue(b: seq<int>)
    requires Below(b, 256)
    ensures BigEndian(NextBig(b)) == (BigEndian(b) + 1) % Pow2(8 * |b|)
    decreases |b|
  {
    if b == [] {
    } else {
      var n := |b| - 1;
      BigBelow(b[..n]);
      PowStep(8 * n);
      if b[n] == 255 {
        NextBigValue(b[..n]);
        assert NextBig(b)[..n] == NextBig(b[..n]);
        CarryValue(BigEndian(b[..n]) + 1, Pow2(8 * n));
      } else {
        assert NextBig(b)[..n] == b[..n];
        DivModUnique(BigEndian(b) + 1, Pow2(8 * |b|), 0, BigEndian(b) + 1);
      }
    }
  }

  lemma {:induction false} CarryValue(x: int, r: int)
    requires r > 0 && 0 <= x <= r
    ensures 256 * (x % r) == (256 * x) % (256 * r)
  {
    if x == r {
      DivModUnique(x, r, 1, 0);
      DivModUnique(256 * x, 256 * r, 1, 0);
    } else {
      DivModUnique(x, r, 0, x);
      DivModUnique(256 * x, 256 * r, 0, 256 * x);
    }
  }

  /** And so is the next little-endian one. */
  lemma {:induction false} NextLittleValue(b: seq<int>)
    requires Below(b, 256)
    ensures Value(NextLittle(b)) == (Value(b) + 1) % Pow2(8 * |b|)
    decreases |b|
  {
    if b == [] {
    } else {
      PowStep(8 * (|b| - 1));
      if b[0] == 255 {
        NextLittleValue(b[1..]);
        assert NextLittle(b)[1..] == NextLittle(b[1..]);
        CarryValue(Value(b[1..]) + 1, Pow2(8 * (|b| - 1)));
      } else {
        assert NextLittle(b)[1..] == b[1..];
        DivModUnique(Value(b) + 1, Pow2(8 * |b|), 0, Value(b) + 1);
      }
    }
  }

  // ----- in place

  lemma {:induction false} NextBigCut(b: seq<int>, i: nat)
    requires Below(b, 256) && i <= |b| && forall j :: i <= j < |b| ==> b[j] == 255
    ensures NextBig(b) == NextBig(b[..i]) + seq(|b| - i, _ => 0)
    decreases |b|
  {
    if i == |b| {
      assert b[..i] == b;
    } else {
      NextBigCut(b[..|b| - 1], i);
      assert b[..|b| - 1][..i] == b[..i];
    }
  }

  method BeIncrement(a: array<int>)
    requires Below(a[..], 256)
    modifies a
    ensures a[..] == NextBig(old(a[..])) && Below(a[..], 256)
  {
    ghost var s := a[..];
    var i := a.Length;
    var carry := true;
    while carry && i != 0
      invariant 0 <= i <= a.Length && (!carry ==> i < a.Length)
      invariant forall j :: i < j < a.Length ==> s[j] == 255 && a[j] == 0
      invariant forall j :: 0 <= j < i ==> a[j] == s[j]
      invariant carry && i < a.Length ==> s[i] == 255 && a[i] == 0
      invariant !carry ==> s[i] < 255 && a[i] == s[i] + 1
      decreases i, carry
    {
      i := i - 1;
      a[i] := (a[i] + 1) % 256;
      carry := a[i] == 0;
    }
    if carry {
      NextBigCut(s, 0);
    } else {
      NextBigCut(s, i + 1);
      assert s[..i + 1][..i] == s[..i];
    }
  }

  lemma {:induction false} NextLittleCut(b: seq<int>, i: nat)
    requires Below(b, 256) && i <= |b| && forall j :: 0 <= j < i ==> b[j] == 255
    ensures NextLittle(b) == seq(i, _ => 0) + NextLittle(b[i..])
    decreases i
  {
    if i == 0 {
      assert b[0..] == b;
    } else {
      NextLittleCut(b[1..], i - 1);
      assert b[1..][i - 1..] == b[i..];
    }
  }

  method LeIncrement(a: array<int>)
    requires Below(a[..], 256)
    modifies a
    ensures a[..] == NextLittle(old(a[..])) && Below(a[..], 256)
  {
    ghost var s := a[..];
    var i := 0;
    while i < a.Length
      invariant 0 <= i <= a.Length
      invariant forall j :: 0 <= j < i ==> s[j] == 255 && a[j] == 0
      invariant forall j :: i <= j < a.Length ==> a[j] == s[j]
    {
      a[i] := (a[i] + 1) % 256;
      if a[i] != 0 {
        break;
      }
      i := i + 1;
    }
    NextLittleCut(s, i);
    assert i < a.Length ==> a[..] == seq(i, _ => 0) + s[i..][0 := s[i] + 1];
  }
}
