/** Comparing and moving bytes without branches. */
module ByteTools {
  import opened ModArith
  import opened BitPacking

  function AddBits(a: int, b: int): int { (a + b) % 2 }

  function OrBits(a: int, b: int): int { if a == 0 && b == 0 then 0 else 1 }

  lemma {:induction false} SameByte(x: nat, y: nat)
    requires x < 256 && y < 256 && forall i: nat | i < 8 :: Bit(x, i) == Bit(y, i)
    ensures x == y
  {
    assert Pow2(8) == 256;
    SameBits(x, y, 8);
  }

  // ----- comparing

  predicate AllZero(s: seq<int>) {
    forall i :: 0 <= i < |s| ==> s[i] == 0
  }

  /** The bits of d, together with those in which two bytes differ. */
  function Gather(d: seq<int>, x: nat, y: nat): (r: seq<int>)
    requires |d| == 8 && Below(d, 2)
    ensures |r| == 8 && Below(r, 2)
  {
    seq(8, i requires 0 <= i < 8 => OrBits(d[i], AddBits(Bit(x, i), Bit(y, i))))
  }

  lemma {:induction false} GatherZero(d: seq<int>, x: nat, y: nat)
    requires |d| == 8 && Below(d, 2) && x < 256 && y < 256
    ensures AllZero(Gather(d, x, y)) <==> AllZero(d) && x == y
  {
    var r := Gather(d, x, y);
    if AllZero(r) {
      forall i: nat | i < 8 ensures d[i] == 0 && Bit(x, i) == Bit(y, i) {
        assert r[i] == OrBits(d[i], AddBits(Bit(x, i), Bit(y, i)));
      }
      SameByte(x, y);
    }
  }

  /** The bits in which two byte strings differ anywhere. */
  function Differences(a: seq<int>, b: seq<int>): (d: seq<int>)
    requires |a| == |b| && Below(a, 256) && Below(b, 256)
    ensures |d| == 8 && Below(d, 2)
  {
    if a == [] then seq(8, _ => 0) else Gather(Differences(a[1..], b[1..]), a[0], b[0])
  }

  /** The comparison: the gathered byte, less one in 32 bits, has bits above the eighth only when it was zero. */
  function Verify(a: seq<int>, b: seq<int>): int
    requires |a| == |b| && Below(a, 256) && Below(b, 256)
  {
    Verdict(FromBits(Differences(a, b)))
  }

  function Verdict(d: nat): int { (d - 1) % 0x1_0000_0000 / 256 % 2 - 1 }

  lemma {:induction false} NoDifferences(a: seq<int>, b: seq<int>)
    requires |a| == |b| && Below(a, 256) && Below(b, 256)
    ensures AllZero(Differences(a, b)) <==> a == b
    decreases |a|
  {
    if a == [] {
    } else {
      NoDifferences(a[1..], b[1..]);
      GatherZero(Differences(a[1..], b[1..]), a[0], b[0]);
      assert a == [a[0]] + a[1..] && b == [b[0]] + b[1..];
    }
  }

  lemma {:induction false} ZeroBits(s: seq<int>)
    requires Below(s, 2)
    ensures FromBits(s) == 0 <==> AllZero(s)
    decreases |s|
  {
    if s != [] {
      ZeroBits(s[1..]);
      assert s == [s[0]] + s[1..];
    }
  }

  /** Zero for equal strings, all ones for different ones. */
  lemma {:induction false} VerifyCompares(a: seq<int>, b: seq<int>)
    requires |a| == |b| && Below(a, 256) && Below(b, 256)
    ensures Verify(a, b) == if a == b then 0 else -1
  {
    NoDifferences(a, b);
    ZeroBits(Differences(a, b));
    VerdictOf(Differences(a, b));
  }

  lemma {:induction false} VerdictOf(d: seq<int>)
    requires |d| == 8 && Below(d, 2)
    ensures Verdict(FromBits(d)) == if FromBits(d) == 0 then 0 else -1
  {
    assert Pow2(8) == 256;
    assert FromBits(d) < 256;
  }

  // ----- moving

  /** One byte of the conditional move: d ^ (mask & (s ^ d)), the mask being the two's complement of the condition. */
  function MoveByte(d: nat, s: nat, cond: nat): (r: int)
    ensures 0 <= r < 256
  {
    var mask := (256 - cond) % 256;
    assert Pow2(8) == 256;
    FromBits(seq(8, i requires 0 <= i < 8 => AddBits(Bit(d, i), Bit(mask, i) * AddBits(Bit(s, i), Bit(d, i)))))
  }

  function Move(dest: seq<int>, source: seq<int>, cond: nat): (r: seq<int>)
    requires |dest| == |source| && Below(dest, 256) && Below(source, 256)
    ensures |r| == |dest| && Below(r, 256)
  {
    seq(|dest|, i requires 0 <= i < |dest| => MoveByte(dest[i], source[i], cond))
  }

  lemma {:induction false} MoveByteBits(d: nat, s: nat, cond: nat, i: nat)
    requires i < 8
    ensures Bit(MoveByte(d, s, cond), i) == if Bit((256 - cond) % 256, i) == 1 then Bit(s, i) else Bit(d, i)
  {
    var mask := (256 - cond) % 256;
    BitOfFromBits(seq(8, j requires 0 <= j < 8 => AddBits(Bit(d, j), Bit(mask, j) * AddBits(Bit(s, j), Bit(d, j)))), i);
  }

  lemma {:induction false} MaskBits(i: nat)
    requires i < 8
    ensures Bit(255, i) == 1 && Bit(0, i) == 0 && Bit(1, i) == if i == 0 then 1 else 0
  {
    if i == 0 {
    } else {
      BitOfZero(i - 1);
      OnesAt(8, i);
    }
  }

  lemma {:induction false} OnesAt(n: nat, i: nat)
    requires i < n
    ensures Bit(Pow2(n) - 1, i) == 1
    decreases n
  {
    assert (Pow2(n) - 1) / 2 == Pow2(n - 1) - 1;
    if i > 0 {
      OnesAt(n - 1, i - 1);
    }
  }

  /** Condition 0 leaves the destination alone. */
  lemma {:induction false} MoveZero(dest: seq<int>, source: seq<int>)
    requires |dest| == |source| && Below(dest, 256) && Below(source, 256)
    ensures Move(dest, source, 0) == dest
  {
    var r := Move(dest, source, 0);
    forall i | 0 <= i < |dest| ensures r[i] == dest[i] {
      forall j: nat | j < 8 ensures Bit(r[i], j) == Bit(dest[i], j) {
        MoveByteBits(dest[i], source[i], 0, j);
        MaskBits(j);
      }
      SameByte(r[i], dest[i]);
    }
  }

  /** Condition 1 moves the source. */
  lemma {:induction false} MoveOne(dest: seq<int>, source: seq<int>)
    requires |dest| == |source| && Below(dest, 256) && Below(source, 256)
    ensures Move(dest, source, 1) == source
  {
    var r := Move(dest, source, 1);
    forall i | 0 <= i < |dest| ensures r[i] == source[i] {
      forall j: nat | j < 8 ensures Bit(r[i], j) == Bit(source[i], j) {
        MoveByteBits(dest[i], source[i], 1, j);
        MaskBits(j);
      }
      SameByte(r[i], source[i]);
    }
  }

  /** The destination with the lowest bit of every byte taken from the source. */
  function Mixed(dest: seq<int>, source: seq<int>): (r: seq<int>)
    requires |dest| == |source|
    ensures |r| == |dest|
  {
    seq(|dest|, i requires 0 <= i < |dest| => dest[i] / 2 * 2 + source[i] % 2)
  }

  /** Condition 255, the comparison's verdict on different strings as a byte, moves the lowest bit only. */
  lemma {:induction false} MoveAllOnes(dest: seq<int>, source: seq<int>)
    requires |dest| == |source| && Below(dest, 256) && Below(source, 256)
    ensures Move(dest, source, 255) == Mixed(dest, source)
  {
    forall i | 0 <= i < |dest| ensures Move(dest, source, 255)[i] == Mixed(dest, source)[i] {
      MoveByteAllOnes(dest[i], source[i], 255);
    }
  }

  lemma {:induction false} MoveByteAllOnes(d: nat, s: nat, cond: nat)
    requires d < 256 && s < 256 && cond == 255
    ensures MoveByte(d, s, cond) == d / 2 * 2 + s % 2
  {
    forall j: nat | j < 8 ensures Bit(MoveByte(d, s, cond), j) == if j == 0 then Bit(s, 0) else Bit(d, j) {
      AllOnesBit(d, s, cond, j);
    }
    LowestMixed(MoveByte(d, s, cond), d, s);
  }

  lemma {:induction false} LowestMixed(r: nat, d: nat, s: nat)
    requires r < 256 && d < 256 && s < 256
    requires forall j: nat | j < 8 :: Bit(r, j) == if j == 0 then Bit(s, 0) else Bit(d, j)
    ensures r == d / 2 * 2 + s % 2
  {
    var e := d / 2 * 2 + s % 2;
    forall j: nat | j < 8 ensures Bit(r, j) == Bit(e, j) {
      LowestReplaced(d, s, j);
    }
    SameByte(r, e);
  }

  lemma {:induction false} AllOnesBit(d: nat, s: nat, cond: nat, j: nat)
    requires cond == 255 && j < 8
    ensures Bit(MoveByte(d, s, cond), j) == if j == 0 then Bit(s, 0) else Bit(d, j)
  {
    MoveByteBits(d, s, cond, j);
    MaskBits(j);
  }

  lemma {:induction false} LowestReplaced(d: nat, s: nat, j: nat)
    ensures Bit(d / 2 * 2 + s % 2, j) == if j == 0 then Bit(s, 0) else Bit(d, j)
  {
    var e := d / 2 * 2 + s % 2;
    assert e / 2 == d / 2 && e % 2 == s % 2;
    if j > 0 {
      assert Bit(e, j) == Bit(e / 2, j - 1) && Bit(d, j) == Bit(d / 2, j - 1);
    }
  }
}
