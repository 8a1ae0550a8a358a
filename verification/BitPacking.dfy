/**
  Fixed-width packing. The lattice code stores coefficients of d bits back to back, least significant
  bit first, and cuts the stream into bytes. Here the width is a parameter, and PackedBit says where every
  bit goes; UnrolledPacking has the lines into which the source unrolls each width.
 */
module BitPacking {
  import opened ModArith

  predicate Below(v: seq<int>, b: int) {
    forall i :: 0 <= i < |v| ==> 0 <= v[i] < b
  }

  function Bit(x: nat, i: nat): (b: nat)
    ensures b < 2
    decreases i
  {
    if i == 0 then x % 2 else Bit(x / 2, i - 1)
  }

  function FromBits(s: seq<int>): (x: nat)
    requires Below(s, 2)
    ensures x < Pow2(|s|)
  {
    if s == [] then 0 else s[0] + 2 * FromBits(s[1..])
  }

  lemma {:induction false} BitOfFromBits(s: seq<int>, i: nat)
    requires Below(s, 2)
    ensures Bit(FromBits(s), i) == if i < |s| then s[i] else 0
    decreases i
  {
    if s == [] {
      BitOfZero(i);
    } else {
      assert FromBits(s) % 2 == s[0] && FromBits(s) / 2 == FromBits(s[1..]);
      if i > 0 {
        BitOfFromBits(s[1..], i - 1);
      }
    }
  }

  lemma {:induction false} BitOfZero(i: nat)
    ensures Bit(0, i) == 0
  {
    if i > 0 {
      BitOfZero(i - 1);
    }
  }

  /** Two numbers of n bits with the same bits are the same. */
  lemma {:induction false} SameBits(x: nat, y: nat, n: nat)
    requires x < Pow2(n) && y < Pow2(n)
    requires forall i :: 0 <= i < n ==> Bit(x, i) == Bit(y, i)
    ensures x == y
    decreases n
  {
    if n > 0 {
      assert Bit(x, 0) == Bit(y, 0);
      forall i | 0 <= i < n - 1 ensures Bit(x / 2, i) == Bit(y / 2, i) {
        assert Bit(x, i + 1) == Bit(y, i + 1);
      }
      SameBits(x / 2, y / 2, n - 1);
    }
  }

  function ToBits(x: nat, n: nat): (s: seq<int>)
    ensures |s| == n && Below(s, 2)
  {
    if n == 0 then [] else [x % 2] + ToBits(x / 2, n - 1)
  }

  lemma {:induction false} FromToBits(x: nat, n: nat)
    requires x < Pow2(n)
    ensures FromBits(ToBits(x, n)) == x
    decreases n
  {
    if n > 0 {
      FromToBits(x / 2, n - 1);
      assert ToBits(x, n)[1..] == ToBits(x / 2, n - 1);
    }
  }

  lemma {:induction false} ToFromBits(s: seq<int>)
    requires Below(s, 2)
    ensures ToBits(FromBits(s), |s|) == s
  {
    if s != [] {
      ToFromBits(s[1..]);
      assert FromBits(s) % 2 == s[0] && FromBits(s) / 2 == FromBits(s[1..]);
    }
  }

  /** The bits of all values, back to back. */
  function Stream(d: nat, v: seq<int>): (s: seq<int>)
    requires forall i :: 0 <= i < |v| ==> v[i] >= 0
    ensures |s| == d * |v| && Below(s, 2)
  {
    if v == [] then [] else ToBits(v[0], d) + Stream(d, v[1..])
  }

  /** The stream cut into values of d bits; an incomplete last value is dropped. */
  function Regroup(d: nat, s: seq<int>): (v: seq<int>)
    requires d > 0 && Below(s, 2)
    ensures Below(v, Pow2(d))
  {
    if |s| < d then [] else [FromBits(s[..d])] + Regroup(d, s[d..])
  }

  lemma {:induction false} RegroupStream(d: nat, v: seq<int>)
    requires d > 0 && Below(v, Pow2(d))
    ensures Regroup(d, Stream(d, v)) == v
  {
    if v == [] {
    } else {
      var s := Stream(d, v);
      assert s[..d] == ToBits(v[0], d) && s[d..] == Stream(d, v[1..]);
      FromToBits(v[0], d);
      RegroupStream(d, v[1..]);
    }
  }

  lemma {:induction false} StreamCons(d: nat, x: int, v: seq<int>)
    requires x >= 0 && forall i :: 0 <= i < |v| ==> v[i] >= 0
    ensures Stream(d, [x] + v) == ToBits(x, d) + Stream(d, v)
  {
    assert ([x] + v)[1..] == v;
  }

  lemma {:induction false} StreamRegroup(d: nat, n: nat, s: seq<int>)
    requires d > 0 && Below(s, 2) && |s| == d * n
    ensures Stream(d, Regroup(d, s)) == s && |Regroup(d, s)| == n
    decreases n
  {
    if n == 0 {
    } else {
      assert d * n == d * (n - 1) + d;
      ToFromBits(s[..d]);
      StreamRegroup(d, n - 1, s[d..]);
      StreamCons(d, FromBits(s[..d]), Regroup(d, s[d..]));
      assert s == s[..d] + s[d..];
    }
  }

  /** Values of d bits to bytes. */
  function Pack(d: nat, v: seq<int>): (b: seq<int>)
    requires Below(v, Pow2(d))
    ensures Below(b, 256)
  {
    assert Pow2(8) == 256;
    Regroup(8, Stream(d, v))
  }

  /** Bytes to values of d bits. */
  function Unpack(d: nat, b: seq<int>): (v: seq<int>)
    requires d > 0 && Below(b, 256)
    ensures Below(v, Pow2(d))
  {
    Regroup(d, Stream(8, b))
  }

  /** Unpacking undoes packing whenever m whole bytes are filled. */
  lemma {:induction false} UnpackPack(d: nat, v: seq<int>, m: nat)
    requires d > 0 && Below(v, Pow2(d)) && d * |v| == 8 * m
    ensures Unpack(d, Pack(d, v)) == v && |Pack(d, v)| == m
  {
    StreamRegroup(8, m, Stream(d, v));
    RegroupStream(d, v);
  }

  /** Packing undoes unpacking whenever n whole values are read, so an encoding has only one source. */
  lemma {:induction false} PackUnpack(d: nat, b: seq<int>, n: nat)
    requires d > 0 && Below(b, 256) && 8 * |b| == d * n
    ensures Pack(d, Unpack(d, b)) == b && |Unpack(d, b)| == n
  {
    assert Pow2(8) == 256;
    StreamRegroup(d, n, Stream(8, b));
    RegroupStream(8, b);
  }

  /** The place d * i + c, counted value by value. */
  function Place(d: nat, i: nat, c: nat): nat {
    if i == 0 then c else d + Place(d, i - 1, c)
  }

  lemma {:induction false} PlaceIs(d: nat, i: nat, c: nat)
    ensures Place(d, i, c) == d * i + c
    decreases i
  {
    if i > 0 {
      PlaceIs(d, i - 1, c);
      assert d * i == d * (i - 1) + d;
    }
  }

  lemma {:induction false} AfterFirst(a: seq<int>, b: seq<int>, p: nat)
    requires p < |b|
    ensures (a + b)[|a| + p] == b[p]
  {
  }

  /** Bit c of value i stands at that place of the stream. */
  lemma {:induction false} StreamAt(d: nat, v: seq<int>, i: nat, c: nat)
    requires c < d && i < |v| && forall l :: 0 <= l < |v| ==> v[l] >= 0
    ensures Place(d, i, c) < |Stream(d, v)| && Stream(d, v)[Place(d, i, c)] == Bit(v[i], c)
    decreases i
  {
    if i == 0 {
      ToBitsAt(v[0], d, c);
    } else {
      StreamAt(d, v[1..], i - 1, c);
      AfterFirst(ToBits(v[0], d), Stream(d, v[1..]), Place(d, i - 1, c));
    }
  }

  /** Where the bits go: bit c of value i is bit b of byte j exactly when d * i + c == 8 * j + b. */
  lemma {:induction false} PackedBit(d: nat, v: seq<int>, m: nat, i: nat, c: nat, j: nat, b: nat)
    requires d > 0 && Below(v, Pow2(d)) && d * |v| == 8 * m
    requires i < |v| && c < d && j < m && b < 8 && d * i + c == 8 * j + b
    ensures |Pack(d, v)| == m && Bit(Pack(d, v)[j], b) == Bit(v[i], c)
  {
    PlaceIs(d, i, c);
    PlaceIs(8, j, b);
    StreamRegroup(8, m, Stream(d, v));
    StreamAt(d, v, i, c);
    StreamAt(8, Pack(d, v), j, b);
  }

  lemma {:induction false} ToBitsAt(x: nat, n: nat, c: nat)
    requires c < n
    ensures ToBits(x, n)[c] == Bit(x, c)
    decreases n
  {
    if c > 0 {
      ToBitsAt(x / 2, n - 1, c - 1);
    }
  }
}
