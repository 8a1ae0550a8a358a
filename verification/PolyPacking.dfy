/** Polynomials of 256 coefficients, and vectors of them, as bytes. */
module PolyPacking {
  import opened ModArith
  import opened PolyRing
  import opened BitPacking

  const LENGTH := 256

  predicate Bytes(b: seq<int>, n: int) {
    |b| == n && Below(b, 256)
  }

  /** How a coefficient is stored in d bits: as it is, or as its distance below a bound. */
  datatype Layout = Plain(d: nat) | CountDown(top: int, d: nat) {
    function Code(x: int): int { if Plain? then x else top - x }
  }

  predicate Fits(l: Layout, a: Poly) {
    |a| == LENGTH && forall i :: 0 <= i < |a| ==> 0 <= l.Code(a[i]) < Pow2(l.d)
  }

  function Coded(l: Layout, a: seq<int>): (v: seq<int>)
    ensures |v| == |a|
  {
    seq(|a|, i requires 0 <= i < |a| => l.Code(a[i]))
  }

  lemma {:induction false} CodedTwice(l: Layout, a: seq<int>)
    ensures Coded(l, Coded(l, a)) == a
  {
  }

  function PackPoly(l: Layout, a: Poly): (b: seq<int>)
    requires Fits(l, a)
    ensures |b| == 32 * l.d && Below(b, 256)
  {
    StreamRegroup(8, 32 * l.d, Stream(l.d, Coded(l, a)));
    Pack(l.d, Coded(l, a))
  }

  function UnpackPoly(l: Layout, b: seq<int>): (a: Poly)
    requires l.d > 0 && |b| == 32 * l.d && Below(b, 256)
    ensures Fits(l, a)
  {
    StreamRegroup(l.d, LENGTH, Stream(8, b));
    Coded(l, Unpack(l.d, b))
  }

  lemma {:induction false} UnpackPackPoly(l: Layout, a: Poly)
    requires l.d > 0 && Fits(l, a)
    ensures UnpackPoly(l, PackPoly(l, a)) == a
  {
    UnpackPack(l.d, Coded(l, a), 32 * l.d);
    CodedTwice(l, a);
  }

  lemma {:induction false} PackUnpackPoly(l: Layout, b: seq<int>)
    requires l.d > 0 && |b| == 32 * l.d && Below(b, 256)
    ensures PackPoly(l, UnpackPoly(l, b)) == b
  {
    PackUnpack(l.d, b, LENGTH);
    CodedTwice(l, Unpack(l.d, b));
  }

  // ----- vectors

  predicate AllFit(l: Layout, v: seq<Poly>) {
    forall i :: 0 <= i < |v| ==> Fits(l, v[i])
  }

  /** Bytes of n packed polynomials. */
  function VecSize(l: Layout, n: nat): nat {
    if n == 0 then 0 else 32 * l.d + VecSize(l, n - 1)
  }

  function PackVec(l: Layout, v: seq<Poly>): (b: seq<int>)
    requires AllFit(l, v)
    ensures |b| == VecSize(l, |v|) && Below(b, 256)
  {
    if v == [] then [] else PackPoly(l, v[0]) + PackVec(l, v[1..])
  }

  function UnpackVec(l: Layout, n: nat, b: seq<int>): (v: seq<Poly>)
    requires l.d > 0 && |b| == VecSize(l, n) && Below(b, 256)
    ensures |v| == n && AllFit(l, v)
  {
    if n == 0 then [] else [UnpackPoly(l, b[..32 * l.d])] + UnpackVec(l, n - 1, b[32 * l.d..])
  }

  lemma {:induction false} UnpackFirst(l: Layout, b: seq<int>, n: nat, rest: seq<int>)
    requires l.d > 0 && |b| == 32 * l.d && Below(b, 256) && |rest| == VecSize(l, n) && Below(rest, 256)
    ensures UnpackVec(l, n + 1, b + rest) == [UnpackPoly(l, b)] + UnpackVec(l, n, rest)
  {
    assert (b + rest)[..32 * l.d] == b && (b + rest)[32 * l.d..] == rest;
  }

  lemma {:induction false} UnpackPackVec(l: Layout, v: seq<Poly>)
    requires l.d > 0 && AllFit(l, v)
    ensures UnpackVec(l, |v|, PackVec(l, v)) == v
  {
    if v == [] {
    } else {
      var first, rest := PackPoly(l, v[0]), PackVec(l, v[1..]);
      assert PackVec(l, v) == first + rest;
      UnpackPackPoly(l, v[0]);
      UnpackPackVec(l, v[1..]);
      UnpackFirst(l, first, |v| - 1, rest);
      assert v == [v[0]] + v[1..];
    }
  }

  lemma {:induction false} PackUnpackVec(l: Layout, n: nat, b: seq<int>)
    requires l.d > 0 && |b| == VecSize(l, n) && Below(b, 256)
    ensures PackVec(l, UnpackVec(l, n, b)) == b
    decreases n
  {
    if n == 0 {
    } else {
      PackUnpackPoly(l, b[..32 * l.d]);
      PackUnpackVec(l, n - 1, b[32 * l.d..]);
      assert b == b[..32 * l.d] + b[32 * l.d..];
    }
  }
}
