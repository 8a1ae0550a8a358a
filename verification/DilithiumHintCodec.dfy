/**
  The hint part of a Dilithium signature: omega bytes with the places of the ones, row after row and
  padded with zeros, then one byte for every row telling where its places end.
 */
module DilithiumHintCodec {
  import opened Wrappers
  import opened PolyRing
  import opened BitPacking
  import opened DilithiumParams

  predicate Binary(h: Poly) {
    |h| == N && Below(h, 2)
  }

  predicate AllBinary(hs: seq<Poly>) {
    forall i :: 0 <= i < |hs| ==> Binary(hs[i])
  }

  /** The places from j on where h is not zero, in increasing order. */
  function Ones(h: Poly, j: nat): (ps: seq<int>)
    requires j <= |h|
    ensures forall i :: 0 <= i < |ps| ==> j <= ps[i] < |h|
    decreases |h| - j
  {
    if j == |h| then [] else (if h[j] != 0 then [j] else []) + Ones(h, j + 1)
  }

  function Places(hs: seq<Poly>): (ps: seq<int>) {
    if hs == [] then [] else Ones(hs[0], 0) + Places(hs[1..])
  }

  /** Where the places of each row end, the first row starting at k. */
  function Ends(hs: seq<Poly>, k: nat): (es: seq<int>)
    ensures |es| == |hs|
  {
    if hs == [] then [] else [k + |Ones(hs[0], 0)|] + Ends(hs[1..], k + |Ones(hs[0], 0)|)
  }

  function EncodeHints(omega: nat, hs: seq<Poly>): (b: seq<int>)
    requires |Places(hs)| <= omega
    ensures |b| == omega + |hs|
  {
    Places(hs) + Zeros(omega - |Places(hs)|) + Ends(hs, 0)
  }

  predicate Ascending(ps: seq<int>) {
    forall i :: 0 < i < |ps| ==> ps[i - 1] < ps[i]
  }

  /** The row with ones exactly at the given places. */
  function Row(ps: seq<int>): (h: Poly)
    ensures Binary(h)
  {
    seq(N, j => if j in ps then 1 else 0)
  }

  /** Reads rows until the ends run out, then insists on zeros up to omega. */
  function DecodeRows(omega: nat, b: seq<int>, es: seq<int>, k: nat): (r: Option<seq<Poly>>)
    requires |b| == omega && k <= omega
    decreases |es|
  {
    if es == [] then
      if forall j :: k <= j < omega ==> b[j] == 0 then Some([]) else None
    else if es[0] < k || es[0] > omega || !Ascending(b[k..es[0]]) then None
    else
      match DecodeRows(omega, b, es[1..], es[0])
      case None => None
      case Some(rest) => Some([Row(b[k..es[0]])] + rest)
  }

  function DecodeHints(omega: nat, b: seq<int>): Option<seq<Poly>>
    requires |b| >= omega
  {
    DecodeRows(omega, b[..omega], b[omega..], 0)
  }

  // ----- the two directions

  lemma {:induction false} OnesAscending(h: Poly, j: nat)
    requires j <= |h|
    ensures Ascending(Ones(h, j))
    decreases |h| - j
  {
    if j < |h| {
      OnesAscending(h, j + 1);
    }
  }

  lemma {:induction false} OnesContains(h: Poly, j: nat, i: nat)
    requires j <= i < |h|
    ensures i in Ones(h, j) <==> h[i] != 0
    decreases |h| - j
  {
    if i > j {
      OnesContains(h, j + 1, i);
    }
  }

  lemma {:induction false} RowOfOnes(h: Poly)
    requires Binary(h)
    ensures Row(Ones(h, 0)) == h
  {
    forall i | 0 <= i < N ensures Row(Ones(h, 0))[i] == h[i] {
      OnesContains(h, 0, i);
    }
  }

  /** The places from j on are the end of an ascending list. */
  lemma {:induction false} OnesOfRow(ps: seq<int>, j: nat, i: nat)
    requires Ascending(ps) && Below(ps, N) && j <= N && i <= |ps|
    requires forall l :: 0 <= l < |ps| ==> (ps[l] < j <==> l < i)
    ensures Ones(Row(ps), j) == ps[i..]
    decreases N - j
  {
    if j == N {
      assert forall l :: 0 <= l < |ps| ==> ps[l] < j;
    } else if i < |ps| && ps[i] == j {
      AscendingApart(ps);
      OnesOfRow(ps, j + 1, i + 1);
      assert ps[i..] == [j] + ps[i + 1..];
    } else {
      AscendingApart(ps);
      forall l | 0 <= l < |ps| ensures ps[l] != j { }
      OnesOfRow(ps, j + 1, i);
    }
  }

  lemma {:induction false} AscendingApart(ps: seq<int>)
    requires Ascending(ps)
    ensures forall i, l :: 0 <= i < l < |ps| ==> ps[i] < ps[l]
    decreases |ps|
  {
    if |ps| > 1 {
      var qs := ps[..|ps| - 1];
      AscendingApart(qs);
      forall i, l | 0 <= i < l < |ps| ensures ps[i] < ps[l] {
        if l == |ps| - 1 {
          assert ps[l - 1] < ps[l];
          if i < l - 1 { assert qs[i] < qs[l - 1]; }
        } else {
          assert qs[i] < qs[l];
        }
      }
    }
  }

  lemma {:induction false} DecodeStep(omega: nat, b: seq<int>, e: nat, es: seq<int>, k: nat, h: Poly, rest: seq<Poly>)
    requires |b| == omega && k <= e <= omega && Ascending(b[k..e]) && Row(b[k..e]) == h
    requires DecodeRows(omega, b, es, e) == Some(rest)
    ensures DecodeRows(omega, b, [e] + es, k) == Some([h] + rest)
  {
    assert ([e] + es)[1..] == es;
  }

  lemma {:induction false} DecodeOfEncode(omega: nat, hs: seq<Poly>, b: seq<int>, k: nat)
    requires |b| == omega && k + |Places(hs)| <= omega && AllBinary(hs)
    requires b[k..k + |Places(hs)|] == Places(hs)
    requires forall j :: k + |Places(hs)| <= j < omega ==> b[j] == 0
    ensures DecodeRows(omega, b, Ends(hs, k), k) == Some(hs)
    decreases |hs|
  {
    if hs == [] {
    } else {
      var e := k + |Ones(hs[0], 0)|;
      RestOfHints(omega, hs, b, k, e);
      DecodeOfEncode(omega, hs[1..], b, e);
      FirstOfHints(omega, hs, b, k, e);
    }
  }

  lemma {:induction false} RestOfHints(omega: nat, hs: seq<Poly>, b: seq<int>, k: nat, e: nat)
    requires |b| == omega && k + |Places(hs)| <= omega && hs != []
    requires b[k..k + |Places(hs)|] == Places(hs) && e == k + |Ones(hs[0], 0)|
    requires forall j :: k + |Places(hs)| <= j < omega ==> b[j] == 0
    ensures e + |Places(hs[1..])| <= omega && b[e..e + |Places(hs[1..])|] == Places(hs[1..])
    ensures forall j :: e + |Places(hs[1..])| <= j < omega ==> b[j] == 0
    ensures b[k..e] == Ones(hs[0], 0)
  {
    SplitSlice(b, k, Ones(hs[0], 0), Places(hs[1..]));
  }

  lemma {:induction false} HintsApart(hs: seq<Poly>, k: nat, e: nat)
    requires hs != [] && e == k + |Ones(hs[0], 0)|
    ensures hs == [hs[0]] + hs[1..] && Ends(hs, k) == [e] + Ends(hs[1..], e)
  {
  }

  lemma {:induction false} FirstRow(omega: nat, b: seq<int>, k: nat, e: nat, es: seq<int>, h: Poly, rest: seq<Poly>)
    requires |b| == omega && k <= e <= omega && Binary(h)
    requires b[k..e] == Ones(h, 0) && DecodeRows(omega, b, es, e) == Some(rest)
    ensures DecodeRows(omega, b, [e] + es, k) == Some([h] + rest)
  {
    OnesAscending(h, 0);
    RowOfOnes(h);
    DecodeStep(omega, b, e, es, k, h, rest);
  }

  lemma {:induction false} FirstOfHints(omega: nat, hs: seq<Poly>, b: seq<int>, k: nat, e: nat)
    requires |b| == omega && k <= e <= omega && hs != [] && Binary(hs[0]) && e == k + |Ones(hs[0], 0)|
    requires b[k..e] == Ones(hs[0], 0) && DecodeRows(omega, b, Ends(hs[1..], e), e) == Some(hs[1..])
    ensures DecodeRows(omega, b, Ends(hs, k), k) == Some(hs)
  {
    FirstRow(omega, b, k, e, Ends(hs[1..], e), hs[0], hs[1..]);
    HintsApart(hs, k, e);
  }

  /** From k on, b and the ends es are what the rows hs encode to. */
  ghost predicate Encoded(omega: nat, b: seq<int>, es: seq<int>, k: nat, hs: seq<Poly>) {
    && |hs| == |es| && AllBinary(hs) && Ends(hs, k) == es
    && k + |Places(hs)| <= omega == |b|
    && b[k..] == Places(hs) + Zeros(omega - k - |Places(hs)|)
  }

  lemma {:induction false} EncodeOfDecode(omega: nat, b: seq<int>, es: seq<int>, k: nat)
    requires |b| == omega && k <= omega && Below(b, 256) && DecodeRows(omega, b, es, k).Some?
    ensures Encoded(omega, b, es, k, DecodeRows(omega, b, es, k).value)
    decreases |es|
  {
    if es == [] {
      assert b[k..] == Zeros(omega - k);
    } else {
      EncodeOfDecode(omega, b, es[1..], es[0]);
      EncodedRow(omega, b, es, k, b[k..es[0]], DecodeRows(omega, b, es[1..], es[0]).value);
    }
  }

  lemma {:induction false} EncodedRow(omega: nat, b: seq<int>, es: seq<int>, k: nat, ps: seq<int>, rest: seq<Poly>)
    requires |b| == omega && Below(b, 256) && es != [] && k <= es[0] <= omega && ps == b[k..es[0]] && Ascending(ps)
    requires Encoded(omega, b, es[1..], es[0], rest)
    ensures Encoded(omega, b, es, k, [Row(ps)] + rest)
  {
    RowInFront(ps, rest, k);
    assert es == [es[0]] + es[1..];
    EncodedPlaces(omega, b, k, es[0], Places(rest));
  }

  lemma {:induction false} RowInFront(ps: seq<int>, rest: seq<Poly>, k: nat)
    requires Ascending(ps) && Below(ps, N)
    ensures Places([Row(ps)] + rest) == ps + Places(rest)
    ensures Ends([Row(ps)] + rest, k) == [k + |ps|] + Ends(rest, k + |ps|)
  {
    OnesOfRow(ps, 0, 0);
    assert ps[0..] == ps && ([Row(ps)] + rest)[1..] == rest;
  }

  lemma {:induction false} EncodedPlaces(omega: nat, b: seq<int>, k: nat, e: nat, qs: seq<int>)
    requires |b| == omega && k <= e && e + |qs| <= omega && b[e..] == qs + Zeros(omega - e - |qs|)
    ensures b[k..] == (b[k..e] + qs) + Zeros(omega - k - |b[k..e] + qs|)
  {
    var zeros := Zeros(omega - e - |qs|);
    assert b[k..] == b[k..e] + b[e..];
    assert b[k..e] + (qs + zeros) == (b[k..e] + qs) + zeros;
  }

  lemma {:induction false} SplitSlice(b: seq<int>, k: nat, x: seq<int>, y: seq<int>)
    requires k + |x + y| <= |b| && b[k..k + |x + y|] == x + y
    ensures b[k..k + |x|] == x && b[k + |x|..k + |x| + |y|] == y
  {
    var all := b[k..k + |x + y|];
    assert b[k..k + |x|] == all[..|x|];
    assert b[k + |x|..k + |x| + |y|] == all[|x|..];
  }

  /** Decoding undoes encoding, for binary rows with at most omega ones. */
  lemma {:induction false} DecodeEncodeHints(omega: nat, hs: seq<Poly>)
    requires AllBinary(hs) && |Places(hs)| <= omega
    ensures DecodeHints(omega, EncodeHints(omega, hs)) == Some(hs)
  {
    var b := EncodeHints(omega, hs);
    var ps := Places(hs);
    assert b[..omega] == ps + Zeros(omega - |ps|) && b[omega..] == Ends(hs, 0);
    DecodeOfEncode(omega, hs, b[..omega], 0);
  }

  /** Whatever is accepted is the encoding of what it decodes to. */
  lemma {:induction false} EncodeDecodeHints(omega: nat, b: seq<int>)
    requires |b| >= omega && Below(b, 256) && DecodeHints(omega, b).Some?
    ensures var hs := DecodeHints(omega, b).value;
      AllBinary(hs) && |Places(hs)| <= omega && EncodeHints(omega, hs) == b
  {
    EncodeOfDecode(omega, b[..omega], b[omega..], 0);
    assert b[..omega][0..] == b[..omega] && b == b[..omega] + b[omega..];
  }
}
