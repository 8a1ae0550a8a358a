/**
  How the Dilithium code draws polynomials from a byte stream: by rejection, with a buffer that is
  refilled block by block, and the challenge by an in-place shuffle.
 */
module DilithiumSampling {
  import opened Wrappers
  import opened BitPacking
  import opened PolyRing
  import opened DilithiumParams

  // ----- uniform polynomials

  /** The 23-bit numbers in groups of three bytes; an incomplete group is dropped. */
  function Candidates(b: seq<int>): (v: seq<int>)
    decreases |b|
  {
    if |b| < 3 then [] else [(b[0] + 0x100 * b[1] + 0x1_0000 * b[2]) % 0x80_0000] + Candidates(b[3..])
  }

  /** Those that are below Q, in order. */
  function Accepted(v: seq<int>): (a: seq<int>)
    ensures forall i :: 0 <= i < |a| ==> a[i] < Q
  {
    if v == [] then [] else (if v[0] < Q then [v[0]] else []) + Accepted(v[1..])
  }

  function First(v: seq<int>, n: nat): (f: seq<int>)
    ensures |f| == if |v| <= n then |v| else n
  {
    if |v| <= n then v else v[..n]
  }

  lemma {:induction false} AcceptedJoin(u: seq<int>, v: seq<int>)
    ensures Accepted(u + v) == Accepted(u) + Accepted(v)
    decreases |u|
  {
    if u == [] {
      assert u + v == v;
    } else {
      AcceptedJoin(u[1..], v);
      assert (u + v)[1..] == u[1..] + v;
    }
  }

  /** Whole groups can be split off. */
  lemma {:induction false} CandidatesJoin(b: seq<int>, c: seq<int>)
    requires |b| % 3 == 0
    ensures Candidates(b + c) == Candidates(b) + Candidates(c)
    decreases |b|
  {
    if b == [] {
      assert b + c == c;
    } else {
      CandidatesJoin(b[3..], c);
      DropJoin(b, c);
    }
  }

  lemma {:induction false} DropJoin(b: seq<int>, c: seq<int>)
    requires |b| >= 3
    ensures (b + c)[3..] == b[3..] + c
    ensures (b + c)[0] == b[0] && (b + c)[1] == b[1] && (b + c)[2] == b[2]
  {
  }

  /** A rest of one or two bytes adds nothing yet. */
  lemma {:induction false} CandidatesRest(b: seq<int>)
    ensures Candidates(b) == Candidates(b[..|b| - |b| % 3])
  {
    var n := |b| - |b| % 3;
    CandidatesJoin(b[..n], b[n..]);
    assert b == b[..n] + b[n..];
  }

  function Group(b: seq<int>, pos: nat): int
    requires pos + 3 <= |b|
  {
    (b[pos] + 0x100 * b[pos + 1] + 0x1_0000 * b[pos + 2]) % 0x80_0000
  }

  /** One group read: what is still to come, after it has been kept or dropped. */
  lemma {:induction false} GroupRead(b: seq<int>, pos: nat, got: seq<int>, all: seq<int>)
    requires pos + 3 <= |b| && got + Accepted(Candidates(b[pos..])) == all
    ensures (if Group(b, pos) < Q then got + [Group(b, pos)] else got) + Accepted(Candidates(b[pos + 3..])) == all
  {
    var t := Group(b, pos);
    assert b[pos..][3..] == b[pos + 3..];
    assert Candidates(b[pos..]) == [t] + Candidates(b[pos + 3..]);
    assert ([t] + Candidates(b[pos + 3..]))[1..] == Candidates(b[pos + 3..]);
    if t < Q {
      assert got + ([t] + Accepted(Candidates(b[pos + 3..]))) == (got + [t]) + Accepted(Candidates(b[pos + 3..]));
    }
  }

  method Append(a: array<int>, at: nat, x: int)
    requires at < a.Length
    modifies a
    ensures a[..at + 1] == old(a[..at]) + [x]
  {
    a[at] := x;
  }

  /** The inner loop: accepted values into the array from place from on, len of them at most. */
  method RejectUniform(a: array<int>, from: nat, len: nat, buf: seq<int>) returns (ctr: nat)
    requires from + len <= a.Length
    modifies a
    ensures ctr <= len && a[..from + ctr] == old(a[..from]) + First(Accepted(Candidates(buf)), len)
    ensures ctr == |First(Accepted(Candidates(buf)), len)|
  {
    var pos: nat := 0;
    ctr := 0;
    ghost var before, got: seq<int>, all := a[..from], [], Accepted(Candidates(buf));
    assert buf[0..] == buf;
    while ctr < len && pos + 3 <= |buf|
      invariant ctr <= len && Reading(a[..], from, ctr, buf, pos, before, got, all)
      decreases |buf| - pos
    {
      ctr, got := ReadGroup(a, from, ctr, buf, pos, before, got, all);
      pos := pos + 3;
    }
    assert got == First(all, len);
  }

  /** What the bytes before pos had accepted is in the array, and what the others accept completes it. */
  ghost predicate Reading(a: seq<int>, from: nat, ctr: nat, buf: seq<int>, pos: nat, before: seq<int>, got: seq<int>,
      all: seq<int>) {
    && pos <= |buf| && |got| == ctr && from + ctr <= |a|
    && a[..from + ctr] == before + got && got + Accepted(Candidates(buf[pos..])) == all
  }

  method ReadGroup(a: array<int>, from: nat, ctr: nat, buf: seq<int>, pos: nat, ghost before: seq<int>,
      ghost got: seq<int>, ghost all: seq<int>) returns (ctr': nat, ghost got': seq<int>)
    requires from + ctr < a.Length && pos + 3 <= |buf| && Reading(a[..], from, ctr, buf, pos, before, got, all)
    modifies a
    ensures ctr <= ctr' <= ctr + 1 && Reading(a[..], from, ctr', buf, pos + 3, before, got', all)
  {
    GroupRead(buf, pos, got, all);
    var t := (buf[pos] + 0x100 * buf[pos + 1] + 0x1_0000 * buf[pos + 2]) % 0x80_0000;
    ctr', got' := ctr, got;
    if t < Q {
      Append(a, from + ctr, t);
      ctr', got' := ctr + 1, got + [t];
    }
  }

  /** The bytes of the blocks i to n - 1. */
  function Bytes(blocks: nat -> seq<int>, i: nat, n: nat): seq<int>
    requires i <= n
    decreases n - i
  {
    if i == n then [] else Bytes(blocks, i, n - 1) + blocks(n - 1)
  }

  /**
    The outer loop: the bytes that are left over when the buffer has been used up go in front of the next
    block. Whatever the size of the blocks, the polynomial consists of the first accepted values of the
    plain stream. The limit is where the model stops drawing; the source goes on.
   */
  method UniformPoly(blocks: nat -> seq<int>, first: nat, limit: nat) returns (a: array<int>, done: bool, ghost n: nat)
    requires first <= limit
    ensures fresh(a) && a.Length == N && first <= n <= limit && (!done ==> n == limit)
    ensures done ==> |Accepted(Candidates(Bytes(blocks, 0, n)))| >= N
    ensures done ==> a[..] == Accepted(Candidates(Bytes(blocks, 0, n)))[..N]
    ensures !done ==> |Accepted(Candidates(Bytes(blocks, 0, n)))| < N
  {
    a := new int[N];
    var buf := Start(blocks, first);
    ghost var used: seq<int> := [];
    n := first;
    var next := first;
    var ctr: nat := RejectUniform(a, 0, N, buf);
    FirstFilled(a[..], ctr, buf);
    while ctr < N && next < limit
      invariant first <= next == n <= limit && Filled(a[..], ctr, used, buf, Bytes(blocks, 0, n))
      decreases limit - next
    {
      ctr, buf, used := Refill(a, ctr, buf, blocks(next), used, Bytes(blocks, 0, n));
      next, n := next + 1, n + 1;
    }
    done := ctr == N;
    FilledMeans(a[..], ctr, used, buf, Bytes(blocks, 0, n));
  }

  lemma {:induction false} FirstFilled(a: seq<int>, ctr: nat, buf: seq<int>)
    requires |a| == N && ctr <= N && a[..ctr] == a[..0] + First(Accepted(Candidates(buf)), N)
    ensures Filled(a, ctr, [], buf, buf)
  {
    assert [] + buf == buf;
  }

  lemma {:induction false} FilledMeans(a: seq<int>, ctr: nat, used: seq<int>, buf: seq<int>, all: seq<int>)
    requires Filled(a, ctr, used, buf, all)
    ensures if ctr == N then |Accepted(Candidates(all))| >= N && a == Accepted(Candidates(all))[..N]
      else |Accepted(Candidates(all))| < N
  {
    assert a[..N] == a;
  }

  /**
    The array holds the first accepted values of all bytes so far. The used ones are whole groups, and
    the others are in the buffer.
   */
  ghost predicate Filled(a: seq<int>, ctr: nat, used: seq<int>, buf: seq<int>, all: seq<int>) {
    && |a| == N && ctr <= N && |used| % 3 == 0 && used + buf == all
    && a[..ctr] == First(Accepted(Candidates(all)), N)
  }

  /** One more block, behind the bytes that are left over. */
  method Refill(a: array<int>, ctr: nat, buf: seq<int>, block: seq<int>, ghost used: seq<int>, ghost all: seq<int>)
      returns (ctr': nat, buf': seq<int>, ghost used': seq<int>)
    requires Filled(a[..], ctr, used, buf, all) && ctr < N
    modifies a
    ensures Filled(a[..], ctr', used', buf', all + block)
  {
    var off := |buf| % 3;
    ghost var whole, before := buf[..|buf| - off], a[..ctr];
    NothingLeft(all, used, buf, before);
    buf' := buf[|buf| - off..] + block;
    used' := used + whole;
    LeftOver(used, buf, all, block, |buf| - off);
    var more := RejectUniform(a, ctr, N - ctr, buf');
    ctr' := ctr + more;
    NextAccepted(used', buf', before, a[..ctr']);
  }

  lemma {:induction false} LeftOver(used: seq<int>, buf: seq<int>, all: seq<int>, block: seq<int>, k: nat)
    requires used + buf == all && k <= |buf|
    ensures used + buf[..k] + (buf[k..] + block) == all + block
  {
    assert buf == buf[..k] + buf[k..];
  }

  lemma {:induction false} NothingLeft(all: seq<int>, used: seq<int>, buf: seq<int>, a: seq<int>)
    requires |used| % 3 == 0 && used + buf == all && a == First(Accepted(Candidates(all)), N) && |a| < N
    ensures var w := buf[..|buf| - |buf| % 3]; |used + w| % 3 == 0 && a == Accepted(Candidates(used + w))
  {
    var w := buf[..|buf| - |buf| % 3];
    CandidatesRest(buf);
    CandidatesJoin(used, buf);
    CandidatesJoin(used, w);
  }

  lemma {:induction false} NextAccepted(used: seq<int>, buf: seq<int>, before: seq<int>, after: seq<int>)
    requires |used| % 3 == 0 && before == Accepted(Candidates(used)) && |before| < N
    requires after == before + First(Accepted(Candidates(buf)), N - |before|)
    ensures after == First(Accepted(Candidates(used + buf)), N)
  {
    var more := Accepted(Candidates(buf));
    CandidatesJoin(used, buf);
    AcceptedJoin(Candidates(used), Candidates(buf));
    if |more| > N - |before| {
      assert (before + more)[..N] == before + more[..N - |before|];
    }
  }

  method Start(blocks: nat -> seq<int>, n: nat) returns (buf: seq<int>)
    ensures buf == Bytes(blocks, 0, n)
  {
    buf := [];
    for i := 0 to n
      invariant buf == Bytes(blocks, 0, i)
    {
      buf := buf + blocks(i);
    }
  }

  // ----- the challenge

  /** How many of the first n coefficients are not zero. */
  function Weight(c: seq<int>, n: nat): (w: nat)
    requires n <= |c|
  {
    if n == 0 then 0 else Weight(c, n - 1) + if c[n - 1] != 0 then 1 else 0
  }

  predicate Signs(c: seq<int>) {
    forall i :: 0 <= i < |c| ==> -1 <= c[i] <= 1
  }

  lemma {:induction false} WeightSame(c: seq<int>, d: seq<int>, n: nat)
    requires n <= |c| && n <= |d| && forall j :: 0 <= j < n ==> c[j] == d[j]
    ensures Weight(c, n) == Weight(d, n)
    decreases n
  {
    if n > 0 {
      WeightSame(c, d, n - 1);
    }
  }

  lemma {:induction false} WeightChanged(c: seq<int>, b: nat, x: int, n: nat)
    requires b < n <= |c|
    ensures Weight(c[b := x], n) == Weight(c, n) - (if c[b] != 0 then 1 else 0) + if x != 0 then 1 else 0
    decreases n
  {
    if b < n - 1 {
      WeightChanged(c, b, x, n - 1);
    } else {
      WeightSame(c, c[b := x], n - 1);
    }
  }

  lemma {:induction false} WeightOfZeros(c: seq<int>, n: nat)
    requires n <= |c| && forall j :: 0 <= j < n ==> c[j] == 0
    ensures Weight(c, n) == 0
    decreases n
  {
    if n > 0 {
      WeightOfZeros(c, n - 1);
    }
  }

  /** Coefficient b moves to place i, which is still zero, and a sign takes its place: one coefficient more. */
  lemma {:induction false} ShuffleStep(c: seq<int>, i: nat, b: nat, sign: int)
    requires b <= i < |c| && c[i] == 0 && sign != 0
    ensures Weight(c[i := c[b]][b := sign], i + 1) == Weight(c, i) + 1
  {
    var d := c[i := c[b]];
    WeightSame(c, d, i);
    assert Weight(d, i + 1) == Weight(d, i) + if d[i] != 0 then 1 else 0;
    WeightChanged(d, b, sign, i + 1);
  }

  /** The places the stream picks for i, i + 1, and so on, n of them: for each the next byte that is not above it. */
  function Picks(stream: seq<int>, i: nat, n: nat): (p: Option<seq<int>>)
    ensures p.Some? ==> |p.value| == n
    decreases |stream|
  {
    if n == 0 then Some([])
    else if stream == [] then None
    else if stream[0] > i then Picks(stream[1..], i, n)
    else
      match Picks(stream[1..], i + 1, n - 1)
      case None => None
      case Some(rest) => Some([stream[0]] + rest)
  }

  predicate Within(p: seq<int>, i: nat) {
    forall k :: 0 <= k < |p| ==> 0 <= p[k] <= i + k
  }

  lemma {:induction false} PicksWithin(stream: seq<int>, i: nat, n: nat)
    requires Below(stream, 256) && Picks(stream, i, n).Some?
    ensures Within(Picks(stream, i, n).value, i)
    decreases |stream|
  {
    if n > 0 {
      if stream[0] > i {
        PicksWithin(stream[1..], i, n);
      } else {
        PicksWithin(stream[1..], i + 1, n - 1);
      }
    }
  }

  /** For every pick, coefficient p[k] moves up to place i + k, and a sign takes its place. */
  function Shuffled(c: seq<int>, i: nat, p: seq<int>, signs: seq<int>): (d: seq<int>)
    requires i + |p| == |c| && |signs| == |p| && Within(p, i)
    ensures |d| == |c|
    decreases |p|
  {
    if p == [] then c
    else
      assert Within(p[1..], i + 1);
      Shuffled(c[i := c[p[0]]][p[0] := 1 - 2 * signs[0]], i + 1, p[1..], signs[1..])
  }

  /** Every pick adds one coefficient that is not zero. */
  lemma {:induction false} ShuffledWeight(c: seq<int>, i: nat, p: seq<int>, signs: seq<int>)
    requires i + |p| == |c| && |signs| == |p| && Within(p, i) && Below(signs, 2)
    requires Signs(c) && forall j :: i <= j < |c| ==> c[j] == 0
    ensures Signs(Shuffled(c, i, p, signs)) && Weight(Shuffled(c, i, p, signs), |c|) == Weight(c, i) + |p|
    decreases |p|
  {
    if p != [] {
      ShuffleStep(c, i, p[0], 1 - 2 * signs[0]);
      assert Within(p[1..], i + 1);
      ShuffledWeight(c[i := c[p[0]]][p[0] := 1 - 2 * signs[0]], i + 1, p[1..], signs[1..]);
    }
  }

  /** The challenge polynomial: the shuffle of the zero polynomial by the picks. */
  function ChallengeOf(mode: Mode, signs: seq<int>, stream: seq<int>): (r: Option<seq<int>>)
    requires |signs| == mode.Tau() && Below(stream, 256)
  {
    match Picks(stream, N - mode.Tau(), mode.Tau())
    case None => None
    case Some(p) =>
      PicksWithin(stream, N - mode.Tau(), mode.Tau());
      Some(Shuffled(seq(N, _ => 0), N - mode.Tau(), p, signs))
  }

  /** It has exactly tau coefficients that are not zero, each 1 or -1. */
  lemma {:induction false} ChallengeWeight(mode: Mode, signs: seq<int>, stream: seq<int>)
    requires |signs| == mode.Tau() && Below(signs, 2) && Below(stream, 256) && ChallengeOf(mode, signs, stream).Some?
    ensures var c := ChallengeOf(mode, signs, stream).value; |c| == N && Signs(c) && Weight(c, N) == mode.Tau()
  {
    var zeros, i := seq(N, _ => 0), N - mode.Tau();
    PicksWithin(stream, i, mode.Tau());
    WeightOfZeros(zeros, i);
    ShuffledWeight(zeros, i, Picks(stream, i, mode.Tau()).value, signs);
  }

  /**
    The challenge in place: for i from N - tau on, the next byte that is at most i says which coefficient
    moves up. Bytes run out only in the model; the source squeezes more.
   */
  method Challenge(mode: Mode, signs: seq<int>, stream: seq<int>) returns (r: Option<seq<int>>)
    requires |signs| == mode.Tau() && Below(signs, 2) && Below(stream, 256)
    ensures r == ChallengeOf(mode, signs, stream)
    ensures r.Some? ==> |r.value| == N && Signs(r.value) && Weight(r.value, N) == mode.Tau()
  {
    ghost var all := ChallengeOf(mode, signs, stream);
    if all.Some? {
      ChallengeWeight(mode, signs, stream);
    }
    var c := new int[N](_ => 0);
    var i, rest, left := N - mode.Tau(), stream, signs;
    assert c[..] == seq(N, _ => 0);
    while i < N
      invariant N - mode.Tau() <= i <= N && Below(rest, 256) && |left| == N - i
      invariant Remaining(c[..], i, rest, left) == all
      decreases N - i
    {
      rest := SkipAbove(rest, i, N - i);
      if rest == [] {
        return None;
      }
      var b := rest[0];
      ghost var was := c[..];
      c[i] := c[b];
      c[b] := 1 - 2 * left[0];
      assert c[..] == was[i := was[b]][b := 1 - 2 * left[0]];
      RemainingNext(was, i, rest, left);
      i, rest, left := i + 1, rest[1..], left[1..];
    }
    r := Some(c[..]);
  }

  /** What the coefficients c become from place i on. */
  ghost function Remaining(c: seq<int>, i: nat, stream: seq<int>, signs: seq<int>): (r: Option<seq<int>>)
    requires i <= |c| && |signs| == |c| - i && Below(stream, 256)
  {
    match Picks(stream, i, |signs|)
    case None => None
    case Some(p) =>
      PicksWithin(stream, i, |signs|);
      Some(Shuffled(c, i, p, signs))
  }

  lemma {:induction false} RemainingNext(c: seq<int>, i: nat, stream: seq<int>, signs: seq<int>)
    requires i < |c| && |signs| == |c| - i && Below(stream, 256) && stream != [] && stream[0] <= i
    ensures Remaining(c, i, stream, signs)
      == Remaining(c[i := c[stream[0]]][stream[0] := 1 - 2 * signs[0]], i + 1, stream[1..], signs[1..])
  {
    var p := Picks(stream[1..], i + 1, |signs| - 1);
    if p.Some? {
      assert ([stream[0]] + p.value)[1..] == p.value;
    }
  }

  /** The inner loop: bytes above i are passed over. */
  method SkipAbove(stream: seq<int>, i: nat, ghost n: nat) returns (rest: seq<int>)
    requires Below(stream, 256) && n > 0
    ensures Below(rest, 256) && Picks(rest, i, n) == Picks(stream, i, n) && (rest != [] ==> rest[0] <= i)
  {
    rest := stream;
    while rest != [] && rest[0] > i
      invariant Below(rest, 256) && Picks(rest, i, n) == Picks(stream, i, n)
      decreases |rest|
    {
      rest := rest[1..];
    }
  }
}
