/** The plain stream behind a caching generator: blocks drawn one after the other and cut into requests. */
module BlockStreams {

  /** Draws the next block: the new key state and the block. */
  datatype Source<!K> = Source(next: K -> (K, seq<int>), update: (K, seq<int>) -> K)

  /** Every block has the given size. */
  ghost predicate Blocks<K(!new)>(s: Source<K>, rate: nat) {
    rate > 0 && forall k :: |s.next(k).1| == rate
  }

  /** Where a stream stands: the key state, and what is left of the block drawn last. */
  datatype Position<!K> = Position(key: K, rest: seq<int>)

  /** The next n bytes, for any way of drawing blocks; empty blocks are skipped at most n times. */
  function Take<K>(s: Source<K>, p: Position<K>, n: nat): (b: seq<int>)
    decreases n, |p.rest| == 0
  {
    if n == 0 then []
    else if p.rest != [] then [p.rest[0]] + Take(s, Position(p.key, p.rest[1..]), n - 1)
    else
      var (k, block) := s.next(p.key);
      if block == [] then [] else Take(s, Position(k, block), n)
  }

  /** Where the stream stands after n bytes. A new block is drawn only when a byte of it is needed. */
  function After<K>(s: Source<K>, p: Position<K>, n: nat): (q: Position<K>)
    decreases n, |p.rest| == 0
  {
    if n == 0 then p
    else if p.rest != [] then After(s, Position(p.key, p.rest[1..]), n - 1)
    else
      var (k, block) := s.next(p.key);
      if block == [] then p else After(s, Position(k, block), n)
  }

  /** Requests can be joined: m bytes and then n bytes are m + n bytes. */
  lemma {:induction false} TakeSplit<K(!new)>(s: Source<K>, p: Position<K>, m: nat, n: nat, rate: nat)
    requires Blocks(s, rate)
    ensures Take(s, p, m + n) == Take(s, p, m) + Take(s, After(s, p, m), n)
    ensures After(s, p, m + n) == After(s, After(s, p, m), n)
    decreases m, |p.rest| == 0
  {
    if m > 0 {
      if p.rest != [] {
        TakeSplit(s, Position(p.key, p.rest[1..]), m - 1, n, rate);
      } else {
        var (k, block) := s.next(p.key);
        TakeSplit(s, Position(k, block), m, n, rate);
      }
    }
  }

  /** A first piece of m bytes, and the rest of n. */
  lemma {:induction false} PieceBehind<K(!new)>(s: Source<K>, p: Position<K>, m: nat, n: nat, out: seq<int>,
      q: Position<K>, rate: nat)
    requires Blocks(s, rate) && m <= n && out == Take(s, p, m) && q == After(s, p, m)
    ensures out + Take(s, q, n - m) == Take(s, p, n) && After(s, q, n - m) == After(s, p, n)
  {
    TakeSplit(s, p, m, n - m, rate);
  }

  /** The next piece behind what has been put out. */
  lemma {:induction false} NextPiece<K(!new)>(s: Source<K>, p: Position<K>, n: nat, before: seq<int>, out: seq<int>,
      q: Position<K>, len: nat, rate: nat)
    requires Blocks(s, rate) && out == before + Take(s, p, n) && q == After(s, p, n)
    ensures out + Take(s, q, len) == before + Take(s, p, n + len) && After(s, q, len) == After(s, p, n + len)
  {
    TakeSplit(s, p, n, len, rate);
  }

  /** Bytes that are still there are taken as they are. */
  lemma {:induction false} TakeFromRest<K>(s: Source<K>, p: Position<K>, n: nat)
    requires n <= |p.rest|
    ensures Take(s, p, n) == p.rest[..n] && After(s, p, n) == Position(p.key, p.rest[n..])
    decreases n
  {
    if n > 0 {
      TakeFromRest(s, Position(p.key, p.rest[1..]), n - 1);
      assert p.rest[..n] == [p.rest[0]] + p.rest[1..][..n - 1];
      assert p.rest[1..][n - 1..] == p.rest[n..];
    } else {
      assert p.rest[0..] == p.rest;
    }
  }

  /** A block is drawn when nothing is left. */
  lemma {:induction false} TakeFromNext<K(!new)>(s: Source<K>, k: K, n: nat, rate: nat)
    requires Blocks(s, rate) && n > 0
    ensures var q := Position(s.next(k).0, s.next(k).1);
      Take(s, Position(k, []), n) == Take(s, q, n) && After(s, Position(k, []), n) == After(s, q, n)
  {
  }

  /** The outputs of a run of requests. */
  function Outputs<K>(s: Source<K>, p: Position<K>, requests: seq<nat>): (b: seq<seq<int>>)
    decreases |requests|
  {
    if requests == [] then []
    else [Take(s, p, requests[0])] + Outputs(s, After(s, p, requests[0]), requests[1..])
  }

  function Joined(b: seq<seq<int>>): seq<int> {
    if b == [] then [] else b[0] + Joined(b[1..])
  }

  function Total(requests: seq<nat>): nat {
    if requests == [] then 0 else requests[0] + Total(requests[1..])
  }

  /** However the requests are cut, joined up they are one run of the stream. */
  lemma {:induction false} OutputsJoined<K(!new)>(s: Source<K>, p: Position<K>, requests: seq<nat>, rate: nat)
    requires Blocks(s, rate)
    ensures Joined(Outputs(s, p, requests)) == Take(s, p, Total(requests))
    decreases |requests|
  {
    if requests != [] {
      var q := After(s, p, requests[0]);
      OutputsJoined(s, q, requests[1..], rate);
      TakeSplit(s, p, requests[0], Total(requests[1..]), rate);
      assert Outputs(s, p, requests)[1..] == Outputs(s, q, requests[1..]);
    }
  }

  /** The stream as blocks: n of them, one after the other. */
  function FirstBlocks<K>(s: Source<K>, k: K, n: nat): seq<int>
    decreases n
  {
    if n == 0 then [] else s.next(k).1 + FirstBlocks(s, s.next(k).0, n - 1)
  }

  /** Taking whole blocks from a fresh position gives the blocks. */
  lemma {:induction false} TakeBlocks<K(!new)>(s: Source<K>, k: K, n: nat, rate: nat)
    requires Blocks(s, rate)
    ensures Take(s, Position(k, []), n * rate) == FirstBlocks(s, k, n)
    decreases n
  {
    if n > 0 {
      var (k', block) := s.next(k);
      assert n * rate == rate + (n - 1) * rate;
      TakeFromNext(s, k, n * rate, rate);
      TakeSplit(s, Position(k', block), rate, (n - 1) * rate, rate);
      TakeFromRest(s, Position(k', block), rate);
      assert block[..rate] == block && block[rate..] == [];
      TakeBlocks(s, k', n - 1, rate);
    }
  }
}
