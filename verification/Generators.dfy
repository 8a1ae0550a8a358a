/** The two caching generators. Requests are served from a cached block, which is refilled when it runs out. */
module Generators {
  import opened ModArith
  import opened BitPacking
  import opened ByteCounters
  import opened BlockStreams

  const THRESHOLD := 1024000

  /** Copies n bytes behind the first at of the target; the arrays are different ones. */
  method Copy(target: array<int>, at: nat, source: array<int>, from: nat, n: nat)
    requires target != source && at + n <= target.Length && from + n <= source.Length
    modifies target
    ensures target[..at + n] == old(target[..at]) + source[from..from + n]
  {
    forall j | 0 <= j < n { target[at + j] := source[from + j]; }
  }

  /** A new seed is absorbed: the rest of the block is dropped and a new block drawn. */
  function Reseeded<K>(s: Source<K>, p: Position<K>, seed: seq<int>): Position<K> {
    var (k, block) := s.next(s.update(p.key, seed));
    Position(k, block)
  }

  /** The generator on cSHAKE. The source squeezes one block per step; update absorbs a new seed. */
  class Csg<K(!new)> {
    const source: Source<K>
    const rate: nat
    const pres: bool
    const cache: array<int>
    var key: K
    var bctr: nat
    var cpos: nat
    var crmd: nat

    ghost predicate Valid()
      reads this, cache
    {
      Blocks(source, rate) && cache.Length == rate && cpos + crmd == rate
    }

    /** Where the output stands in the stream of the source. */
    ghost function Place(): Position<K>
      reads this, cache
      requires Valid()
    {
      Position(key, cache[cpos..])
    }

    constructor (s: Source<K>, r: nat, k: K, predictive: bool)
      requires Blocks(s, r)
      ensures Valid() && fresh(cache) && source == s && rate == r && pres == predictive && bctr == 0
      ensures Place() == Position(s.next(k).0, s.next(k).1)
    {
      source, rate, pres := s, r, predictive;
      cache := new int[r](_ => 0);
      key, bctr, cpos, crmd := k, 0, 0, 0;
      new;
      FillBuffer();
    }

    /** Draws one block into the cache. */
    method FillBuffer()
      requires Blocks(source, rate) && cache.Length == rate
      modifies this, cache
      ensures Valid() && bctr == old(bctr)
      ensures Place() == Position(source.next(old(key)).0, source.next(old(key)).1)
    {
      var (k, block) := source.next(key);
      forall i | 0 <= i < rate { cache[i] := block[i]; }
      key, crmd, cpos := k, rate, 0;
      assert cache[0..] == block;
    }

    /** Draws a block and hands out its first bytes, all that are wanted or all there are. */
    method ServeBlock(output: array<int>, at: nat) returns (len: nat)
      requires Valid() && output != cache && at < output.Length && cache[cpos..] == []
      modifies this, cache, output
      ensures Valid() && bctr == old(bctr) && 0 < len <= output.Length - at
      ensures output[..at + len] == old(output[..at]) + Take(source, old(Place()), len)
      ensures Place() == After(source, old(Place()), len)
      ensures at + len < output.Length ==> cache[cpos..] == []
    {
      ghost var k := key;
      FillBuffer();
      len := if crmd < output.Length - at then crmd else output.Length - at;
      TakeFromNext(source, k, len, rate);
      ServeCached(output, at, len);
    }

    /** Fills the output from position pos on, drawing as many blocks as it takes. */
    method FromFreshBlocks(output: array<int>, pos: nat)
      requires Valid() && output != cache && pos <= output.Length && (pos < output.Length ==> cache[cpos..] == [])
      modifies this, cache, output
      ensures Valid() && bctr == old(bctr)
      ensures output[..] == old(output[..pos]) + Take(source, old(Place()), output.Length - pos)
      ensures Place() == After(source, old(Place()), output.Length - pos)
    {
      ghost var p, before := Place(), output[..pos];
      var at := pos;
      while at < output.Length
        invariant Valid() && pos <= at <= output.Length && bctr == old(bctr)
        invariant output[..at] == before + Take(source, p, at - pos) && Place() == After(source, p, at - pos)
        invariant at < output.Length ==> cache[cpos..] == []
        decreases output.Length - at
      {
        ghost var out, q := output[..at], Place();
        var len := ServeBlock(output, at);
        NextPiece(source, p, at - pos, before, out, q, len, rate);
        at := at + len;
      }
      assert output[..at] == output[..];
    }

    /** Hands out the first len bytes that are left in the cache. */
    method ServeCached(output: array<int>, at: nat, len: nat)
      requires Valid() && output != cache && len <= crmd && at + len <= output.Length
      modifies this, output
      ensures Valid() && bctr == old(bctr) && crmd == old(crmd) - len
      ensures output[..at + len] == old(output[..at]) + Take(source, old(Place()), len)
      ensures Place() == After(source, old(Place()), len)
    {
      TakeFromRest(source, Place(), len);
      assert cache[cpos..][..len] == cache[cpos..cpos + len];
      Copy(output, at, cache, cpos, len);
      crmd, cpos := crmd - len, cpos + len;
    }

    /** The request: what is left in the cache first, then fresh blocks. */
    method Serve(output: array<int>)
      requires Valid() && output != cache
      modifies this, cache, output
      ensures Valid() && bctr == old(bctr)
      ensures output[..] == Take(source, old(Place()), output.Length)
        && Place() == After(source, old(Place()), output.Length)
    {
      if crmd < output.Length {
        ServeAcross(output);
      } else {
        ServeCached(output, 0, output.Length);
        assert output[..output.Length] == output[..];
      }
      if crmd != 0 {
        ClearUsed();
      }
    }

    /** A request for more than the cache holds. */
    method ServeAcross(output: array<int>)
      requires Valid() && output != cache && crmd < output.Length
      modifies this, cache, output
      ensures Valid() && bctr == old(bctr)
      ensures output[..] == Take(source, old(Place()), output.Length)
        && Place() == After(source, old(Place()), output.Length)
    {
      var pos := crmd;
      ghost var p := Place();
      ServeCached(output, 0, pos);
      ghost var out, q := output[..pos], Place();
      PieceBehind(source, p, pos, output.Length, out, q, rate);
      FromFreshBlocks(output, pos);
    }

    /**
      The request with its bookkeeping. Without predictive resistance the output is the next piece of the
      stream; with it, a reseeding may follow.
     */
    method Generate(output: array<int>, random: seq<int>)
      requires Valid() && output != cache
      modifies this, cache, output
      ensures Valid() && output[..] == Take(source, old(Place()), output.Length)
      ensures var total, q := old(bctr) + output.Length, After(source, old(Place()), output.Length);
        if pres && total >= THRESHOLD then
          bctr == 0 && Place() == Reseeded(source, q, random)
        else bctr == total && Place() == q
    {
      bctr := bctr + output.Length;
      Serve(output);
      AutoReseed(random);
    }

    /** Overwrites the bytes that have been handed out. */
    method ClearUsed()
      requires Valid()
      modifies cache
      ensures Valid() && Place() == old(Place())
    {
      forall j | 0 <= j < cpos { cache[j] := 0; }
    }

    method AutoReseed(random: seq<int>)
      requires Valid()
      modifies this, cache
      ensures Valid()
      ensures if pres && old(bctr) >= THRESHOLD then
          bctr == 0 && Place() == Reseeded(source, old(Place()), random)
        else bctr == old(bctr) && Place() == old(Place())
    {
      if pres && bctr >= THRESHOLD {
        key := source.update(key, random);
        FillBuffer();
        bctr := 0;
      }
    }

    /** A new seed: what was left in the cache is dropped. */
    method Update(seed: seq<int>)
      requires Valid()
      modifies this, cache
      ensures Valid() && bctr == old(bctr)
      ensures Place() == Reseeded(source, old(Place()), seed)
    {
      key := source.update(key, seed);
      FillBuffer();
    }
  }

  // ----- the generator on HMAC

  /** The state of the keyed hash, with a step that absorbs bytes and delivers a code. */
  datatype Hmac<!H> = Hmac(absorb: (H, seq<int>) -> H, code: H -> (H, seq<int>))

  /** The key state of the HMAC generator as a stream: hash state, last block and counter. */
  datatype Chained<!H> = Chained(hash: H, last: seq<int>, nonce: seq<int>)

  function Bytewise(b: seq<int>): (r: seq<int>)
    ensures |r| == |b| && Below(r, 256)
  {
    seq(|b|, i requires 0 <= i < |b| => b[i] % 256)
  }

  const HCG_CACHE := 64
  const HCG_NONCE := 8

  /** Every block is the code of the block before, the incremented counter and the info string. */
  function ChainedStep<H>(h: Hmac<H>, info: seq<int>, c: Chained<H>): (r: (Chained<H>, seq<int>))
  {
    var nonce := NextBig(Bytewise(c.nonce));
    var (state, raw) := h.code(h.absorb(c.hash, c.last + nonce + info));
    (Chained(state, CacheOf(raw), nonce), CacheOf(raw))
  }

  /** A code as it lies in the cache. */
  function CacheOf(raw: seq<int>): (block: seq<int>)
    ensures |block| == HCG_CACHE
  {
    seq(HCG_CACHE, i => if 0 <= i < |raw| then raw[i] % 256 else 0)
  }

  function ChainedSource<H>(h: Hmac<H>, info: seq<int>): Source<Chained<H>> {
    Source((c: Chained<H>) => ChainedStep(h, info, c),
      (c: Chained<H>, seed: seq<int>) => Chained(h.absorb(c.hash, seed), c.last, c.nonce))
  }

  lemma {:induction false} ChainedBlocks<H(!new)>(h: Hmac<H>, info: seq<int>)
    ensures Blocks(ChainedSource(h, info), HCG_CACHE)
    ensures forall c :: ChainedSource(h, info).next(c) == ChainedStep(h, info, c)
  {
  }

  /** A hash that keeps a list of what it absorbed since the last code, which ends it. */
  ghost predicate Lists(h: Hmac<seq<seq<int>>>, f: seq<seq<int>> -> seq<int>) {
    && (forall k, b :: h.absorb(k, b) == k + [b])
    && forall k :: h.code(k) == ([], f(k))
  }

  /**
    With such a hash: a block is the code over one message, made of the block before, the next number
      in the bytes of the
    counter, most significant first, and the info string.
   */
  lemma {:induction false} BlockOfMessage(h: Hmac<seq<seq<int>>>, f: seq<seq<int>> -> seq<int>, info: seq<int>,
      c: Chained<seq<seq<int>>>) returns (number: seq<int>)
    requires Lists(h, f) && c.hash == [] && |c.nonce| == HCG_NONCE && Below(c.nonce, 256)
    ensures |number| == HCG_NONCE && Below(number, 256)
    ensures BigEndian(number) == (BigEndian(c.nonce) + 1) % Pow2(8 * |c.nonce|)
    ensures ChainedStep(h, info, c)
      == (Chained([], CacheOf(f([c.last + number + info])), number), CacheOf(f([c.last + number + info])))
  {
    number := NextBig(Bytewise(c.nonce));
    assert Bytewise(c.nonce) == c.nonce;
    NextBigValue(c.nonce);
    assert [] + [c.last + number + info] == [c.last + number + info];
  }

  /** The generator on HMAC. The cache is at once what is handed out and what the next block is made of. */
  class Hcg<H(!new)> {
    const hmac: Hmac<H>
    const info: seq<int>
    const pres: bool
    const cache: array<int>
    const nonce: array<int>
    var hash: H
    var bctr: nat
    var cpos: nat
    var crmd: nat

    ghost predicate Valid()
      reads this, cache, nonce
    {
      && cache != nonce && cache.Length == HCG_CACHE && nonce.Length == HCG_NONCE && cpos + crmd == HCG_CACHE
      && Below(nonce[..], 256)
    }

    /** The cache is loaded with a code of the keyed state before the first block is made. */
    constructor (h: Hmac<H>, text: seq<int>, k: H, predictive: bool)
      ensures Valid() && fresh(cache) && fresh(nonce) && hmac == h && info == text && pres == predictive && bctr == 0
      ensures var c := Chained(h.code(k).0, CacheOf(h.code(k).1), seq(HCG_NONCE, _ => 0));
        Place() == Position(ChainedStep(h, text, c).0, ChainedStep(h, text, c).1)
    {
      var (state, raw) := h.code(k);
      hmac, info, pres := h, text, predictive;
      cache := new int[HCG_CACHE](i requires 0 <= i < HCG_CACHE => CacheOf(raw)[i]);
      nonce := new int[HCG_NONCE](_ => 0);
      hash, bctr, cpos, crmd := state, 0, HCG_CACHE, 0;
      new;
      assert cache[..] == CacheOf(raw) && nonce[..] == seq(HCG_NONCE, _ => 0);
      FillBuffer();
    }

    ghost function Source(): Source<Chained<H>> {
      ChainedSource(hmac, info)
    }

    ghost function Place(): Position<Chained<H>>
      reads this, cache, nonce
      requires Valid()
    {
      Position(Chained(hash, cache[..], nonce[..]), cache[cpos..])
    }

    /** Makes the next block out of the last one and puts it in its place. */
    method FillBuffer()
      requires Valid()
      modifies this, cache, nonce
      ensures Valid() && bctr == old(bctr) && crmd == HCG_CACHE
      ensures Place() == Position(Source().next(old(Place().key)).0, Source().next(old(Place().key)).1)
    {
      ghost var c := Place().key;
      assert Bytewise(nonce[..]) == nonce[..];
      var last := cache[..];
      BeIncrement(nonce);
      var (state, raw) := hmac.code(hmac.absorb(hash, last + nonce[..] + info));
      forall i | 0 <= i < HCG_CACHE { cache[i] := if i < |raw| then raw[i] % 256 else 0; }
      hash, crmd, cpos := state, HCG_CACHE, 0;
      assert cache[..] == CacheOf(raw);
      assert nonce[..] == NextBig(Bytewise(c.nonce));
      assert ChainedStep(hmac, info, c) == (Chained(hash, cache[..], nonce[..]), cache[..]);
      assert cache[0..] == cache[..];
    }

    method ServeBlock(output: array<int>, at: nat) returns (len: nat)
      requires Valid() && output != cache && output != nonce && at < output.Length && cache[cpos..] == []
      modifies this, cache, nonce, output
      ensures Valid() && bctr == old(bctr) && 0 < len <= output.Length - at
      ensures output[..at + len] == old(output[..at]) + Take(Source(), old(Place()), len)
      ensures Place() == After(Source(), old(Place()), len)
      ensures at + len < output.Length ==> cache[cpos..] == []
    {
      ghost var k := Place().key;
      ChainedBlocks(hmac, info);
      FillBuffer();
      len := if crmd < output.Length - at then crmd else output.Length - at;
      TakeFromNext(Source(), k, len, HCG_CACHE);
      ServeCached(output, at, len);
    }

    method FromFreshBlocks(output: array<int>, pos: nat)
      requires Valid() && output != cache && output != nonce && pos <= output.Length
        && (pos < output.Length ==> cache[cpos..] == [])
      modifies this, cache, nonce, output
      ensures Valid() && bctr == old(bctr)
      ensures output[..] == old(output[..pos]) + Take(Source(), old(Place()), output.Length - pos)
      ensures Place() == After(Source(), old(Place()), output.Length - pos)
    {
      ChainedBlocks(hmac, info);
      ghost var s, p, before := Source(), Place(), output[..pos];
      var at := pos;
      while at < output.Length
        invariant Valid() && pos <= at <= output.Length && bctr == old(bctr)
        invariant output[..at] == before + Take(s, p, at - pos) && Place() == After(s, p, at - pos)
        invariant at < output.Length ==> cache[cpos..] == []
        decreases output.Length - at
      {
        ghost var out, q := output[..at], Place();
        var len := ServeBlock(output, at);
        NextPiece(s, p, at - pos, before, out, q, len, HCG_CACHE);
        at := at + len;
      }
      assert output[..at] == output[..];
    }

    method ServeCached(output: array<int>, at: nat, len: nat)
      requires Valid() && output != cache && output != nonce && len <= crmd && at + len <= output.Length
      modifies this, output
      ensures Valid() && bctr == old(bctr) && crmd == old(crmd) - len
      ensures output[..at + len] == old(output[..at]) + Take(Source(), old(Place()), len)
      ensures Place() == After(Source(), old(Place()), len)
    {
      TakeFromRest(Source(), Place(), len);
      assert cache[cpos..][..len] == cache[cpos..cpos + len];
      Copy(output, at, cache, cpos, len);
      crmd, cpos := crmd - len, cpos + len;
    }

    /** The request: handing bytes out does not disturb the chain, since the cache is left as it is. */
    method Serve(output: array<int>)
      requires Valid() && output != cache && output != nonce
      modifies this, cache, nonce, output
      ensures Valid() && bctr == old(bctr)
      ensures output[..] == Take(Source(), old(Place()), output.Length)
        && Place() == After(Source(), old(Place()), output.Length)
    {
      if crmd < output.Length {
        ServeAcross(output);
      } else {
        ServeCached(output, 0, output.Length);
        assert output[..output.Length] == output[..];
      }
    }

    /** A request for more than the cache holds. */
    method ServeAcross(output: array<int>)
      requires Valid() && output != cache && output != nonce && crmd < output.Length
      modifies this, cache, nonce, output
      ensures Valid() && bctr == old(bctr)
      ensures output[..] == Take(Source(), old(Place()), output.Length)
        && Place() == After(Source(), old(Place()), output.Length)
    {
      ChainedBlocks(hmac, info);
      var pos := crmd;
      ghost var s, p := Source(), Place();
      ServeCached(output, 0, pos);
      ghost var out, q := output[..pos], Place();
      PieceBehind(s, p, pos, output.Length, out, q, HCG_CACHE);
      FromFreshBlocks(output, pos);
    }

    /**
      The request with its bookkeeping. Without predictive resistance the output is the next piece of the
      stream; with it, a reseeding may follow, which drops what was left of the block.
     */
    method Generate(output: array<int>, random: seq<int>)
      requires Valid() && output != cache && output != nonce
      modifies this, cache, nonce, output
      ensures Valid() && output[..] == Take(Source(), old(Place()), output.Length)
      ensures var total, q := old(bctr) + output.Length, After(Source(), old(Place()), output.Length);
        if pres && total >= THRESHOLD then bctr == 0 && Place() == Reseeded(Source(), q, random)
        else bctr == total && Place() == q
    {
      bctr := bctr + output.Length;
      Serve(output);
      AutoReseed(random);
    }

    method AutoReseed(random: seq<int>)
      requires Valid()
      modifies this, cache, nonce
      ensures Valid()
      ensures if pres && old(bctr) >= THRESHOLD then bctr == 0 && Place() == Reseeded(Source(), old(Place()), random)
        else bctr == old(bctr) && Place() == old(Place())
    {
      if pres && bctr >= THRESHOLD {
        hash := hmac.absorb(hash, random);
        FillBuffer();
        bctr := 0;
      }
    }
  }
}
