/** The modes of AES: chaining with padding, and counters. */
module AesModes {
  import opened ModArith
  import opened BitPacking
  import opened BitXor
  import opened ByteCounters
  import opened ScalarDigits
  import opened AesBlock
  import opened CounterStreams

  /** A block function and its inverse. */
  datatype Pair = Pair(enc: State -> State, dec: State -> State)

  ghost predicate Inverse(c: Pair) {
    forall b: State :: c.dec(c.enc(b)) == b
  }

  function Added(a: State, b: State): State {
    XorBytes(a, b)
  }

  lemma {:induction false} AddedTwice(a: State, b: State)
    ensures Added(Added(a, b), b) == a && Added(Added(b, a), b) == a
  {
    XorBytesTwice(a, b);
    XorBytesSwap(a, b);
  }

  // ----- padding

  /** A last piece of 1 to 16 bytes is filled up; every byte added says how many there are. */
  function Padded(m: Bytes): (b: State)
    requires 0 < |m| <= BLOCK
  {
    m + seq(BLOCK - |m|, _ => BLOCK - |m|)
  }

  /** How much of a block is padding: nothing, unless its last bytes all say their number and that is below 16. */
  function PaddingLength(b: State): (n: nat)
    ensures n < BLOCK
  {
    var count := b[BLOCK - 1];
    if count < BLOCK && (forall j :: BLOCK - count <= j < BLOCK - 1 ==> b[j] == count) then count else 0
  }

  lemma {:induction false} PaddedLength(m: Bytes)
    requires 0 < |m| < BLOCK
    ensures PaddingLength(Padded(m)) == BLOCK - |m| && Padded(m)[..|m|] == m
  {
  }

  // ----- chaining

  function CbcEncrypted(c: Pair, iv: State, m: Bytes): (t: Bytes)
    decreases |m|
  {
    if m == [] then []
    else if |m| <= BLOCK then c.enc(Added(iv, Padded(m)))
    else
      var b := c.enc(Added(iv, m[..BLOCK]));
      b + CbcEncrypted(c, b, m[BLOCK..])
  }

  /** The chaining value after a message. */
  function Chained(c: Pair, iv: State, m: Bytes): State
    decreases |m|
  {
    if m == [] then iv
    else if |m| <= BLOCK then c.enc(Added(iv, Padded(m)))
    else Chained(c, c.enc(Added(iv, m[..BLOCK])), m[BLOCK..])
  }

  /** A whole block of the text is added to the block put out before it, the first one to the nonce, and encrypted. */
  lemma {:induction false} CbcBlock(c: Pair, iv: State, m: Bytes, at: nat) returns (before: State)
    requires at % BLOCK == 0 && at + BLOCK <= |m|
    ensures ChainedAt(c, iv, m, CbcEncrypted(c, iv, m), at, before)
    decreases |m|
  {
    if at == 0 {
      before := iv;
      FirstBlock(c, iv, m);
    } else {
      var b := c.enc(Added(iv, m[..BLOCK]));
      var rest := CbcBlock(c, b, m[BLOCK..], at - BLOCK);
      before := rest;
      BehindFirst(c, iv, m, b, m[BLOCK..], CbcEncrypted(c, b, m[BLOCK..]), at, rest);
    }
  }

  /** The block at a place of t is made from that of m and from the one before it, or from the nonce. */
  ghost predicate ChainedAt(c: Pair, iv: State, m: Bytes, t: Bytes, at: nat, before: State)
    requires at + BLOCK <= |m|
  {
    && at + BLOCK <= |t| && Block(m[at..at + BLOCK])
    && before == (if at < BLOCK then iv else t[at - BLOCK..at])
    && t[at..at + BLOCK] == c.enc(Added(before, m[at..at + BLOCK]))
  }

  lemma {:induction false} BehindFirst(c: Pair, iv: State, m: Bytes, first: Bytes, m': Bytes, t: Bytes, at: nat,
      before: State)
    requires BLOCK <= at && at % BLOCK == 0 && at + BLOCK <= |m| && |first| == BLOCK && m' == m[BLOCK..] && Block(first)
    requires ChainedAt(c, first, m', t, at - BLOCK, before)
    ensures ChainedAt(c, iv, m, first + t, at, before)
  {
    var u: Bytes := first + t;
    assert m'[at - BLOCK..at] == m[at..at + BLOCK] && u[at..at + BLOCK] == t[at - BLOCK..at];
    if at == BLOCK {
      assert u[0..BLOCK] == first;
    } else {
      assert u[at - BLOCK..at] == t[at - BLOCK - BLOCK..at - BLOCK];
    }
  }

  lemma {:induction false} FirstBlock(c: Pair, iv: State, m: Bytes)
    requires BLOCK <= |m|
    ensures ChainedAt(c, iv, m, CbcEncrypted(c, iv, m), 0, iv)
  {
    assert m[0..BLOCK] == m[..BLOCK];
    if |m| == BLOCK {
      assert Padded(m) == m[..BLOCK];
    }
  }

  /** The bytes a decryption of the given length reads; even length 0 reads a block. */
  function Whole(length: nat): (n: nat)
    ensures n >= length && n >= BLOCK && n % BLOCK == 0
    decreases length
  {
    if length <= BLOCK then BLOCK else BLOCK + Whole(length - BLOCK)
  }

  function CbcDecrypted(c: Pair, iv: State, t: Bytes, length: nat): (m: Bytes)
    requires |t| == Whole(length)
    decreases length
  {
    if length <= BLOCK then
      var b := Added(c.dec(t), iv);
      b[..BLOCK - PaddingLength(b)]
    else Added(c.dec(t[..BLOCK]), iv) + CbcDecrypted(c, t[..BLOCK], t[BLOCK..], length - BLOCK)
  }

  /** The chaining value after a decryption: the last block read. */
  function Unchained(iv: State, t: Bytes, length: nat): State
    requires |t| == Whole(length)
    decreases length
  {
    if length <= BLOCK then t else Unchained(t[..BLOCK], t[BLOCK..], length - BLOCK)
  }

  /** What the decryption takes for padding although it was not added: only the end of an aligned message. */
  function Mistaken(m: Bytes): (n: nat)
    ensures n < BLOCK && n <= |m|
  {
    if m == [] || |m| % BLOCK != 0 then 0 else PaddingLength(m[|m| - BLOCK..])
  }

  lemma {:induction false} EncryptedLength(c: Pair, iv: State, m: Bytes)
    requires m != []
    ensures |CbcEncrypted(c, iv, m)| == Whole(|m|) == Whole(Whole(|m|))
    decreases |m|
  {
    if |m| > BLOCK {
      EncryptedLength(c, c.enc(Added(iv, m[..BLOCK])), m[BLOCK..]);
    }
  }

  /** Both sides are left with the same chaining value. */
  lemma {:induction false} ChainsAgree(c: Pair, iv: State, m: Bytes)
    requires m != []
    ensures |CbcEncrypted(c, iv, m)| == Whole(|m|) == Whole(Whole(|m|))
    ensures Unchained(iv, CbcEncrypted(c, iv, m), Whole(|m|)) == Chained(c, iv, m)
    decreases |m|
  {
    EncryptedLength(c, iv, m);
    if |m| > BLOCK {
      var b := c.enc(Added(iv, m[..BLOCK]));
      ChainsAgree(c, b, m[BLOCK..]);
      FirstApart(c, iv, m, b);
    }
  }

  lemma {:induction false} FirstApart(c: Pair, iv: State, m: Bytes, b: State)
    requires |m| > BLOCK && b == c.enc(Added(iv, m[..BLOCK]))
    ensures |CbcEncrypted(c, iv, m)| >= BLOCK
    ensures CbcEncrypted(c, iv, m)[..BLOCK] == b
    ensures CbcEncrypted(c, iv, m)[BLOCK..] == CbcEncrypted(c, b, m[BLOCK..])
  {
  }

  /** What comes back is the message without the bytes that are taken for padding. */
  lemma {:induction false} DecryptedEncrypted(c: Pair, iv: State, m: Bytes)
    requires Inverse(c) && m != []
    ensures |CbcEncrypted(c, iv, m)| == Whole(|m|) == Whole(Whole(|m|))
    ensures CbcDecrypted(c, iv, CbcEncrypted(c, iv, m), Whole(|m|)) == m[..|m| - Mistaken(m)]
    decreases |m|
  {
    EncryptedLength(c, iv, m);
    if |m| <= BLOCK {
      LastBlock(c, iv, m);
    } else {
      var first, rest: Bytes := m[..BLOCK], m[BLOCK..];
      var b := c.enc(Added(iv, first));
      DecryptedEncrypted(c, b, rest);
      LongBack(c, iv, m, first, rest, b);
    }
  }

  lemma {:induction false} LongBack(c: Pair, iv: State, m: Bytes, first: State, rest: Bytes, b: State)
    requires Inverse(c) && |m| > BLOCK && m == first + rest && b == c.enc(Added(iv, first))
    requires |CbcEncrypted(c, b, rest)| == Whole(|rest|) == Whole(Whole(|rest|))
    requires CbcDecrypted(c, b, CbcEncrypted(c, b, rest), Whole(|rest|)) == rest[..|rest| - Mistaken(rest)]
    ensures |CbcEncrypted(c, iv, m)| == Whole(|m|) == Whole(Whole(|m|))
    ensures CbcDecrypted(c, iv, CbcEncrypted(c, iv, m), Whole(|m|)) == m[..|m| - Mistaken(m)]
  {
    assert m[..BLOCK] == first && m[BLOCK..] == rest;
    EncryptedLength(c, iv, m);
    WholeStep(|m|);
    FirstApart(c, iv, m, b);
    DecryptFirst(c, iv, CbcEncrypted(c, iv, m), Whole(|m|), b, CbcEncrypted(c, b, rest));
    FirstBack(c, iv, first, b);
    MistakenRest(m);
    Rejoined(m, first, rest, Mistaken(m));
  }

  lemma {:induction false} WholeStep(length: nat)
    requires length > BLOCK
    ensures Whole(length) - BLOCK == Whole(length - BLOCK) && Whole(length) > BLOCK
  {
  }

  lemma {:induction false} DecryptFirst(c: Pair, iv: State, t: Bytes, length: nat, b: State, u: Bytes)
    requires length > BLOCK && |t| == Whole(length) && t[..BLOCK] == b && t[BLOCK..] == u
    ensures |u| == Whole(length - BLOCK)
    ensures CbcDecrypted(c, iv, t, length) == Added(c.dec(b), iv) + CbcDecrypted(c, b, u, length - BLOCK)
  {
  }

  lemma {:induction false} FirstBack(c: Pair, iv: State, first: State, b: State)
    requires Inverse(c) && b == c.enc(Added(iv, first))
    ensures Added(c.dec(b), iv) == first
  {
    AddedTwice(first, iv);
    assert c.dec(c.enc(Added(iv, first))) == Added(iv, first);
  }

  lemma {:induction false} Rejoined(m: Bytes, first: Bytes, rest: Bytes, n: nat)
    requires m == first + rest && n <= |rest|
    ensures m[..|m| - n] == first + rest[..|rest| - n]
  {
  }

  lemma {:induction false} LastBlock(c: Pair, iv: State, m: Bytes)
    requires Inverse(c) && 0 < |m| <= BLOCK
    ensures |CbcEncrypted(c, iv, m)| == BLOCK && Whole(BLOCK) == BLOCK
    ensures CbcDecrypted(c, iv, CbcEncrypted(c, iv, m), BLOCK) == m[..|m| - Mistaken(m)]
  {
    var b := Padded(m);
    AddedTwice(b, iv);
    assert Added(c.dec(c.enc(Added(iv, b))), iv) == b;
    if |m| < BLOCK {
      PaddedLength(m);
      assert m[..|m|] == m;
    } else {
      assert b == m && m[0..] == m;
    }
  }

  lemma {:induction false} MistakenRest(m: Bytes)
    requires |m| > BLOCK
    ensures Mistaken(m) == Mistaken(m[BLOCK..])
  {
    if |m| % BLOCK == 0 {
      assert m[BLOCK..][|m| - BLOCK - BLOCK..] == m[|m| - BLOCK..];
    }
  }

  /** A message comes back exactly when it is not aligned, or its last block does not itself parse as padding. */
  lemma {:induction false} RoundTripIff(c: Pair, iv: State, m: Bytes)
    requires Inverse(c) && m != []
    ensures |CbcEncrypted(c, iv, m)| == Whole(|m|) == Whole(Whole(|m|))
    ensures CbcDecrypted(c, iv, CbcEncrypted(c, iv, m), Whole(|m|)) == m
      <==> |m| % BLOCK != 0 || PaddingLength(m[|m| - BLOCK..]) == 0
  {
    DecryptedEncrypted(c, iv, m);
    assert m[..|m|] == m;
  }

  /** A message of one block that loses its last byte: sixteen ones. */
  lemma {:induction false} LostByte(c: Pair, iv: State, m: Bytes)
    requires Inverse(c) && m == seq(BLOCK, _ => 1)
    ensures |CbcEncrypted(c, iv, m)| == BLOCK && Whole(BLOCK) == BLOCK
    ensures CbcDecrypted(c, iv, CbcEncrypted(c, iv, m), BLOCK) == m[..BLOCK - 1]
  {
    LastBlock(c, iv, m);
    assert m[0..] == m && PaddingLength(m) == 1;
  }

  // ----- the counters

  function LittleNext(n: State): State {
    NextLittle(n)
  }

  function KeyBlock(c: Pair, n: State): (b: seq<int>)
    ensures Block(b)
  {
    c.enc(n)
  }

  /** Counter mode with the counter as little-endian bytes. */
  function LittleStream(c: Pair): Stream<State> {
    Stream((n: State) => KeyBlock(c, n), LittleNext, BLOCK)
  }

  lemma {:induction false} LittleSized(c: Pair)
    ensures Sized<State>(LittleStream(c))
  {
    forall n: State ensures |LittleStream(c).block(n)| == BLOCK && Below(LittleStream(c).block(n), 256) {
      assert LittleStream(c).block(n) == KeyBlock(c, n);
    }
  }

  ghost function LittleCrypt(c: Pair, n: State, m: Bytes): Bytes {
    LittleSized(c);
    Crypt<State>(LittleStream(c), n, m)
  }

  function LittleAfter(c: Pair, n: State, length: nat): State {
    After<State>(LittleStream(c), n, length)
  }

  lemma {:induction false} LittleFirst(c: Pair, n: State, m: Bytes, k: nat)
    requires k == if |m| < BLOCK then |m| else BLOCK
    ensures |LittleCrypt(c, n, m)| == |m|
    ensures LittleCrypt(c, n, m) == XorBytes(c.enc(n)[..k], m[..k]) + LittleCrypt(c, LittleNext(n), m[k..])
  {
    LittleSized(c);
    CryptFirst<State>(LittleStream(c), n, m, k);
  }

  lemma {:induction false} LittleAfterFirst(c: Pair, n: State, length: nat)
    requires length > 0
    ensures LittleAfter(c, n, length) == LittleAfter(c, LittleNext(n), if length < BLOCK then 0 else length - BLOCK)
    ensures LittleAfter(c, n, 0) == n
  {
  }

  lemma {:induction false} LittleLength(c: Pair, n: State, m: Bytes)
    ensures |LittleCrypt(c, n, m)| == |m|
  {
    LittleSized(c);
  }

  lemma {:induction false} LittleTwice(c: Pair, n: State, m: Bytes)
    ensures LittleCrypt(c, n, LittleCrypt(c, n, m)) == m
  {
    LittleSized(c);
    CryptTwice<State>(LittleStream(c), n, m);
  }

  /** The counter k steps on has the value k more, modulo 2^128. */
  lemma {:induction false} LittleLater(c: Pair, n: State, k: nat)
    ensures Value(Later<State>(LittleStream(c), n, k)) == (Value(n) + k) % Pow2(8 * |n|)
  {
    var v: State -> nat := (s: State) => Value(s);
    var m := Pow2(8 * |n|);
    forall s: State ensures v(s) < m && v(LittleStream(c).next(s)) == (v(s) + 1) % m {
      assert |s| == |n|;
      NextLittleValue(s);
    }
    CountLater<State>(LittleStream(c), v, n, k, m);
  }

  /**
    Byte r of block k is added to byte r of the encrypted counter, and that counter is nonce + k as a
    number of 16 bytes.
   */
  lemma {:induction false} LittleByte(c: Pair, n: State, m: Bytes, k: nat, r: nat, j: nat) returns (b: State)
    requires r < BLOCK && j == k * BLOCK + r && j < |m|
    ensures Value(b) == (Value(n) + k) % Pow2(8 * |n|)
    ensures |LittleCrypt(c, n, m)| == |m| && LittleCrypt(c, n, m)[j] == Xor(c.enc(b)[r], m[j])
  {
    LittleSized(c);
    b := Later<State>(LittleStream(c), n, k);
    LittleLater(c, n, k);
    CryptAt<State>(LittleStream(c), n, m, k, r, j);
    assert LittleStream(c).block(b) == KeyBlock(c, b);
  }

  /** After a text the counter has moved on by the k blocks that cover it. */
  lemma {:induction false} LittleAfterValue(c: Pair, n: State, length: nat) returns (k: nat)
    ensures length <= k * BLOCK < length + BLOCK
    ensures Value(LittleAfter(c, n, length)) == (Value(n) + k) % Pow2(8 * |n|)
  {
    k := BlockCount(length, BLOCK);
    BlockCountCovers(length, BLOCK);
    LittleLater(c, n, k);
  }

  // ----- the block functions of AES

  ghost function AesPair(keys: seq<nat>, rounds: nat): Pair
    requires rounds > 0
  {
    AesPartsUndoing();
    Pair((s: State) => AesEncrypted(keys, rounds, s), (s: State) => AesDecrypted(keys, rounds, s))
  }

  lemma {:induction false} AesInverse(keys: seq<nat>, rounds: nat)
    requires rounds > 0
    ensures Inverse(AesPair(keys, rounds))
  {
    var c := AesPair(keys, rounds);
    forall b: State ensures c.dec(c.enc(b)) == b {
      DecryptEncrypt(b, keys, rounds);
    }
  }

  // ----- in place

  /** The cipher state of the modes: the block functions under the key, and the nonce. */
  class Modes {
    const c: Pair
    const nonce: array<int>

    ghost predicate Valid()
      reads nonce
    {
      Block(nonce[..])
    }

    constructor (p: Pair, n: State)
      ensures Valid() && fresh(nonce) && c == p && nonce[..] == n
    {
      c := p;
      nonce := new int[BLOCK](i requires 0 <= i < BLOCK => n[i]);
    }

    /** Copies a block behind the first at bytes of the target. */
    method Put(target: array<int>, at: nat, b: Bytes)
      requires at + |b| <= target.Length
      modifies target
      ensures target[..at + |b|] == old(target[..at]) + b
    {
      forall j | 0 <= j < |b| { target[at + j] := b[j]; }
    }

    method SetNonce(b: State)
      requires Valid()
      modifies nonce
      ensures Valid() && nonce[..] == b
    {
      forall j | 0 <= j < BLOCK { nonce[j] := b[j]; }
    }

    method CbcEncryptBlock(output: array<int>, at: nat, input: State)
      requires Valid() && output != nonce && at + BLOCK <= output.Length
      modifies output, nonce
      ensures Valid() && nonce[..] == c.enc(Added(old(nonce[..]), input))
      ensures output[..at + BLOCK] == old(output[..at]) + c.enc(Added(old(nonce[..]), input))
    {
      ghost var was: State := nonce[..];
      for i := 0 to BLOCK
        invariant nonce.Length == BLOCK && output[..at] == old(output[..at])
        invariant forall j :: 0 <= j < BLOCK ==> nonce[j] == if j < i then Added(was, input)[j] else was[j]
      {
        XorBytesAt(was, input, i);
        nonce[i] := Xor(nonce[i], input[i]);
      }
      assert nonce[..] == Added(was, input);
      Put(output, at, c.enc(nonce[..]));
      SetNonce(c.enc(nonce[..]));
    }

    /** The block is decrypted, the nonce added, and the block itself becomes the nonce. */
    method CbcDecryptBlock(input: State) returns (b: State)
      requires Valid()
      modifies nonce
      ensures Valid() && nonce[..] == input && b == Added(c.dec(input), old(nonce[..]))
    {
      b := Added(c.dec(input), nonce[..]);
      SetNonce(input);
    }

    method CbcEncryptNext(output: array<int>, at: nat, rest: Bytes)
      requires Valid() && output != nonce && |rest| > BLOCK && at + BLOCK <= output.Length
      modifies output, nonce
      ensures Valid()
      ensures output[..at + BLOCK] + CbcEncrypted(c, nonce[..], rest[BLOCK..])
        == old(output[..at] + CbcEncrypted(c, nonce[..], rest))
      ensures Chained(c, nonce[..], rest[BLOCK..]) == old(Chained(c, nonce[..], rest))
      ensures BLOCK + |CbcEncrypted(c, nonce[..], rest[BLOCK..])| == old(|CbcEncrypted(c, nonce[..], rest)|)
    {
      CbcEncryptBlock(output, at, rest[..BLOCK]);
    }

    method CbcEncrypt(output: array<int>, input: Bytes)
      requires Valid() && output != nonce && |CbcEncrypted(c, nonce[..], input)| <= output.Length
      modifies output, nonce
      ensures Valid() && nonce[..] == Chained(c, old(nonce[..]), input)
      ensures var t := CbcEncrypted(c, old(nonce[..]), input); output[..|t|] == t
    {
      ghost var iv: State := nonce[..];
      ghost var t := CbcEncrypted(c, iv, input);
      var at: nat, rest: Bytes := 0, input;
      while |rest| > BLOCK
        invariant Valid() && 0 <= at && at + |CbcEncrypted(c, nonce[..], rest)| == |t| <= output.Length
        invariant output[..at] + CbcEncrypted(c, nonce[..], rest) == t
          && Chained(c, nonce[..], rest) == Chained(c, iv, input)
        decreases |rest|
      {
        CbcEncryptNext(output, at, rest);
        at, rest := at + BLOCK, rest[BLOCK..];
      }
      if rest != [] {
        CbcEncryptBlock(output, at, Padded(rest));
      }
    }

    method CbcDecryptNext(output: array<int>, at: nat, rest: Bytes, left: nat)
      requires Valid() && output != nonce && left > BLOCK && |rest| == Whole(left) && at + BLOCK <= output.Length
      modifies output, nonce
      ensures Valid()
      ensures output[..at + BLOCK] + CbcDecrypted(c, nonce[..], rest[BLOCK..], left - BLOCK)
        == old(output[..at] + CbcDecrypted(c, nonce[..], rest, left))
      ensures Unchained(nonce[..], rest[BLOCK..], left - BLOCK) == old(Unchained(nonce[..], rest, left))
    {
      ghost var before, iv: State := output[..at], nonce[..];
      var b := CbcDecryptBlock(rest[..BLOCK]);
      Put(output, at, b);
      Rebracket(before, b, CbcDecrypted(c, rest[..BLOCK], rest[BLOCK..], left - BLOCK));
    }

    method CbcDecryptLast(output: array<int>, at: nat, rest: Bytes, left: nat) returns (size: nat)
      requires Valid() && output != nonce && left <= BLOCK && |rest| == Whole(left) && at + BLOCK <= output.Length
      modifies output, nonce
      ensures Valid() && at <= size <= output.Length && nonce[..] == Unchained(old(nonce[..]), rest, left)
      ensures output[..size] == old(output[..at] + CbcDecrypted(c, nonce[..], rest, left))
    {
      var b := CbcDecryptBlock(rest);
      var n := PaddingLength(b);
      Put(output, at, b[..BLOCK - n]);
      size := at + (BLOCK - n);
    }

    method CbcDecrypt(output: array<int>, input: Bytes, length: nat) returns (size: nat)
      requires Valid() && output != nonce && |input| == Whole(length) && |input| <= output.Length
      modifies output, nonce
      ensures Valid() && nonce[..] == Unchained(old(nonce[..]), input, length)
      ensures var m := CbcDecrypted(c, old(nonce[..]), input, length);
        size == |m| && size <= output.Length && output[..size] == m
    {
      ghost var iv: State := nonce[..];
      ghost var m := CbcDecrypted(c, iv, input, length);
      var at: nat, rest: Bytes, left: nat := 0, input, length;
      while left > BLOCK
        invariant Valid() && |rest| == Whole(left) && at + |rest| == |input|
        invariant output[..at] + CbcDecrypted(c, nonce[..], rest, left) == m
        invariant Unchained(nonce[..], rest, left) == Unchained(iv, input, length)
        decreases left
      {
        CbcDecryptNext(output, at, rest, left);
        at, rest, left := at + BLOCK, rest[BLOCK..], left - BLOCK;
      }
      size := CbcDecryptLast(output, at, rest, left);
    }

    /** One block of the stream, or its first bytes, added to the input. */
    method CtrBlock(output: array<int>, at: nat, input: Bytes)
      requires Valid() && output != nonce && |input| <= BLOCK && at + |input| <= output.Length
      modifies output
      ensures output[..at + |input|] == old(output[..at]) + XorBytes(c.enc(nonce[..])[..|input|], input)
    {
      var key: Bytes := c.enc(nonce[..])[..|input|];
      ghost var was := output[..at];
      Put(output, at, key);
      AddBytes(output, at, was, key, input);
    }

    /** Adds the input to the bytes of the stream that the output holds from place at on. */
    method AddBytes(output: array<int>, at: nat, ghost was: seq<int>, ghost key: Bytes, input: Bytes)
      requires |was| == at && |key| == |input| && at + |input| <= output.Length
      requires output[..at + |input|] == was + key
      modifies output
      ensures output[..at + |input|] == was + XorBytes(key, input)
    {
      ghost var sum := XorBytes(key, input);
      assert output[..at] == output[..at + |input|][..at] == was;
      forall j | 0 <= j < |input| ensures output[at + j] == key[j] {
        assert output[..at + |input|][at + j] == (was + key)[at + j];
      }
      for i := 0 to |input|
        invariant output[..at] == was
        invariant forall j :: 0 <= j < i ==> output[at + j] == sum[j]
        invariant forall j :: i <= j < |input| ==> output[at + j] == key[j]
      {
        XorBytesAt(key, input, i);
        output[at + i] := Xor(output[at + i], input[i]);
      }
      assert output[..at + |input|] == was + sum;
    }

    /** One block, or the cut last block, and one step of the counter. */
    method CtrLittleNext(output: array<int>, at: nat, input: Bytes, k: nat)
      requires Valid() && output != nonce && 0 < |input| && at + |input| <= output.Length
      requires k == if |input| < BLOCK then |input| else BLOCK
      modifies output, nonce
      ensures Valid() && nonce[..] == LittleNext(old(nonce[..]))
      ensures output[..at + k] + LittleCrypt(c, nonce[..], input[k..])
        == old(output[..at]) + LittleCrypt(c, old(nonce[..]), input)
    {
      ghost var n: State, before := nonce[..], output[..at];
      ghost var piece := XorBytes(c.enc(n)[..k], input[..k]);
      LittleFirst(c, n, input, k);
      CtrBlock(output, at, input[..k]);
      LeIncrement(nonce);
      Rebracket(before, piece, LittleCrypt(c, LittleNext(n), input[k..]));
    }

    method CtrLittle(output: array<int>, input: Bytes)
      requires Valid() && output != nonce && |input| <= output.Length
      modifies output, nonce
      ensures Valid() && output[..|input|] == LittleCrypt(c, old(nonce[..]), input)
      ensures nonce[..] == LittleAfter(c, old(nonce[..]), |input|)
    {
      ghost var n: State := nonce[..];
      var at, rest := 0, input;
      while |rest| >= BLOCK
        invariant Valid() && 0 <= at && at + |rest| == |input|
        invariant output[..at] + LittleCrypt(c, nonce[..], rest) == LittleCrypt(c, n, input)
        invariant LittleAfter(c, nonce[..], |rest|) == LittleAfter(c, n, |input|)
        decreases |rest|
      {
        LittleAfterFirst(c, nonce[..], |rest|);
        CtrLittleNext(output, at, rest, BLOCK);
        at, rest := at + BLOCK, rest[BLOCK..];
      }
      CtrLittleLast(output, at, rest);
    }

    /** The rest of less than a block, if there is one. */
    method CtrLittleLast(output: array<int>, at: nat, input: Bytes)
      requires Valid() && output != nonce && |input| < BLOCK && at + |input| <= output.Length
      modifies output, nonce
      ensures Valid() && nonce[..] == LittleAfter(c, old(nonce[..]), |input|)
      ensures output[..at + |input|] == old(output[..at]) + LittleCrypt(c, old(nonce[..]), input)
    {
      if input != [] {
        LittleAfterFirst(c, nonce[..], |input|);
        CtrLittleNext(output, at, input, |input|);
        assert LittleCrypt(c, nonce[..], input[|input|..]) == [];
      }
    }
  }
}
