/** CSX-512, scalar path: a stream of 128-byte blocks numbered by two state words, authenticated with KMAC. */
module Csx {
  import opened ModArith
  import opened BitPacking
  import opened BitXor
  import opened PolyPacking
  import opened ScalarDigits
  import opened CounterStreams
  import opened AeadRuns
  import ByteTools

  const MAC_SIZE := 64
  const BLOCK_SIZE := 128
  const WORD := 0x1_0000_0000_0000_0000    // 2^64

  /** State words 12 and 13, the nonce and counter. */
  datatype Words = Words(lo: nat, hi: nat)

  type Counter = w: Words | w.lo < WORD && w.hi < WORD witness Words(0, 0)

  /** The increment of the source: the second word takes the carry. */
  function Increment(w: Counter): Counter {
    var lo := (w.lo + 1) % WORD;
    Words(lo, if lo == 0 then (w.hi + 1) % WORD else w.hi)
  }

  function Number(w: Counter): nat {
    w.lo + WORD * w.hi
  }

  /** The two words count as one number of 128 bits. */
  lemma {:induction false} IncrementCounts(w: Counter)
    ensures Number(w) < WORD * WORD && Number(Increment(w)) == (Number(w) + 1) % (WORD * WORD)
  {
    if w.lo + 1 < WORD {
      KeepMod(Number(w) + 1, WORD * WORD);
    } else if w.hi + 1 < WORD {
      KeepMod(Number(w) + 1, WORD * WORD);
    } else {
      assert Number(w) + 1 == WORD * WORD;
    }
  }

  /** The permutation under the key words, a block for every counter, and the MAC as functions of its state. */
  datatype Oracles<!K> = Oracles(block: Counter -> seq<int>, update: (K, Bytes) -> K, code: K -> (Bytes, K))

  ghost predicate OraclesFit<K(!new)>(o: Oracles<K>) {
    && (forall w :: |o.block(w)| == BLOCK_SIZE && Below(o.block(w), 256))
    && (forall k :: |o.code(k).0| == MAC_SIZE)
  }

  function Blocks<K>(o: Oracles<K>): Stream<Counter> {
    Stream(o.block, Increment, BLOCK_SIZE)
  }

  ghost function CsxCrypt<K(!new)>(o: Oracles<K>, w: Counter, m: Bytes): Bytes
    requires OraclesFit(o)
  {
    Crypt<Counter>(Blocks(o), w, m)
  }

  function CsxAfter<K>(o: Oracles<K>, w: Counter, length: nat): Counter {
    After<Counter>(Blocks(o), w, length)
  }

  lemma {:induction false} CsxTwice<K(!new)>(o: Oracles<K>, w: Counter, m: Bytes)
    requires OraclesFit(o)
    ensures |CsxCrypt(o, w, m)| == |m| && CsxCrypt(o, w, CsxCrypt(o, w, m)) == m
  {
    CryptTwice<Counter>(Blocks(o), w, m);
  }

  /** Byte r of block k is added to byte r of the block of a counter that is k higher, modulo 2^128. */
  lemma {:induction false} CsxByte<K(!new)>(o: Oracles<K>, w: Counter, m: Bytes, k: nat, r: nat,
      j: nat) returns (v: Counter)
    requires OraclesFit(o) && r < BLOCK_SIZE && j == k * BLOCK_SIZE + r && j < |m|
    ensures Number(v) == (Number(w) + k) % (WORD * WORD)
    ensures |CsxCrypt(o, w, m)| == |m| && CsxCrypt(o, w, m)[j] == Xor(o.block(v)[r], m[j])
  {
    v := Later<Counter>(Blocks(o), w, k);
    CryptAt<Counter>(Blocks(o), w, m, k, r, j);
    var number: Counter -> nat := (x: Counter) => Number(x);
    forall x: Counter ensures number(x) < WORD * WORD && number(Blocks(o).next(x)) == (number(x) + 1) % (WORD * WORD) {
      IncrementCounts(x);
    }
    CountLater<Counter>(Blocks(o), number, w, k, WORD * WORD);
  }

  /** After a text the counter has moved on by the k blocks that cover it. */
  lemma {:induction false} CsxAfterNumber<K(!new)>(o: Oracles<K>, w: Counter, length: nat) returns (k: nat)
    requires OraclesFit(o)
    ensures length <= k * BLOCK_SIZE < length + BLOCK_SIZE
    ensures Number(CsxAfter(o, w, length)) == (Number(w) + k) % (WORD * WORD)
  {
    k := BlockCount(length, BLOCK_SIZE);
    BlockCountCovers(length, BLOCK_SIZE);
    var number: Counter -> nat := (x: Counter) => Number(x);
    forall x: Counter ensures number(x) < WORD * WORD && number(Blocks(o).next(x)) == (number(x) + 1) % (WORD * WORD) {
      IncrementCounts(x);
    }
    CountLater<Counter>(Blocks(o), number, w, k, WORD * WORD);
  }

  // ----- the MAC

  datatype MacSide<K> = MacSide(k: K, counter: nat)

  /** The nonce as bytes. */
  function NonceBytes(w: Counter): Bytes {
    ToBytes(w.lo, 8) + ToBytes(w.hi, 8)
  }

  /** y shifted by n bytes. */
  function Raised(y: nat, n: nat): nat {
    if n == 0 then y else 256 * Raised(y, n - 1)
  }

  lemma {:induction false} LowByteOfSum(x: nat, r: nat)
    ensures (x + 256 * r) % 256 == x % 256 && (x + 256 * r) / 256 == x / 256 + r
  {
  }

  lemma {:induction false} ToBytesFirst(x: nat, n: nat, h: nat, k: nat)
    requires n == k + 1 && h == x / 256
    ensures ToBytes(x, n) == [x % 256] + ToBytes(h, k)
  {
  }

  lemma {:induction false} PutInFront(b: int, s: seq<int>, t: seq<int>)
    ensures ([b] + s) + t == [b] + (s + t)
  {
  }

  /** The bytes of x and those of y behind them. */
  lemma {:induction false} ToBytesJoin(x: nat, y: nat, z: nat, n: nat, m: nat)
    requires x < Raised(1, n) && z == x + Raised(y, n)
    ensures ToBytes(x, n) + ToBytes(y, m) == ToBytes(z, n + m)
    decreases n
  {
    if n == 0 {
      assert ToBytes(x, n) == [];
    } else {
      var g, h, k := x / 256, z / 256, n - 1;
      LowByteOfSum(x, Raised(y, k));
      ToBytesJoin(g, y, h, k, m);
      ToBytesFirst(x, n, g, k);
      ToBytesFirst(z, n + m, h, k + m);
      PutInFront(x % 256, ToBytes(g, k), ToBytes(y, m));
    }
  }

  lemma {:induction false} RaisedWord(y: nat, n: nat)
    requires n == 8
    ensures Raised(y, n) == WORD * y
  {
    assert Raised(y, n - 7) == 0x100 * y;
    assert Raised(y, n - 6) == 0x1_0000 * y;
    assert Raised(y, n - 5) == 0x100_0000 * y;
    assert Raised(y, n - 4) == 0x1_0000_0000 * y;
    assert Raised(y, n - 3) == 0x100_0000_0000 * y;
    assert Raised(y, n - 2) == 0x1_0000_0000_0000 * y;
    assert Raised(y, n - 1) == 0x100_0000_0000_0000 * y;
  }

  /** They are the counter in sixteen bytes, least significant first. */
  lemma {:induction false} NonceBytesAre(w: Counter, n: nat)
    requires n == 8
    ensures NonceBytes(w) == ToBytes(Number(w), 2 * n)
  {
    RaisedWord(1, n);
    RaisedWord(w.hi, n);
    ToBytesJoin(w.lo, w.hi, Number(w), n, n);
  }

  function Started<K>(o: Oracles<K>, a: MacSide<K>, w: Counter, length: nat): MacSide<K> {
    MacSide(o.update(a.k, NonceBytes(w)), (a.counter + length) % WORD)
  }

  function Absorbed<K>(o: Oracles<K>, a: MacSide<K>, c: Bytes): MacSide<K> {
    MacSide(o.update(a.k, c), a.counter)
  }

  function AssociatedData<K>(o: Oracles<K>, a: MacSide<K>, data: Bytes): MacSide<K> {
    if data == [] then a else Absorbed(o, Absorbed(o, a, data), ToBytes(|data| % 0x1_0000_0000, 4))
  }

  /** The counter goes into the reduced-round MAC twice before the code is made. */
  function Finished<K>(o: Oracles<K>, a: MacSide<K>): (r: (Bytes, MacSide<K>)) {
    var b := Absorbed(o, Absorbed(o, a, ToBytes(a.counter, 8)), ToBytes(a.counter, 8));
    (o.code(b.k).0, MacSide(o.code(b.k).1, a.counter))
  }

  ghost function CsxAead<K(!new)>(o: Oracles<K>): Aead<Counter, MacSide<K>>
    requires OraclesFit(o)
  {
    Aead((w: Counter, m: Bytes) requires OraclesFit(o) => CsxCrypt(o, w, m),
      (w: Counter, length: nat) => CsxAfter(o, w, length),
      (a: MacSide<K>, w: Counter, length: nat) => Started(o, a, w, length),
      (a: MacSide<K>, m: Bytes) => Absorbed(o, a, m),
      (a: MacSide<K>, data: Bytes) => AssociatedData(o, a, data),
      (a: MacSide<K>) => Finished(o, a))
  }

  /**
    Whatever is sent, in messages of one text or of many, the receiver recovers, and the two states
    differ in the mode flag only.
   */
  lemma {:induction false} CsxLockstep<K(!new)>(o: Oracles<K>, e: Side<Counter, MacSide<K>>,
      d: Side<Counter, MacSide<K>>, calls: seq<Call>)
    requires OraclesFit(o) && Paired(e, d)
    ensures var p := CsxAead(o);
      var (t, wires) := Send(p, e, calls); var (u, outs) := Receive(p, d, calls, wires);
      outs == Texts(calls) && Paired(t, u)
  {
    CsxSound(o);
    Lockstep(CsxAead(o), e, d, calls);
  }

  lemma {:induction false} CsxSound<K(!new)>(o: Oracles<K>)
    requires OraclesFit(o)
    ensures Sound(CsxAead(o))
  {
    var p := CsxAead(o);
    forall w: Counter, m: Bytes ensures |p.crypt(w, m)| == |m| && p.crypt(w, p.crypt(w, m)) == m {
      CsxTwice(o, w, m);
    }
  }

  // ----- after a refusal

  /** What a refused text makes of the MAC. */
  function Moved<K>(o: Oracles<K>, a: MacSide<K>, w: Counter, c: Bytes): MacSide<K> {
    Finished(o, Absorbed(o, Started(o, a, w, |c|), c)).1
  }

  /**
    The two states are still paired after a refusal exactly when the length is a multiple of 2^64 and the
    MAC has come back to the state it had.
   */
  lemma {:induction false} PairedAfterRefusalIff<K(!new)>(o: Oracles<K>, e: Side<Counter, MacSide<K>>,
      d: Side<Counter, MacSide<K>>, length: nat, wire: Bytes)
    requires OraclesFit(o) && Paired(e, d) && d.a.counter < WORD && length <= |wire|
    requires Decrypt(CsxAead(o), d, length, wire, true).1 == Refused
    ensures Paired(e, Decrypt(CsxAead(o), d, length, wire, true).0)
      <==> length % WORD == 0 && Moved(o, d.a, d.n, wire[..length]).k == d.a.k
  {
    var p := CsxAead(o);
    assert Decrypt(p, d, length, wire, true).0.a == Moved(o, d.a, d.n, wire[..length]);
    assert Moved(o, d.a, d.n, wire[..length]).counter == (d.a.counter + length) % WORD;
    CounterStays(d.a.counter, length, WORD);
  }

  /** A MAC that counts: its state is how much it has absorbed, its code that number. */
  function Counting(block: Counter -> seq<int>): Oracles<int> {
    Oracles(block, (k: int, b: Bytes) => k + |b| + 1, (k: int) => (Numbered(k), k))
  }

  function Numbered(k: int): (b: Bytes)
    ensures |b| == MAC_SIZE
  {
    ToBytes(if k < 0 then 0 else k, MAC_SIZE)
  }

  lemma {:induction false} NumberedApart(j: nat, k: nat)
    requires j % 256 != k % 256
    ensures Numbered(j) != Numbered(k)
  {
    assert Numbered(j)[0] == j % 256 && Numbered(k)[0] == k % 256;
  }

  /** An empty text moves it on by 36: the nonce, the text, twice the counter, and one for each. */
  lemma {:induction false} CountingMoves(block: Counter -> seq<int>, s: Side<Counter, MacSide<int>>)
    requires OraclesFit(Counting(block)) && s.a.counter < WORD
    ensures AeadRuns.Coded(CsxAead(Counting(block)), s, [], true)
      == (Numbered(s.a.k + 36), MacSide(s.a.k + 36, s.a.counter))
  {
    assert Started(Counting(block), s.a, s.n, 0) == MacSide(s.a.k + 17, s.a.counter);
    assert Absorbed(Counting(block), MacSide(s.a.k + 17, s.a.counter), []) == MacSide(s.a.k + 18, s.a.counter);
  }

  /** With it, one refused empty text makes the receiver refuse the sender's next genuine text. */
  lemma {:induction false} GenuineTextRefused(block: Counter -> seq<int>, e: Side<Counter, MacSide<int>>,
      d: Side<Counter, MacSide<int>>)
    requires OraclesFit(Counting(block)) && Paired(e, d) && e.a == MacSide(0, 0)
    ensures var p := CsxAead(Counting(block));
      var (d', out) := Decrypt(p, d, 0, Numbered(0), true);
      out == Refused && Decrypt(p, d', 0, Encrypt(p, e, [], true).1, true).1 == Refused
  {
    var p := CsxAead(Counting(block));
    var d' := Side(d.n, MacSide(36, 0), false);
    CountingMoves(block, d);
    CountingMoves(block, e);
    CountingMoves(block, d');
    NumberedApart(0, 36);
    NumberedApart(36, 72);
    CsxSound(Counting(block));
    assert p.crypt(e.n, []) == [];
    assert Numbered(0)[..0] == [] && Numbered(0)[0..] == Numbered(0);
    AfterRefusal(p, e, d, 0, Numbered(0), []);
  }

  // ----- what a code binds

  /** A MAC that keeps a list of what it absorbed, and whose codes differ when the lists differ. */
  ghost predicate Records(o: Oracles<seq<Bytes>>) {
    && (forall k, b :: o.update(k, b) == k + [b])
    && forall k, l :: o.code(k).0 == o.code(l).0 ==> k == l
  }

  /** Associated data enters the list with its length; no data leaves it as it was. */
  lemma {:induction false} AssociatedIs(o: Oracles<seq<Bytes>>, a: MacSide<seq<Bytes>>, data: Bytes)
    requires Records(o)
    ensures AssociatedData(o, a, data).k
      == if data == [] then a.k else a.k + [data, ToBytes(|data| % 0x1_0000_0000, 4)]
  {
    var size := ToBytes(|data| % 0x1_0000_0000, 4);
    assert (a.k + [data]) + [size] == a.k + [data, size];
  }

  lemma {:induction false} FinishedIs(o: Oracles<seq<Bytes>>, a: MacSide<seq<Bytes>>, size: Bytes)
    requires Records(o) && size == ToBytes(a.counter, 8)
    ensures Finished(o, a).0 == o.code(a.k + [size, size]).0
  {
    assert (a.k + [size]) + [size] == a.k + [size, size];
  }

  lemma {:induction false} TextAbsorbed(o: Oracles<seq<Bytes>>, a: MacSide<seq<Bytes>>, w: Counter, text: Bytes)
    requires Records(o)
    ensures Absorbed(o, Started(o, a, w, |text|), text)
      == MacSide(a.k + [NonceBytes(w), text], (a.counter + |text|) % WORD)
  {
    assert (a.k + [NonceBytes(w)]) + [text] == a.k + [NonceBytes(w), text];
  }

  /** The code of a text is made from the list so far, the nonce, the text, and twice the bytes processed. */
  lemma {:induction false} CodeIs(o: Oracles<seq<Bytes>>, s: Side<Counter, MacSide<seq<Bytes>>>, text: Bytes)
    requires OraclesFit(o) && Records(o)
    ensures var size := ToBytes((s.a.counter + |text|) % WORD, 8);
      AeadRuns.Coded(CsxAead(o), s, text, true).0 == o.code(s.a.k + [NonceBytes(s.n), text, size, size]).0
  {
    var size := ToBytes((s.a.counter + |text|) % WORD, 8);
    TextAbsorbed(o, s.a, s.n, text);
    FinishedIs(o, Absorbed(o, Started(o, s.a, s.n, |text|), text), size);
    assert (s.a.k + [NonceBytes(s.n), text]) + [size, size] == s.a.k + [NonceBytes(s.n), text, size, size];
  }

  lemma {:induction false} FourMore(k: seq<Bytes>, l: seq<Bytes>, a: Bytes, b: Bytes, c: Bytes, x: Bytes, y: Bytes,
      z: Bytes)
    requires k + [a, b, c, c] == l + [x, y, z, z]
    ensures k == l && a == x && b == y && c == z
  {
    var s, t := k + [a, b, c, c], l + [x, y, z, z];
    assert |k| == |l|;
    assert s[..|k|] == k && t[..|l|] == l;
    assert s[|k|] == a && s[|k| + 1] == b && s[|k| + 2] == c;
    assert t[|l|] == x && t[|l| + 1] == y && t[|l| + 2] == z;
  }

  /**
    A text that is accepted under the code of another one is that other one: same cipher text, same nonce, and the same
    history of texts and associated data.
   */
  lemma {:induction false} CodeBinds(o: Oracles<seq<Bytes>>, e: Side<Counter, MacSide<seq<Bytes>>>,
      d: Side<Counter, MacSide<seq<Bytes>>>, text: Bytes, length: nat, wire: Bytes)
    requires OraclesFit(o) && Records(o) && length <= |wire|
    requires wire[length..] == AeadRuns.Coded(CsxAead(o), e, text, true).0
    requires Decrypt(CsxAead(o), d, length, wire, true).1.Done?
    ensures wire[..length] == text && NonceBytes(d.n) == NonceBytes(e.n) && d.a.k == e.a.k
  {
    CodeIs(o, e, text);
    CodeIs(o, d, wire[..length]);
    FourMore(e.a.k, d.a.k, NonceBytes(e.n), text, ToBytes((e.a.counter + |text|) % WORD, 8),
      NonceBytes(d.n), wire[..length], ToBytes((d.a.counter + |wire[..length]|) % WORD, 8));
  }

  // ----- in place

  /** The state of the source: the words that count, the MAC, and the mode flag. */
  class State<K(!new)> {
    const o: Oracles<K>
    const encrypt: bool
    var w: Counter
    var k: K
    var counter: nat

    ghost predicate Valid()
      reads this
    {
      OraclesFit(o) && counter < WORD
    }

    ghost function Now(): Side<Counter, MacSide<K>>
      reads this
    {
      Side(w, MacSide(k, counter), encrypt)
    }

    constructor (o: Oracles<K>, w: Counter, k: K, encrypt: bool)
      requires OraclesFit(o)
      ensures Valid() && this.o == o && Now() == Side(w, MacSide(k, 0), encrypt)
    {
      this.o, this.encrypt, this.w, this.k, this.counter := o, encrypt, w, k, 0;
    }

    method SetAssociated(data: Bytes)
      requires Valid()
      modifies this
      ensures Valid() && Now() == Associated(CsxAead(o), old(Now()), data)
    {
      if data != [] {
        k := o.update(k, data);
        k := o.update(k, ToBytes(|data| % 0x1_0000_0000, 4));
      }
    }

    /** One block of the stream, or its first bytes, added to the input; one step of the counter. */
    method CryptNext(output: array<int>, at: nat, input: Bytes, n: nat)
      requires Valid() && 0 < |input| && at + |input| <= output.Length && n == if |input| < BLOCK_SIZE then |input|
        else BLOCK_SIZE
      modifies this`w, output
      ensures w == Increment(old(w))
      ensures output[..at + n] + CsxCrypt(o, w, input[n..]) == old(output[..at]) + CsxCrypt(o, old(w), input)
    {
      ghost var before, v := output[..at], w;
      CryptFirst<Counter>(Blocks(o), v, input, n);
      var block: Bytes := o.block(w)[..n];
      Combine(output, at, block, input[..n]);
      w := Increment(w);
      Rebracket(before, XorBytes(block, input[..n]), CsxCrypt(o, w, input[n..]));
    }

    /** The block and the input, added byte by byte. */
    method Combine(output: array<int>, at: nat, block: Bytes, input: Bytes)
      requires |block| == |input| && at + |input| <= output.Length
      modifies output
      ensures output[..at + |input|] == old(output[..at]) + XorBytes(block, input)
    {
      ghost var was, sum := output[..at], XorBytes(block, input);
      for i := 0 to |input|
        invariant output[..at] == was && forall j :: 0 <= j < i ==> output[at + j] == sum[j]
      {
        XorBytesAt(block, input, i);
        output[at + i] := Xor(block[i], input[i]);
      }
      assert output[..at + |input|] == was + sum;
    }

    method Stream(output: array<int>, input: Bytes)
      requires Valid() && |input| <= output.Length
      modifies this`w, output
      ensures output[..|input|] == CsxCrypt(o, old(w), input) && w == CsxAfter(o, old(w), |input|)
    {
      ghost var v := w;
      var at, rest := 0, input;
      while |rest| >= BLOCK_SIZE
        invariant 0 <= at && at + |rest| == |input|
        invariant output[..at] + CsxCrypt(o, w, rest) == CsxCrypt(o, v, input)
        invariant CsxAfter(o, w, |rest|) == CsxAfter(o, v, |input|)
        decreases |rest|
      {
        AfterBlock<Counter>(Blocks(o), w, |rest|);
        CryptNext(output, at, rest, BLOCK_SIZE);
        at, rest := at + BLOCK_SIZE, rest[BLOCK_SIZE..];
      }
      if rest != [] {
        CryptLast(output, at, rest);
      }
    }

    method CryptLast(output: array<int>, at: nat, input: Bytes)
      requires Valid() && 0 < |input| < BLOCK_SIZE && at + |input| <= output.Length
      modifies this`w, output
      ensures output[..at + |input|] == old(output[..at]) + CsxCrypt(o, old(w), input)
        && w == CsxAfter(o, old(w), |input|)
    {
      AfterBlock<Counter>(Blocks(o), w, |input|);
      CryptNext(output, at, input, |input|);
      assert CsxCrypt(o, w, input[|input|..]) == [];
    }

    method Finalize() returns (code: Bytes)
      requires Valid()
      modifies this
      ensures Valid() && |code| == MAC_SIZE && w == old(w)
      ensures (code, MacSide(k, counter)) == Finished(o, old(MacSide(k, counter)))
    {
      k := o.update(k, ToBytes(counter, 8));
      k := o.update(k, ToBytes(counter, 8));
      code, k := o.code(k).0, o.code(k).1;
    }

    method Begin(length: nat)
      requires Valid()
      modifies this
      ensures Valid() && w == old(w) && MacSide(k, counter) == Started(o, old(MacSide(k, counter)), w, length)
    {
      counter := (counter + length) % WORD;
      k := o.update(k, NonceBytes(w));
    }

    method Seal(output: array<int>, input: Bytes, final: bool)
      requires Valid() && encrypt && |input| + MAC_SIZE <= output.Length
      modifies this, output
      ensures Valid() && var (s, wire) := Encrypt(CsxAead(o), old(Now()), input, final);
        Now() == s && |wire| == |input| + (if final then MAC_SIZE else 0) && output[..|wire|] == wire
    {
      Begin(|input|);
      Stream(output, input);
      k := o.update(k, output[..|input|]);
      if final {
        var code := Finalize();
        Put(output, |input|, code);
      }
    }

    method Put(output: array<int>, at: nat, b: Bytes)
      requires at + |b| <= output.Length
      modifies output
      ensures output[..at + |b|] == old(output[..at]) + b
    {
      forall j | 0 <= j < |b| { output[at + j] := b[j]; }
    }

    method Unseal(output: array<int>, input: Bytes, length: nat, final: bool) returns (res: bool)
      requires Valid() && !encrypt && length <= output.Length && |input| == length + if final then MAC_SIZE else 0
      modifies this, output
      ensures Valid() && var (s, out) := Decrypt(CsxAead(o), old(Now()), length, input, final);
        && Now() == s && res == out.Done?
        && (if res then output[..length] == out.out else output[..] == old(output[..]))
    {
      Begin(length);
      k := o.update(k, input[..length]);
      res := true;
      if final {
        var code := Finalize();
        ByteTools.VerifyCompares(code, input[length..]);
        res := ByteTools.Verify(code, input[length..]) == 0;
      }
      if res {
        Stream(output, input[..length]);
      }
    }

    /** The extended call; the plain one is this one with final set. */
    method Transform(output: array<int>, input: Bytes, length: nat, final: bool) returns (res: bool)
      requires Valid() && length + (if encrypt then MAC_SIZE else 0) <= output.Length
      requires |input| == length + if encrypt || !final then 0 else MAC_SIZE
      modifies this, output
      ensures Valid()
      ensures encrypt ==> var (s, wire) := Encrypt(CsxAead(o), old(Now()), input, final);
        res && Now() == s && |wire| == length + (if final then MAC_SIZE else 0) && output[..|wire|] == wire
      ensures !encrypt ==> var (s, out) := Decrypt(CsxAead(o), old(Now()), length, input, final);
        && Now() == s && res == out.Done?
        && (if res then output[..length] == out.out else output[..] == old(output[..]))
    {
      if encrypt {
        Seal(output, input, final);
        res := true;
      } else {
        res := Unseal(output, input, length, final);
      }
    }
  }
}
