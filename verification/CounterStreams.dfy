/** Encryption by a stream of blocks made from a counter, for any counter and any way of making blocks. */
module CounterStreams {
  import opened ModArith
  import opened BitPacking
  import opened BitXor

  type Bytes = s: seq<int> | Below(s, 256)

  /** A block for every counter, all of one size, and the counter that follows. */
  datatype Stream<!N> = Stream(block: N -> seq<int>, next: N -> N, size: nat)

  ghost predicate Sized<N(!new)>(s: Stream<N>) {
    s.size > 0 && forall n :: |s.block(n)| == s.size && Below(s.block(n), 256)
  }

  /** The counter k steps on. */
  function Later<N>(s: Stream<N>, n: N, k: nat): N
    decreases k
  {
    if k == 0 then n else Later(s, s.next(n), k - 1)
  }

  /** Block after block is added to the text; the last block may be cut short. */
  ghost function Crypt<N(!new)>(s: Stream<N>, n: N, m: Bytes): (c: Bytes)
    requires Sized(s)
    ensures |c| == |m|
    decreases |m|
  {
    if |m| < s.size then XorBytes(s.block(n)[..|m|], m)
    else XorBytes(s.block(n), m[..s.size]) + Crypt(s, s.next(n), m[s.size..])
  }

  /** The number of blocks for a text: one more than the full ones if there is a rest. */
  function BlockCount(length: nat, size: nat): (k: nat)
    requires size > 0
    decreases length
  {
    if length == 0 then 0 else if length < size then 1 else 1 + BlockCount(length - size, size)
  }

  function After<N>(s: Stream<N>, n: N, length: nat): N
    requires s.size > 0
  {
    Later(s, n, BlockCount(length, s.size))
  }

  /** The blocks are as many as it takes to cover the text, so none of them is left for the next one. */
  lemma {:induction false} BlockCountCovers(length: nat, size: nat)
    requires size > 0
    ensures length <= BlockCount(length, size) * size < length + size
    decreases length
  {
    if length >= size {
      BlockCountCovers(length - size, size);
      assert BlockCount(length, size) * size == BlockCount(length - size, size) * size + size;
    }
  }

  /** Encrypting twice from the same counter gives the text back. */
  lemma {:induction false} CryptTwice<N(!new)>(s: Stream<N>, n: N, m: Bytes)
    requires Sized(s)
    ensures Crypt(s, n, Crypt(s, n, m)) == m
    decreases |m|
  {
    if |m| < s.size {
      XorBytesTwice(m, s.block(n)[..|m|]);
    } else {
      CryptTwice(s, s.next(n), m[s.size..]);
      CryptTwiceLong(s, n, m, XorBytes(s.block(n), m[..s.size]), Crypt(s, s.next(n), m[s.size..]));
    }
  }

  lemma {:induction false} CryptTwiceLong<N(!new)>(s: Stream<N>, n: N, m: Bytes, head: Bytes, t: Bytes)
    requires Sized(s) && s.size <= |m| && head == XorBytes(s.block(n), m[..s.size])
    requires t == Crypt(s, s.next(n), m[s.size..]) && Crypt(s, s.next(n), t) == m[s.size..]
    ensures Crypt(s, n, Crypt(s, n, m)) == m
  {
    CryptLong(s, n, m);
    CryptLong(s, n, head + t);
    assert (head + t)[..s.size] == head && (head + t)[s.size..] == t;
    XorBytesTwice(m[..s.size], s.block(n));
    assert m == m[..s.size] + m[s.size..];
  }

  /** Byte r of block k is added to byte r of the stream block that the counter k steps on makes. */
  lemma {:induction false} CryptAt<N(!new)>(s: Stream<N>, n: N, m: Bytes, k: nat, r: nat, j: nat)
    requires Sized(s) && r < s.size && j == k * s.size + r && j < |m|
    ensures Crypt(s, n, m)[j] == Xor(s.block(Later(s, n, k))[r], m[j])
    decreases k
  {
    if k == 0 {
      FirstBlock(s, n, m, r);
    } else {
      BlockBefore(k, s.size, r, j);
      CryptAt(s, s.next(n), m[s.size..], k - 1, r, j - s.size);
      LaterStep(s, n, k);
      CryptRest(s, n, m, j);
    }
  }

  lemma {:induction false} LaterStep<N(!new)>(s: Stream<N>, n: N, k: nat)
    requires k > 0
    ensures Later(s, n, k) == Later(s, s.next(n), k - 1)
  {
  }

  lemma {:induction false} BlockBefore(k: nat, size: nat, r: nat, j: nat)
    requires k > 0 && j == k * size + r
    ensures j >= size && j - size == (k - 1) * size + r
  {
    assert k * size == (k - 1) * size + size;
    assert (k - 1) * size >= 0;
  }

  lemma {:induction false} CryptRest<N(!new)>(s: Stream<N>, n: N, m: Bytes, j: nat)
    requires Sized(s) && s.size <= j < |m|
    ensures Crypt(s, n, m)[j] == Crypt(s, s.next(n), m[s.size..])[j - s.size]
  {
    CryptLong(s, n, m);
  }

  lemma {:induction false} CryptLong<N(!new)>(s: Stream<N>, n: N, m: Bytes)
    requires Sized(s) && s.size <= |m|
    ensures Crypt(s, n, m) == XorBytes(s.block(n), m[..s.size]) + Crypt(s, s.next(n), m[s.size..])
  {
  }

  lemma {:induction false} FirstBlock<N(!new)>(s: Stream<N>, n: N, m: Bytes, r: nat)
    requires Sized(s) && r < s.size && r < |m|
    ensures Crypt(s, n, m)[r] == Xor(s.block(n)[r], m[r])
  {
    if |m| < s.size {
      XorBytesAt(s.block(n)[..|m|], m, r);
    } else {
      XorBytesAt(s.block(n), m[..s.size], r);
    }
  }

  /** The first block, which may be cut short, and the others. */
  lemma {:induction false} CryptFirst<N(!new)>(s: Stream<N>, n: N, m: Bytes, k: nat)
    requires Sized(s) && k == if |m| < s.size then |m| else s.size
    ensures Crypt(s, n, m) == XorBytes(s.block(n)[..k], m[..k]) + Crypt(s, s.next(n), m[k..])
  {
    if |m| < s.size {
      assert m[..k] == m && m[k..] == [];
      assert Crypt(s, s.next(n), []) == [];
    } else {
      assert s.block(n)[..k] == s.block(n);
    }
  }

  lemma {:induction false} AfterBlock<N(!new)>(s: Stream<N>, n: N, length: nat)
    requires s.size > 0 && length > 0
    ensures After(s, n, length) == After(s, s.next(n), if length < s.size then 0 else length - s.size)
    ensures After(s, n, 0) == n
  {
  }

  lemma {:induction false} Rebracket(a: seq<int>, b: seq<int>, c: seq<int>)
    ensures (a + b) + c == a + (b + c)
  {
  }

  // ----- counters as numbers

  /** If a step adds one modulo m, k steps add k. */
  lemma {:induction false} CountLater<N(!new)>(s: Stream<N>, v: N -> nat, n: N, k: nat, m: nat)
    requires m > 0 && forall x :: v(x) < m && v(s.next(x)) == (v(x) + 1) % m
    ensures v(Later(s, n, k)) == (v(n) + k) % m
    decreases k
  {
    if k == 0 {
      KeepMod(v(n), m);
    } else {
      CountLater(s, v, s.next(n), k - 1, m);
      AddMod(v(n) + 1, k - 1, m);
    }
  }

  lemma {:induction false} KeepMod(x: nat, m: nat)
    requires x < m
    ensures (x + 0) % m == x
  {
    DivModUnique(x, m, 0, x);
  }

  lemma {:induction false} AddMod(x: int, y: int, m: int)
    requires m > 0
    ensures (x % m + y) % m == (x + y) % m
  {
    var q := (x % m + y) / m;
    DivModUnique(x + y, m, x / m + q, (x % m + y) % m);
  }

  lemma {:induction false} CounterStays(x: nat, y: nat, m: nat)
    requires x < m
    ensures (x + y) % m == x <==> y % m == 0
  {
    var q, r := y / m, y % m;
    assert x + y == q * m + (x + r);
    if x + r < m {
      DivModUnique(x + y, m, q, x + r);
    } else {
      assert x + y == (q + 1) * m + (x + r - m);
      DivModUnique(x + y, m, q + 1, x + r - m);
    }
  }
}
