/** AES-HBA-256: AES in counter mode, authenticated by a MAC over nonce, cipher text and lengths. */
module Hba256 {
  import opened BitPacking
  import opened PolyPacking
  import opened ScalarDigits
  import opened CounterStreams
  import opened AesBlock
  import opened AesModes
  import opened AeadRuns
  import ByteTools

  const MAC_SIZE := 32

  /**
    The MAC in use, as functions of its state: absorbing, the code with the state that finalization leaves,
    the next key from the last one and a salt, and what starting over with it makes of the state. (With
    HMAC the source does not start over; then restart returns the state as it is.)
   */
  datatype Mac<!K> = Mac(update: (K, Bytes) -> K, code: K -> (Bytes, K), rekey: (Bytes, Bytes) -> Bytes,
    restart: (K, Bytes) -> K)

  ghost predicate CodesFit<K(!new)>(mac: Mac<K>) {
    forall k :: |mac.code(k).0| == MAC_SIZE
  }

  /** The MAC's side of a state: its own state, the bytes processed so far, and the key it was made from. */
  datatype MacSide<K> = MacSide(k: K, counter: nat, mkey: Bytes)

  const WORD := 0x1_0000_0000_0000_0000    // 2^64

  function Started<K>(mac: Mac<K>, a: MacSide<K>, nonce: State, length: nat): MacSide<K> {
    MacSide(mac.update(a.k, nonce), (a.counter + length) % WORD, a.mkey)
  }

  function Absorbed<K>(mac: Mac<K>, a: MacSide<K>, c: Bytes): MacSide<K> {
    MacSide(mac.update(a.k, c), a.counter, a.mkey)
  }

  /** Associated data and its length in 32 bits; no data leaves no trace. */
  function Associated<K>(mac: Mac<K>, a: MacSide<K>, data: Bytes): MacSide<K> {
    if data == [] then a else Absorbed(mac, Absorbed(mac, a, data), ToBytes(|data| % 0x1_0000_0000, 4))
  }

  /** The code over everything absorbed and the sizes, and the next key, salted with the counter. */
  function Finished<K>(mac: Mac<K>, name: Bytes, a: MacSide<K>): (r: (Bytes, MacSide<K>))
    requires |name| >= 8
  {
    var (code, k) := mac.code(mac.update(a.k, ToBytes((BLOCK + a.counter + 8) % WORD, 8)));
    var key := mac.rekey(a.mkey, ToBytes(a.counter, 8) + name[8..]);
    (code, MacSide(mac.restart(k, key), a.counter, key))
  }

  ghost function HbaAead<K>(c: Pair, mac: Mac<K>, name: Bytes): Aead<State, MacSide<K>>
    requires |name| >= 8
  {
    Aead((n: State, m: Bytes) => LittleCrypt(c, n, m),
      (n: State, length: nat) => LittleAfter(c, n, length),
      (a: MacSide<K>, n: State, length: nat) => Started(mac, a, n, length),
      (a: MacSide<K>, m: Bytes) => Absorbed(mac, a, m),
      (a: MacSide<K>, data: Bytes) => Associated(mac, a, data),
      (a: MacSide<K>) requires |name| >= 8 => Finished(mac, name, a))
  }

  lemma {:induction false} HbaSound<K(!new)>(c: Pair, mac: Mac<K>, name: Bytes)
    requires |name| >= 8
    ensures Sound(HbaAead(c, mac, name))
  {
    var p := HbaAead(c, mac, name);
    forall n: State, m: Bytes ensures |p.crypt(n, m)| == |m| && p.crypt(n, p.crypt(n, m)) == m {
      LittleLength(c, n, m);
      LittleTwice(c, n, m);
    }
  }

  /** Whatever is sent, the receiver recovers, and the two states differ in the mode flag only. */
  lemma {:induction false} HbaLockstep<K(!new)>(c: Pair, mac: Mac<K>, name: Bytes, e: Side<State, MacSide<K>>,
      d: Side<State, MacSide<K>>, calls: seq<Call>)
    requires |name| >= 8 && Paired(e, d)
    ensures var p := HbaAead(c, mac, name);
      var (t, wires) := Send(p, e, calls); var (u, outs) := Receive(p, d, calls, wires);
      outs == Texts(calls) && Paired(t, u)
  {
    HbaSound(c, mac, name);
    Lockstep(HbaAead(c, mac, name), e, d, calls);
  }

  // ----- after a refusal

  /** What a refused text makes of the MAC's own state and key. */
  function Moved<K>(mac: Mac<K>, name: Bytes, a: MacSide<K>, nonce: State, c: Bytes): MacSide<K>
    requires |name| >= 8
  {
    Finished(mac, name, Absorbed(mac, Started(mac, a, nonce, |c|), c)).1
  }

  /**
    The two states are still paired after a refusal exactly when the length is a multiple of 2^64 and the
    MAC has come back to the state and the key it had.
   */
  lemma {:induction false} PairedAfterRefusalIff<K(!new)>(c: Pair, mac: Mac<K>, name: Bytes,
      e: Side<State, MacSide<K>>, d: Side<State, MacSide<K>>, length: nat, wire: Bytes)
    requires |name| >= 8 && Paired(e, d) && d.a.counter < WORD && length <= |wire|
    requires Decrypt(HbaAead(c, mac, name), d, length, wire, true).1 == Refused
    ensures var moved := Moved(mac, name, d.a, d.n, wire[..length]);
      Paired(e, Decrypt(HbaAead(c, mac, name), d, length, wire, true).0)
      <==> length % WORD == 0 && moved.k == d.a.k && moved.mkey == d.a.mkey
  {
    var p := HbaAead(c, mac, name);
    assert Decrypt(p, d, length, wire, true).0.a == Moved(mac, name, d.a, d.n, wire[..length]);
    assert Moved(mac, name, d.a, d.n, wire[..length]).counter == (d.a.counter + length) % WORD;
    CounterStays(d.a.counter, length, WORD);
  }

  /** A MAC that counts: its state is how much it has absorbed, its code that number. */
  function Counting(): Mac<int> {
    Mac((k: int, b: Bytes) => k + |b| + 1, (k: int) => (Numbered(k), k), (key: Bytes, salt: Bytes) => key,
      (k: int, key: Bytes) => k)
  }

  function Numbered(k: int): (b: Bytes)
    ensures |b| == MAC_SIZE
  {
    ToBytes(if k < 0 then 0 else k, MAC_SIZE)
  }

  lemma {:induction false} NumberedApart(j: nat, k: nat)
    requires j % 256 != k % 256
    ensures Numbered(j) != Numbered(k)
  {
    assert Numbered(j)[0] == j % 256 && Numbered(k)[0] == k % 256;
  }

  /** An empty text moves it on by 27: the nonce, the text, the counter, and one for each. */
  lemma {:induction false} CountingMoves(c: Pair, name: Bytes, s: Side<State, MacSide<int>>)
    requires |name| >= 8 && 0 <= s.a.counter < WORD
    ensures AeadRuns.Coded(HbaAead(c, Counting(), name), s, [], true)
      == (Numbered(s.a.k + 27), MacSide(s.a.k + 27, s.a.counter, s.a.mkey))
  {
    assert Started(Counting(), s.a, s.n, 0) == MacSide(s.a.k + 17, s.a.counter, s.a.mkey);
    assert Absorbed(Counting(), MacSide(s.a.k + 17, s.a.counter, s.a.mkey), [])
      == MacSide(s.a.k + 18, s.a.counter, s.a.mkey);
  }

  /**
    With it, a single refused text, an empty one, is enough to lose the sender: the next genuine text is
    refused, although nothing is wrong with it.
   */
  lemma {:induction false} GenuineTextRefused(c: Pair, name: Bytes, e: Side<State, MacSide<int>>,
      d: Side<State, MacSide<int>>)
    requires |name| >= 8 && Paired(e, d) && e.a == MacSide(0, 1, [])
    ensures var p := HbaAead(c, Counting(), name);
      var (d', out) := Decrypt(p, d, 0, Numbered(0), true);
      CodesFit(Counting()) && out == Refused && Decrypt(p, d', 0, Encrypt(p, e, [], true).1, true).1 == Refused
  {
    var p := HbaAead(c, Counting(), name);
    var d' := Side(d.n, MacSide(27, 1, []), false);
    CountingMoves(c, name, d);
    CountingMoves(c, name, e);
    CountingMoves(c, name, d');
    NumberedApart(0, 27);
    NumberedApart(27, 54);
    HbaSound(c, Counting(), name);
    assert p.crypt(e.n, []) == [];
    assert Numbered(0)[..0] == [] && Numbered(0)[0..] == Numbered(0);
    AfterRefusal(p, e, d, 0, Numbered(0), []);
  }

  // ----- what a code binds

  /** A MAC that keeps a list of what it absorbed, and whose codes differ when the lists differ. */
  ghost predicate Records(mac: Mac<seq<Bytes>>) {
    && (forall k, b :: mac.update(k, b) == k + [b])
    && forall k, l :: mac.code(k).0 == mac.code(l).0 ==> k == l
  }

  /** The code of a text is made from the list so far, the nonce, the text, and the bytes processed. */
  lemma {:induction false} CodeIs(c: Pair, mac: Mac<seq<Bytes>>, name: Bytes, s: Side<State, MacSide<seq<Bytes>>>,
      text: Bytes)
    requires |name| >= 8 && Records(mac)
    ensures AeadRuns.Coded(HbaAead(c, mac, name), s, text, true).0
      == mac.code(s.a.k + [s.n, text, ToBytes((BLOCK + (s.a.counter + |text|) % WORD + 8) % WORD, 8)]).0
  {
    var size := ToBytes((BLOCK + (s.a.counter + |text|) % WORD + 8) % WORD, 8);
    assert ((s.a.k + [s.n]) + [text]) + [size] == s.a.k + [s.n, text, size];
    assert Started(mac, s.a, s.n, |text|).k == s.a.k + [s.n];
  }

  /** Associated data enters the list with its length; no data leaves it as it was. */
  lemma {:induction false} AssociatedIs(mac: Mac<seq<Bytes>>, a: MacSide<seq<Bytes>>, data: Bytes)
    requires Records(mac)
    ensures Associated(mac, a, data).k == if data == [] then a.k else a.k + [data, ToBytes(|data| % 0x1_0000_0000, 4)]
  {
    var size := ToBytes(|data| % 0x1_0000_0000, 4);
    assert (a.k + [data]) + [size] == a.k + [data, size];
  }

  /** A text moves the count of bytes, and the next key is made from the last one, the count and the name. */
  lemma {:induction false} KeyMoves<K(!new)>(c: Pair, mac: Mac<K>, name: Bytes, s: Side<State, MacSide<K>>, text: Bytes)
    requires |name| >= 8
    ensures var a := AeadRuns.Coded(HbaAead(c, mac, name), s, text, true).1;
      a.counter == (s.a.counter + |text|) % WORD && a.mkey == mac.rekey(s.a.mkey, ToBytes(a.counter, 8) + name[8..])
  {
  }

  lemma {:induction false} ThreeMore(k: seq<Bytes>, l: seq<Bytes>, a: Bytes, b: Bytes, c: Bytes, x: Bytes, y: Bytes,
      z: Bytes)
    requires k + [a, b, c] == l + [x, y, z]
    ensures k == l && a == x && b == y && c == z
  {
    var s, t := k + [a, b, c], l + [x, y, z];
    assert |k| == |l|;
    assert s[..|k|] == k && t[..|l|] == l;
    assert s[|k|] == a && s[|k| + 1] == b && s[|k| + 2] == c;
    assert t[|l|] == x && t[|l| + 1] == y && t[|l| + 2] == z;
  }

  /**
    A text that is accepted under the code of another one is that other one: same cipher text, same nonce, and the same
    history of texts and associated data.
   */
  lemma {:induction false} CodeBinds(c: Pair, mac: Mac<seq<Bytes>>, name: Bytes, e: Side<State, MacSide<seq<Bytes>>>,
      d: Side<State, MacSide<seq<Bytes>>>, text: Bytes, length: nat, wire: Bytes)
    requires |name| >= 8 && Records(mac) && length <= |wire|
    requires wire[length..] == AeadRuns.Coded(HbaAead(c, mac, name), e, text, true).0
    requires Decrypt(HbaAead(c, mac, name), d, length, wire, true).1.Done?
    ensures wire[..length] == text && d.n == e.n && d.a.k == e.a.k
  {
    CodeIs(c, mac, name, e, text);
    CodeIs(c, mac, name, d, wire[..length]);
    ThreeMore(e.a.k, d.a.k, e.n, text, ToBytes((BLOCK + (e.a.counter + |text|) % WORD + 8) % WORD, 8),
      d.n, wire[..length], ToBytes((BLOCK + (d.a.counter + |wire[..length]|) % WORD + 8) % WORD, 8));
  }

  /** The state of the source: the cipher with its nonce, the MAC, and the mode flag. */
  class Hba<K(!new)> {
    const cipher: Modes
    const mac: Mac<K>
    const name: Bytes
    const encrypt: bool
    var k: K
    var counter: nat
    var mkey: Bytes

    ghost predicate Valid()
      reads this, cipher.nonce
    {
      cipher.Valid() && CodesFit(mac) && |name| >= 8 && counter < WORD
    }

    ghost function Now(): Side<State, MacSide<K>>
      reads this, cipher.nonce
      requires Valid()
    {
      Side(cipher.nonce[..], MacSide(k, counter, mkey), encrypt)
    }

    /** The processed bytes counter starts at 1. */
    constructor (cipher: Modes, mac: Mac<K>, name: Bytes, k: K, mkey: Bytes, encrypt: bool)
      requires cipher.Valid() && CodesFit(mac) && |name| >= 8
      ensures Valid() && this.cipher == cipher && this.mac == mac && this.name == name
      ensures Now().n == cipher.nonce[..] && Now().a == MacSide(k, 1, mkey) && Now().encrypt == encrypt
    {
      this.cipher, this.mac, this.name, this.encrypt := cipher, mac, name, encrypt;
      this.k, this.counter, this.mkey := k, 1, mkey;
    }

    method SetAssociated(data: Bytes)
      requires Valid()
      modifies this
      ensures Valid() && Now() == AeadRuns.Associated(HbaAead(cipher.c, mac, name), old(Now()), data)
    {
      if data != [] {
        k := mac.update(k, data);
        k := mac.update(k, ToBytes(|data| % 0x1_0000_0000, 4));
      }
    }

    /** Ends a message: the code, and the key of the next one. */
    method Finalize() returns (code: Bytes)
      requires Valid()
      modifies this
      ensures Valid() && |code| == MAC_SIZE
      ensures (code, MacSide(k, counter, mkey)) == Finished(mac, name, old(MacSide(k, counter, mkey)))
      ensures counter == old(counter)
    {
      k := mac.update(k, ToBytes((BLOCK + counter + 8) % WORD, 8));
      code, k := mac.code(k).0, mac.code(k).1;
      mkey := mac.rekey(mkey, ToBytes(counter, 8) + name[8..]);
      k := mac.restart(k, mkey);
    }

    /** The start of both directions: the counter, and the nonce into the MAC. */
    method Begin(length: nat)
      requires Valid()
      modifies this
      ensures Valid() && MacSide(k, counter, mkey) == Started(mac, old(MacSide(k, counter, mkey)), cipher.nonce[..],
        length)
    {
      counter := (counter + length) % WORD;
      k := mac.update(k, cipher.nonce[..]);
    }

    method Seal(output: array<int>, input: Bytes)
      requires Valid() && encrypt && output != cipher.nonce && |input| + MAC_SIZE <= output.Length
      modifies this, cipher.nonce, output
      ensures Valid() && var (s, wire) := Encrypt(HbaAead(cipher.c, mac, name), old(Now()), input, true);
        Now() == s && |wire| == |input| + MAC_SIZE && output[..|wire|] == wire
    {
      Begin(|input|);
      cipher.CtrLittle(output, input);
      ghost var c := output[..|input|];
      LittleLength(cipher.c, old(cipher.nonce[..]), input);
      k := mac.update(k, output[..|input|]);
      var code := Finalize();
      cipher.Put(output, |input|, code);
    }

    method Unseal(output: array<int>, input: Bytes, length: nat) returns (res: bool)
      requires Valid() && !encrypt && output != cipher.nonce && length <= output.Length && |input| == length + MAC_SIZE
      modifies this, cipher.nonce, output
      ensures Valid() && var (s, out) := Decrypt(HbaAead(cipher.c, mac, name), old(Now()), length, input, true);
        && Now() == s && res == out.Done?
        && (if res then output[..length] == out.out else output[..] == old(output[..]))
    {
      Begin(length);
      k := mac.update(k, input[..length]);
      var code := Finalize();
      ByteTools.VerifyCompares(code, input[length..]);
      res := ByteTools.Verify(code, input[length..]) == 0;
      if res {
        cipher.CtrLittle(output, input[..length]);
      }
    }

    method Transform(output: array<int>, input: Bytes, length: nat) returns (res: bool)
      requires Valid() && output != cipher.nonce && length + (if encrypt then MAC_SIZE else 0) <= output.Length
      requires |input| == length + if encrypt then 0 else MAC_SIZE
      modifies this, cipher.nonce, output
      ensures Valid()
      ensures encrypt ==> var (s, wire) := Encrypt(HbaAead(cipher.c, mac, name), old(Now()), input, true);
        res && Now() == s && |wire| == length + MAC_SIZE && output[..|wire|] == wire
      ensures !encrypt ==> var (s, out) := Decrypt(HbaAead(cipher.c, mac, name), old(Now()), length, input, true);
        && Now() == s && res == out.Done?
        && (if res then output[..length] == out.out else output[..] == old(output[..]))
    {
      if encrypt {
        Seal(output, input);
        res := true;
      } else {
        res := Unseal(output, input, length);
      }
    }
  }
}
