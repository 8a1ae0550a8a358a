/** The block cipher of AES, portable path: sixteen bytes changed in place, round after round. */
module AesBlock {
  import opened BitPacking
  import opened BitXor
  import opened AesColumns
  import opened AesTables
  import opened RoundCiphers

  const BLOCK := 16

  predicate Block(s: seq<int>) {
    |s| == BLOCK && Below(s, 256)
  }

  /** The byte substitutions and column mixings a round is made of. */
  datatype Parts = Parts(sub: int -> int, invSub: int -> int, mix: Four -> Four, invMix: Four -> Four)

  const AES := Parts(SBox, InvSBox, Mix, InvMix)

  predicate BytesBack(f: int -> int, g: int -> int) {
    forall x :: 0 <= x < 256 ==> 0 <= f(x) < 256 && 0 <= g(x) < 256 && g(f(x)) == x
  }

  ghost predicate ColumnsBack(f: Four -> Four, g: Four -> Four) {
    forall s :: Small(s, 256) ==> Small(f(s), 256) && Small(g(s), 256) && g(f(s)) == s
  }

  ghost predicate PartsUndoing(p: Parts) {
    BytesBack(p.sub, p.invSub) && ColumnsBack(p.mix, p.invMix)
  }

  lemma {:induction false} AesPartsUndoing()
    ensures PartsUndoing(AES)
  {
    forall x | 0 <= x < 256 ensures 0 <= SBox(x) < 256 && 0 <= InvSBox(x) < 256 && InvSBox(SBox(x)) == x {
      InverseTables(x);
      InvSBoxByte(x);
    }
    forall s | Small(s, 256) ensures Small(Mix(s), 256) && Small(InvMix(s), 256) && InvMix(Mix(s)) == s {
      UnmixMix(s);
    }
  }

  lemma {:induction false} InvSBoxByte(x: int)
    ensures 0 <= InvSBox(x) < 256
  {
  }

  // ----- the steps of a round as functions

  function Substituted(f: int -> int, s: seq<int>): (t: seq<int>)
    ensures |t| == |s| && forall i :: 0 <= i < |s| ==> t[i] == f(s[i])
  {
    seq(|s|, i requires 0 <= i < |s| => f(s[i]))
  }

  function ShiftedRows(s: seq<int>): (t: seq<int>)
    requires |s| == BLOCK
    ensures |t| == BLOCK
  {
    [s[0], s[5], s[10], s[15], s[4], s[9], s[14], s[3], s[8], s[13], s[2], s[7], s[12], s[1], s[6], s[11]]
  }

  function UnshiftedRows(s: seq<int>): (t: seq<int>)
    requires |s| == BLOCK
    ensures |t| == BLOCK
  {
    [s[0], s[13], s[10], s[7], s[4], s[1], s[14], s[11], s[8], s[5], s[2], s[15], s[12], s[9], s[6], s[3]]
  }

  /** Every four bytes are a column. */
  function Mixed(f: Four -> Four, s: seq<int>): (t: seq<int>)
    requires |s| % 4 == 0 && Below(s, 256)
    ensures |t| == |s|
    decreases |s|
  {
    if s == [] then [] else
      var c := f(Four(s[0], s[1], s[2], s[3]));
      [c.a, c.b, c.c, c.d] + Mixed(f, s[4..])
  }

  function KeyByte(w: nat, m: nat): (b: nat)
    ensures b < 256
  {
    (if m == 0 then w / 0x100_0000 else if m == 1 then w / 0x1_0000 else if m == 2 then w / 0x100 else w) % 256
  }

  /** The key of a round: four words, most significant byte first. */
  function RoundKey(keys: seq<nat>, r: nat): (k: seq<int>)
    requires 4 * r + 4 <= |keys|
    ensures Block(k)
  {
    seq(BLOCK, i requires 0 <= i < BLOCK => KeyByte(keys[4 * r + i / 4], i % 4))
  }

  ghost predicate Schedule(keys: seq<nat>, rounds: nat) {
    rounds > 0 && |keys| == 4 * (rounds + 1)
  }

  // ----- what undoes what

  lemma {:induction false} SubstitutedBack(f: int -> int, g: int -> int, s: seq<int>)
    requires BytesBack(f, g) && Below(s, 256)
    ensures Below(Substituted(f, s), 256) && Below(Substituted(g, s), 256) && Substituted(g, Substituted(f, s)) == s
  {
    assert forall i :: 0 <= i < |s| ==> Substituted(g, Substituted(f, s))[i] == g(f(s[i])) == s[i];
  }

  lemma {:induction false} RowsBack(s: seq<int>)
    requires |s| == BLOCK
    ensures UnshiftedRows(ShiftedRows(s)) == s
  {
  }

  /** Row r, every fourth byte from byte r on, is turned to the left by r places. */
  lemma {:induction false} ShiftedRowsAt(s: seq<int>, r: nat, c: nat)
    requires |s| == BLOCK && r < 4 && c < 4
    ensures ShiftedRows(s)[r + 4 * c] == s[r + 4 * ((c + r) % 4)]
    ensures UnshiftedRows(s)[r + 4 * ((c + r) % 4)] == s[r + 4 * c]
  {
    assert c == 0 || c == 1 || c == 2 || c == 3;
    assert r == 0 || r == 1 || r == 2 || r == 3;
  }

  lemma {:induction false} WordOfKeyBytes(w: nat)
    requires w < 0x1_0000_0000
    ensures w == 0x100_0000 * KeyByte(w, 0) + 0x1_0000 * KeyByte(w, 1) + 0x100 * KeyByte(w, 2) + KeyByte(w, 3)
  {
    var u, v, t := w / 0x100, w / 0x1_0000, w / 0x100_0000;
    assert u / 0x100 == v && v / 0x100 == t;
    assert w == 0x100 * u + w % 0x100 && u == 0x100 * v + u % 0x100 && v == 0x100 * t + v % 0x100;
    assert KeyByte(w, 0) == t && KeyByte(w, 1) == v % 0x100 && KeyByte(w, 2) == u % 0x100;
  }

  /** The bytes of a key word make it up, most significant first; they meet the bytes of column c. */
  lemma {:induction false} RoundKeyWord(keys: seq<nat>, r: nat, c: nat)
    requires 4 * r + 4 <= |keys| && c < 4 && keys[4 * r + c] < 0x1_0000_0000
    ensures var k := RoundKey(keys, r);
      keys[4 * r + c] == 0x100_0000 * k[4 * c] + 0x1_0000 * k[4 * c + 1] + 0x100 * k[4 * c + 2] + k[4 * c + 3]
  {
    var k, w := RoundKey(keys, r), keys[4 * r + c];
    WordOfKeyBytes(w);
    assert k[4 * c] == KeyByte(w, 0) && k[4 * c + 1] == KeyByte(w, 1) && k[4 * c + 2] == KeyByte(w, 2)
      && k[4 * c + 3] == KeyByte(w, 3);
  }

  lemma {:induction false} RowsBelow(s: seq<int>)
    requires Block(s)
    ensures Block(ShiftedRows(s)) && Block(UnshiftedRows(s))
  {
  }

  lemma {:induction false} MixedStays(f: Four -> Four, s: seq<int>)
    requires |s| % 4 == 0 && Below(s, 256) && forall c :: Small(c, 256) ==> Small(f(c), 256)
    ensures Below(Mixed(f, s), 256)
    decreases |s|
  {
    if s != [] {
      MixedStays(f, s[4..]);
      assert Small(Four(s[0], s[1], s[2], s[3]), 256);
    }
  }

  lemma {:induction false} MixedBelow(f: Four -> Four, g: Four -> Four, s: seq<int>)
    requires ColumnsBack(f, g) && |s| % 4 == 0 && Below(s, 256)
    ensures Below(Mixed(f, s), 256) && Below(Mixed(g, s), 256)
  {
    MixedStays(f, s);
    MixedStays(g, s);
  }

  lemma {:induction false} MixedBack(f: Four -> Four, g: Four -> Four, s: seq<int>)
    requires ColumnsBack(f, g) && |s| % 4 == 0 && Below(s, 256)
    ensures Below(Mixed(f, s), 256) && Mixed(g, Mixed(f, s)) == s
    decreases |s|
  {
    MixedBelow(f, g, s);
    if s != [] {
      var c := Four(s[0], s[1], s[2], s[3]);
      assert Small(c, 256);
      MixedBack(f, g, s[4..]);
      assert Mixed(f, s)[4..] == Mixed(f, s[4..]);
      assert s == [s[0], s[1], s[2], s[3]] + s[4..];
    }
  }

  // ----- the cipher

  type State = s: seq<int> | Block(s) witness seq(BLOCK, _ => 0)

  function Scramble(p: Parts, s: State): State
    requires BytesBack(p.sub, p.invSub)
  {
    SubstitutedBack(p.sub, p.invSub, s);
    RowsBelow(Substituted(p.sub, s));
    ShiftedRows(Substituted(p.sub, s))
  }

  function Unscramble(p: Parts, s: State): State
    requires BytesBack(p.sub, p.invSub)
  {
    RowsBelow(s);
    SubstitutedBack(p.sub, p.invSub, UnshiftedRows(s));
    Substituted(p.invSub, UnshiftedRows(s))
  }

  ghost function Stir(p: Parts, s: State): State
    requires PartsUndoing(p)
  {
    MixedBelow(p.mix, p.invMix, s);
    Mixed(p.mix, s)
  }

  ghost function Unstir(p: Parts, s: State): State
    requires PartsUndoing(p)
  {
    MixedBelow(p.mix, p.invMix, s);
    Mixed(p.invMix, s)
  }

  function WithKey(keys: seq<nat>, s: State, r: nat): State {
    if 4 * r + 4 <= |keys| then XorBytes(s, RoundKey(keys, r)) else s
  }

  ghost function Cipher(p: Parts, keys: seq<nat>): Pieces<State>
    requires PartsUndoing(p)
  {
    Pieces((s: State) requires PartsUndoing(p) => Scramble(p, s),
      (s: State) requires PartsUndoing(p) => Unscramble(p, s),
      (s: State) requires PartsUndoing(p) => Stir(p, s),
      (s: State) requires PartsUndoing(p) => Unstir(p, s),
      (s: State, r: nat) => WithKey(keys, s, r))
  }

  lemma {:induction false} ScrambleBack(p: Parts, s: State)
    requires BytesBack(p.sub, p.invSub)
    ensures Unscramble(p, Scramble(p, s)) == s
  {
    SubstitutedBack(p.sub, p.invSub, s);
    RowsBack(Substituted(p.sub, s));
  }

  lemma {:induction false} StirBack(p: Parts, s: State)
    requires PartsUndoing(p)
    ensures Unstir(p, Stir(p, s)) == s
  {
    MixedBack(p.mix, p.invMix, s);
  }

  lemma {:induction false} KeyTwice(keys: seq<nat>, s: State, r: nat)
    ensures WithKey(keys, WithKey(keys, s, r), r) == s
  {
    if 4 * r + 4 <= |keys| {
      XorBytesTwice(s, RoundKey(keys, r));
    }
  }

  lemma {:induction false} CipherUndoing(p: Parts, keys: seq<nat>)
    requires PartsUndoing(p)
    ensures Undoing(Cipher(p, keys))
  {
    var c := Cipher(p, keys);
    forall s: State ensures c.unscramble(c.scramble(s)) == s {
      ScrambleBack(p, s);
    }
    forall s: State ensures c.unmix(c.mix(s)) == s {
      StirBack(p, s);
    }
    forall s: State, r: nat ensures c.key(c.key(s, r), r) == s {
      KeyTwice(keys, s, r);
    }
  }

  ghost function AesEncrypted(keys: seq<nat>, rounds: nat, s: State): State
    requires PartsUndoing(AES)
  {
    if rounds == 0 then s else Encrypted<State>(Cipher(AES, keys), s, rounds)
  }

  ghost function AesDecrypted(keys: seq<nat>, rounds: nat, s: State): State
    requires PartsUndoing(AES)
  {
    if rounds == 0 then s else Decrypted<State>(Cipher(AES, keys), s, rounds)
  }

  /** Decryption undoes encryption, for every block and all round keys. */
  lemma {:induction false} DecryptEncrypt(s: State, keys: seq<nat>, rounds: nat)
    requires rounds > 0
    ensures PartsUndoing(AES)
    ensures AesDecrypted(keys, rounds, AesEncrypted(keys, rounds, s)) == s
  {
    AesPartsUndoing();
    CipherUndoing(AES, keys);
    DecryptedEncrypted(Cipher(AES, keys), s, rounds);
  }

  // ----- in place

  method AddRoundKey(s: array<int>, keys: seq<nat>, r: nat)
    requires Block(s[..]) && 4 * r + 4 <= |keys|
    modifies s
    ensures Block(s[..]) && s[..] == WithKey(keys, old(s[..]), r)
  {
    ghost var was: State, k := s[..], RoundKey(keys, r);
    ghost var sum := XorBytes(was, k);
    for c := 0 to 4
      invariant s.Length == BLOCK
      invariant forall j :: 0 <= j < BLOCK ==> s[j] == if j < 4 * c then sum[j] else was[j]
    {
      AddWord(s, 4 * c, keys[4 * r + c]);
      forall j | 4 * c <= j < 4 * c + 4 ensures s[j] == sum[j] {
        assert k[j] == KeyByte(keys[4 * r + c], j - 4 * c);
        XorBytesAt(was, k, j);
      }
    }
    assert s[..] == sum;
  }

  method AddWord(s: array<int>, i: nat, w: nat)
    requires s.Length == BLOCK && i + 4 <= BLOCK && forall j :: i <= j < i + 4 ==> 0 <= s[j] < 256
    modifies s
    ensures forall j :: 0 <= j < BLOCK ==> s[j] == if i <= j < i + 4 then Xor(old(s[j]), KeyByte(w, j - i))
      else old(s[j])
  {
    s[i] := Xor(s[i], KeyByte(w, 0));
    s[i + 1] := Xor(s[i + 1], KeyByte(w, 1));
    s[i + 2] := Xor(s[i + 2], KeyByte(w, 2));
    s[i + 3] := Xor(s[i + 3], KeyByte(w, 3));
  }

  method SubBytes(s: array<int>, f: int -> int)
    requires s.Length == BLOCK
    modifies s
    ensures s[..] == Substituted(f, old(s[..]))
  {
    for i := 0 to BLOCK
      invariant forall j :: 0 <= j < BLOCK ==> s[j] == if j < i then f(old(s[j])) else old(s[j])
    {
      s[i] := f(s[i]);
    }
  }

  /** Four bytes move up by one place, the first one to the end. */
  method Cycle(s: array<int>, i: nat, j: nat, k: nat, l: nat)
    requires s.Length == BLOCK && i < BLOCK && j < BLOCK && k < BLOCK && l < BLOCK
    requires i != j && i != k && i != l && j != k && j != l && k != l
    modifies s
    ensures s[..] == old(s[..])[i := old(s[j])][j := old(s[k])][k := old(s[l])][l := old(s[i])]
  {
    var tmp := s[i];
    s[i] := s[j];
    s[j] := s[k];
    s[k] := s[l];
    s[l] := tmp;
  }

  method Swap(s: array<int>, i: nat, j: nat)
    requires s.Length == BLOCK && i < BLOCK && j < BLOCK && i != j
    modifies s
    ensures s[..] == old(s[..])[i := old(s[j])][j := old(s[i])]
  {
    s[i], s[j] := s[j], s[i];
  }

  method ShiftRows(s: array<int>)
    requires s.Length == BLOCK
    modifies s
    ensures s[..] == ShiftedRows(old(s[..]))
  {
    Cycle(s, 1, 5, 9, 13);
    Swap(s, 2, 10);
    Swap(s, 6, 14);
    Cycle(s, 15, 11, 7, 3);
  }

  method UnshiftRows(s: array<int>)
    requires s.Length == BLOCK
    modifies s
    ensures s[..] == UnshiftedRows(old(s[..]))
  {
    Cycle(s, 13, 9, 5, 1);
    Swap(s, 2, 10);
    Swap(s, 6, 14);
    Cycle(s, 3, 7, 11, 15);
  }

  /** Columns up to i are done, the others wait. */
  lemma {:induction false} MixedCut(f: Four -> Four, s: seq<int>, i: nat)
    requires |s| % 4 == 0 && Below(s, 256) && i % 4 == 0 && i + 4 <= |s|
    ensures Mixed(f, s)[..i + 4] == Mixed(f, s)[..i] + ColumnBytes(f(Four(s[i], s[i + 1], s[i + 2], s[i + 3])))
    decreases i
  {
    if i > 0 {
      MixedCut(f, s[4..], i - 4);
      assert Mixed(f, s)[4..] == Mixed(f, s[4..]);
      assert Mixed(f, s)[..i + 4] == Mixed(f, s)[..4] + Mixed(f, s[4..])[..i];
      assert Mixed(f, s)[..i] == Mixed(f, s)[..4] + Mixed(f, s[4..])[..i - 4];
    }
  }

  function ColumnBytes(c: Four): seq<int> {
    [c.a, c.b, c.c, c.d]
  }

  method MixColumns(s: array<int>, f: Four -> Four)
    requires Block(s[..])
    modifies s
    ensures s[..] == Mixed(f, old(s[..]))
  {
    ghost var was := s[..];
    var i := 0;
    while i < BLOCK
      invariant i <= BLOCK && i % 4 == 0 && s.Length == BLOCK
      invariant s[..i] == Mixed(f, was)[..i] && s[i..] == was[i..]
    {
      MixedCut(f, was, i);
      FirstOfRest(s[..], was, i);
      ghost var done, rest := s[..i], s[i + 4..];
      MixColumn(s, i, f);
      assert s[..i + 4] == done + ColumnBytes(f(Four(was[i], was[i + 1], was[i + 2], was[i + 3])));
      i := i + 4;
    }
  }

  lemma {:induction false} FirstOfRest(s: seq<int>, t: seq<int>, i: nat)
    requires |s| == |t| == BLOCK && i + 4 <= BLOCK && s[i..] == t[i..]
    ensures s[i] == t[i] && s[i + 1] == t[i + 1] && s[i + 2] == t[i + 2] && s[i + 3] == t[i + 3]
      && s[i + 4..] == t[i + 4..]
  {
    assert s[i..][0] == t[i..][0] && s[i..][1] == t[i..][1] && s[i..][2] == t[i..][2] && s[i..][3] == t[i..][3];
    assert s[i..][4..] == s[i + 4..] && t[i..][4..] == t[i + 4..];
  }

  method MixColumn(s: array<int>, i: nat, f: Four -> Four)
    requires s.Length == BLOCK && i + 4 <= BLOCK && forall j :: i <= j < i + 4 ==> 0 <= s[j] < 256
    modifies s
    ensures s[..] == old(s[..i]) + ColumnBytes(f(Four(old(s[i]), old(s[i + 1]), old(s[i + 2]), old(s[i + 3]))))
      + old(s[i + 4..])
  {
    PutColumn(s, i, f(Four(s[i], s[i + 1], s[i + 2], s[i + 3])));
  }

  method PutColumn(s: array<int>, i: nat, c: Four)
    requires s.Length == BLOCK && i + 4 <= BLOCK
    modifies s
    ensures s[..] == old(s[..i]) + ColumnBytes(c) + old(s[i + 4..])
  {
    s[i], s[i + 1], s[i + 2], s[i + 3] := c.a, c.b, c.c, c.d;
  }

  /** Encrypts the buffer. */
  method EncryptBlock(p: Parts, s: array<int>, keys: seq<nat>, rounds: nat)
    requires PartsUndoing(p) && Block(s[..]) && Schedule(keys, rounds)
    modifies s
    ensures Block(s[..]) && s[..] == Encrypted(Cipher(p, keys), old(s[..]), rounds)
  {
    ghost var was: State := s[..];
    EncryptRounds(p, s, keys, rounds);
    ghost var t: State := s[..];
    EncryptedIs(Cipher(p, keys), was, rounds, t);
    ScrambleBlock(p, s);
    AddKey(p, s, keys, rounds);
  }

  method EncryptRounds(p: Parts, s: array<int>, keys: seq<nat>, rounds: nat)
    requires PartsUndoing(p) && Block(s[..]) && Schedule(keys, rounds)
    modifies s
    ensures Block(s[..]) && s[..] == Rounds(Cipher(p, keys), old(s[..]), rounds - 1)
  {
    ghost var was: State := s[..];
    AddKey(p, s, keys, 0);
    var i := 1;
    while i < rounds
      invariant 1 <= i <= rounds && Block(s[..]) && s[..] == Rounds(Cipher(p, keys), was, i - 1)
    {
      RoundsNext(Cipher(p, keys), was, i, s[..]);
      EncryptRound(p, s, keys, i);
      i := i + 1;
    }
    assert i == rounds;
  }

  method ScrambleBlock(p: Parts, s: array<int>)
    requires BytesBack(p.sub, p.invSub) && Block(s[..])
    modifies s
    ensures Block(s[..]) && s[..] == Scramble(p, old(s[..]))
  {
    SubBytes(s, p.sub);
    ShiftRows(s);
  }

  method UnscrambleBlock(p: Parts, s: array<int>)
    requires BytesBack(p.sub, p.invSub) && Block(s[..])
    modifies s
    ensures Block(s[..]) && s[..] == Unscramble(p, old(s[..]))
  {
    UnshiftRows(s);
    SubBytes(s, p.invSub);
  }

  method StirBlock(p: Parts, s: array<int>)
    requires PartsUndoing(p) && Block(s[..])
    modifies s
    ensures Block(s[..]) && s[..] == Stir(p, old(s[..]))
  {
    MixedBelow(p.mix, p.invMix, s[..]);
    MixColumns(s, p.mix);
  }

  method UnstirBlock(p: Parts, s: array<int>)
    requires PartsUndoing(p) && Block(s[..])
    modifies s
    ensures Block(s[..]) && s[..] == Unstir(p, old(s[..]))
  {
    MixedBelow(p.mix, p.invMix, s[..]);
    MixColumns(s, p.invMix);
  }

  method EncryptRound(p: Parts, s: array<int>, keys: seq<nat>, i: nat)
    requires PartsUndoing(p) && Block(s[..]) && 4 * i + 4 <= |keys|
    modifies s
    ensures Block(s[..]) && var c := Cipher(p, keys); s[..] == c.key(c.mix(c.scramble(old(s[..]))), i)
  {
    ghost var t: State := s[..];
    ScrambleBlock(p, s);
    ghost var u: State := s[..];
    assert u == Scramble(p, t);
    StirBlock(p, s);
    ghost var v: State := s[..];
    assert v == Stir(p, u);
    AddRoundKey(s, keys, i);
    assert s[..] == WithKey(keys, v, i);
  }

  method DecryptRound(p: Parts, s: array<int>, keys: seq<nat>, i: nat)
    requires PartsUndoing(p) && Block(s[..]) && 4 * i + 4 <= |keys|
    modifies s
    ensures Block(s[..]) && var c := Cipher(p, keys); s[..] == c.unmix(c.key(c.unscramble(old(s[..])), i))
  {
    UnscrambleBlock(p, s);
    AddRoundKey(s, keys, i);
    UnstirBlock(p, s);
  }

  /** Decrypts the buffer: the rounds backwards. */
  method DecryptBlock(p: Parts, s: array<int>, keys: seq<nat>, rounds: nat)
    requires PartsUndoing(p) && Block(s[..]) && Schedule(keys, rounds)
    modifies s
    ensures Block(s[..]) && s[..] == Decrypted(Cipher(p, keys), old(s[..]), rounds)
  {
    ghost var was: State := s[..];
    AddKey(p, s, keys, rounds);
    ghost var t: State := s[..];
    var i := DecryptRounds(p, s, keys, rounds - 1, t);
    ghost var u: State := s[..];
    DecryptedIs(Cipher(p, keys), was, rounds, t, u, i);
    LastRound(p, s, keys);
  }

  method DecryptRounds(p: Parts, s: array<int>, keys: seq<nat>, n: nat, ghost was: State) returns (i: nat)
    requires PartsUndoing(p) && Block(s[..]) && 4 * n + 4 <= |keys| && s[..] == was
    modifies s
    ensures i == 0 && Block(s[..]) && s[..] == Unrounds(Cipher(p, keys), was, n, i)
  {
    ghost var c := Cipher(p, keys);
    UnroundsStart(c, was, n);
    i := n;
    while i > 0
      invariant i <= n && Block(s[..]) && s[..] == Unrounds(c, was, n, i)
    {
      i := DecryptNext(p, s, keys, was, n, i);
    }
  }

  method DecryptNext(p: Parts, s: array<int>, keys: seq<nat>, ghost was: State, ghost n: nat, i: nat) returns (j: nat)
    requires PartsUndoing(p) && Block(s[..]) && 4 * n + 4 <= |keys| && 0 < i <= n
    requires s[..] == Unrounds(Cipher(p, keys), was, n, i)
    modifies s
    ensures j == i - 1 && Block(s[..]) && s[..] == Unrounds(Cipher(p, keys), was, n, j)
  {
    UnroundsNext(Cipher(p, keys), was, n, i);
    DecryptRound(p, s, keys, i);
    j := i - 1;
  }

  method AddKey(p: Parts, s: array<int>, keys: seq<nat>, r: nat)
    requires PartsUndoing(p) && Block(s[..]) && 4 * r + 4 <= |keys|
    modifies s
    ensures Block(s[..]) && s[..] == Cipher(p, keys).key(old(s[..]), r)
  {
    AddRoundKey(s, keys, r);
  }

  method LastRound(p: Parts, s: array<int>, keys: seq<nat>)
    requires PartsUndoing(p) && Block(s[..]) && |keys| >= 4
    modifies s
    ensures Block(s[..]) && var c := Cipher(p, keys); s[..] == c.key(c.unscramble(old(s[..])), 0)
  {
    UnscrambleBlock(p, s);
    AddRoundKey(s, keys, 0);
  }
}
