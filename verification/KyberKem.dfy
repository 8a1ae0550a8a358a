/** The key encapsulation built on the encryption, with re-encryption at the receiver. */
module KyberKem {
  import opened PolyRing
  import opened PairRing
  import opened BitPacking
  import opened PolyPacking
  import opened ByteTools
  import opened KyberParams
  import opened KyberPke
  import opened KyberCorrectness

  /** The receiver's key: decryption key, public key, its hash, and the value used after a failure. */
  function KemSecretSize(level: Level): nat { SecretSize(level) + PublicSize(level) + 2 * SYMBYTES }

  function KemKeys(level: Level, o: Oracles, d: seq<int>, z: seq<int>): (k: KeyPair)
    requires Bytes(z, SYMBYTES)
    ensures Bytes(k.pk, PublicSize(level)) && Bytes(k.sk, KemSecretSize(level))
  {
    var k := GenerateKeys(level, o, d);
    KeyPair(k.pk, k.sk + k.pk + Hash(o.sha3_256, k.pk, SYMBYTES) + z)
  }

  /** Pre-key and coins, from the message and the hash of the public key. */
  function KeyAndCoins(o: Oracles, m: seq<int>, h: seq<int>): (kr: seq<int>)
    ensures Bytes(kr, 2 * SYMBYTES)
  {
    Hash(o.sha3_512, m + h, 2 * SYMBYTES)
  }

  function SharedSecret(o: Oracles, prekey: seq<int>, ct: seq<int>): (ss: seq<int>)
    ensures Bytes(ss, SYMBYTES)
  {
    Hash(o.shake256, prekey + Hash(o.sha3_256, ct, SYMBYTES), SYMBYTES)
  }

  datatype Encapsulation = Encapsulation(ct: seq<int>, ss: seq<int>)

  /** The message behind an encapsulation: the hash of what the random generator delivers. */
  function MessageOf(o: Oracles, random: seq<int>): (m: seq<int>)
    ensures Bytes(m, SYMBYTES)
  {
    Hash(o.sha3_256, random, SYMBYTES)
  }

  function CoinsOf(o: Oracles, pk: seq<int>, random: seq<int>): (coins: seq<int>)
    ensures Bytes(coins, SYMBYTES)
  {
    KeyAndCoins(o, MessageOf(o, random), Hash(o.sha3_256, pk, SYMBYTES))[SYMBYTES..]
  }

  function Encapsulate(level: Level, o: Oracles, pk: seq<int>, random: seq<int>): (e: Encapsulation)
    requires Bytes(pk, PublicSize(level))
    ensures Bytes(e.ct, CipherSize(level)) && Bytes(e.ss, SYMBYTES)
  {
    var m := MessageOf(o, random);
    var kr := KeyAndCoins(o, m, Hash(o.sha3_256, pk, SYMBYTES));
    var ct := EncryptBytes(level, o, pk, m, kr[SYMBYTES..]);
    Encapsulation(ct, SharedSecret(o, kr[..SYMBYTES], ct))
  }

  datatype Opened = Opened(ss: seq<int>, ok: bool)

  /** The parts of the receiver's key. */
  datatype KemSecret = KemSecret(sk: seq<int>, pk: seq<int>, h: seq<int>, z: seq<int>)

  predicate SecretFits(level: Level, k: KemSecret) {
    Bytes(k.sk, SecretSize(level)) && Bytes(k.pk, PublicSize(level)) && Bytes(k.h, SYMBYTES) && Bytes(k.z, SYMBYTES)
  }

  function Take(b: seq<int>, i: nat, n: nat): (r: seq<int>)
    requires i + n <= |b| && Below(b, 256)
    ensures Bytes(r, n)
  {
    b[i..i + n]
  }

  function SplitSecret(level: Level, sk: seq<int>): (k: KemSecret)
    requires Bytes(sk, KemSecretSize(level))
    ensures SecretFits(level, k)
  {
    var p, q := SecretSize(level), SecretSize(level) + PublicSize(level);
    KemSecret(Take(sk, 0, p), Take(sk, p, PublicSize(level)), Take(sk, q, SYMBYTES), Take(sk, q + SYMBYTES, SYMBYTES))
  }

  /** What the receiver makes of a ciphertext: the second encryption, and the pre-key. */
  datatype Reopened = Reopened(again: seq<int>, prekey: seq<int>)

  function Reopen(level: Level, o: Oracles, ct: seq<int>, k: KemSecret): (r: Reopened)
    requires Bytes(ct, CipherSize(level)) && SecretFits(level, k)
    ensures |r.again| == |ct| && Below(r.again, 256) && Bytes(r.prekey, SYMBYTES)
  {
    var m := DecryptBytes(level, ct, k.sk);
    var kr := KeyAndCoins(o, m, k.h);
    Reopened(EncryptBytes(level, o, k.pk, m, kr[SYMBYTES..]), kr[..SYMBYTES])
  }

  /**
    Decapsulation: decrypt, encrypt again, compare. The verdict of the comparison, cut to a byte, is
    also the condition under which the pre-key is overwritten.
   */
  function Open(level: Level, o: Oracles, ct: seq<int>, k: KemSecret): (r: Opened)
    requires Bytes(ct, CipherSize(level)) && SecretFits(level, k)
    ensures Bytes(r.ss, SYMBYTES)
  {
    var r := Reopen(level, o, ct, k);
    Judge(o, ct, r.again, r.prekey, k.z)
  }

  /** The end of decapsulation, given the second encryption. */
  function Judge(o: Oracles, ct: seq<int>, again: seq<int>, prekey: seq<int>, z: seq<int>): (r: Opened)
    requires |ct| == |again| && Below(ct, 256) && Below(again, 256) && Bytes(prekey, SYMBYTES) && Bytes(z, SYMBYTES)
    ensures Bytes(r.ss, SYMBYTES)
  {
    var fail := ByteTools.Verify(ct, again);
    Opened(SharedSecret(o, Move(prekey, z, fail % 256), ct), fail == 0)
  }

  lemma {:induction false} JudgeCases(o: Oracles, ct: seq<int>, again: seq<int>, prekey: seq<int>, z: seq<int>)
    requires |ct| == |again| && Below(ct, 256) && Below(again, 256) && Bytes(prekey, SYMBYTES) && Bytes(z, SYMBYTES)
    ensures Judge(o, ct, again, prekey, z) ==
      if ct == again then Opened(SharedSecret(o, prekey, ct), true)
        else Opened(SharedSecret(o, Mixed(prekey, z), ct), false)
  {
    VerifyCompares(ct, again);
    MoveZero(prekey, z);
    MoveAllOnes(prekey, z);
  }

  function Decapsulate(level: Level, o: Oracles, ct: seq<int>, sk: seq<int>): (r: Opened)
    requires Bytes(ct, CipherSize(level)) && Bytes(sk, KemSecretSize(level))
    ensures Bytes(r.ss, SYMBYTES)
  {
    Open(level, o, ct, SplitSecret(level, sk))
  }

  lemma {:induction false} FourParts(a: seq<int>, b: seq<int>, c: seq<int>, d: seq<int>)
    requires Below(a, 256) && Below(b, 256) && Below(c, 256) && Below(d, 256)
    ensures var s := a + b + c + d;
      && Below(s, 256) && Take(s, 0, |a|) == a && Take(s, |a|, |b|) == b
      && Take(s, |a| + |b|, |c|) == c && Take(s, |a| + |b| + |c|, |d|) == d
  {
  }

  lemma {:induction false} SplitJoined(level: Level, sk: seq<int>, pk: seq<int>, h: seq<int>, z: seq<int>)
    requires SecretFits(level, KemSecret(sk, pk, h, z))
    ensures Bytes(sk + pk + h + z, KemSecretSize(level))
    ensures SplitSecret(level, sk + pk + h + z) == KemSecret(sk, pk, h, z)
  {
    FourParts(sk, pk, h, z);
  }

  lemma {:induction false} SplitKemKeys(level: Level, o: Oracles, d: seq<int>, z: seq<int>, k: KeyPair)
    requires Bytes(z, SYMBYTES) && k == GenerateKeys(level, o, d)
    ensures SplitSecret(level, KemKeys(level, o, d, z).sk) == KemSecret(k.sk, k.pk, Hash(o.sha3_256, k.pk, SYMBYTES), z)
  {
    SplitJoined(level, k.sk, k.pk, Hash(o.sha3_256, k.pk, SYMBYTES), z);
  }

  /** Opening an encapsulation whose message decrypts to itself is accepted and gives the same secret. */
  lemma {:induction false} OpensWhenDecrypted(level: Level, o: Oracles, k: KemSecret, random: seq<int>,
      e: Encapsulation)
    requires SecretFits(level, k) && k.h == Hash(o.sha3_256, k.pk, SYMBYTES) && e == Encapsulate(level, o, k.pk, random)
    requires DecryptBytes(level, e.ct, k.sk) == MessageOf(o, random)
    ensures Open(level, o, e.ct, k) == Opened(e.ss, true)
  {
    var r := Reopen(level, o, e.ct, k);
    JudgeCases(o, e.ct, r.again, r.prekey, k.z);
  }

  /**
    Correctness of the key exchange: with tolerable noise, the receiver accepts and derives the
    sender's secret.
   */
  lemma {:induction false} DecapsulateAgrees(level: Level, o: Oracles, d: seq<int>, z: seq<int>, k: KeyPair,
      random: seq<int>, e: Encapsulation)
    requires Bytes(z, SYMBYTES) && k == KemKeys(level, o, d, z) && e == Encapsulate(level, o, k.pk, random)
    requires Tolerable(MessageOf(o, random), RunNoise(level, o, d, MessageOf(o, random), CoinsOf(o, k.pk, random)))
    ensures Decapsulate(level, o, e.ct, k.sk) == Opened(e.ss, true)
  {
    var p := GenerateKeys(level, o, d);
    SplitKemKeys(level, o, d, z, p);
    DecryptsIffTolerable(level, o, d, p, MessageOf(o, random), CoinsOf(o, k.pk, random));
    OpensWhenDecrypted(level, o, SplitSecret(level, k.sk), random, e);
  }

  /**
    Whatever the ciphertext: it is accepted exactly when it is the encryption of what it decrypts to,
    with the derived coins.
   */
  lemma {:induction false} AcceptedIsReencryption(level: Level, o: Oracles, ct: seq<int>, k: KemSecret)
    requires Bytes(ct, CipherSize(level)) && SecretFits(level, k)
    ensures Open(level, o, ct, k).ok <==> ct == Reopen(level, o, ct, k).again
  {
    var r := Reopen(level, o, ct, k);
    JudgeCases(o, ct, r.again, r.prekey, k.z);
  }

  /** Two byte strings that agree in all bits but the lowest of each byte. */
  predicate SameAbove(a: seq<int>, b: seq<int>)
    requires |a| == |b|
  {
    forall i :: 0 <= i < |a| ==> a[i] / 2 == b[i] / 2
  }

  /**
    The pre-key is replaced by z, as meant, exactly when the two already agree in all bits but the lowest
    of each byte.
   */
  lemma {:induction false} ReplacedIff(prekey: seq<int>, z: seq<int>)
    requires |prekey| == |z| && Below(prekey, 256) && Below(z, 256)
    ensures Mixed(prekey, z) == z <==> SameAbove(prekey, z)
  {
    forall i: nat | i < |z| ensures Mixed(prekey, z)[i] == z[i] <==> prekey[i] / 2 == z[i] / 2 {
      assert z[i] == z[i] / 2 * 2 + z[i] % 2;
    }
    if SameAbove(prekey, z) {
      assert forall i :: 0 <= i < |z| ==> Mixed(prekey, z)[i] == z[i];
    }
  }

  /**
    On refusal the source means to overwrite the pre-key with z, but the comparison hands over all ones
    where the move expects 0 or 1, so only the lowest bit of every byte changes. The secret is made from
    z, as meant, exactly when the pre-key already agrees with z in all other bits.
   */
  lemma {:induction false} RefusedMixesPrekey(level: Level, o: Oracles, ct: seq<int>, k: KemSecret, r: Reopened)
    requires Bytes(ct, CipherSize(level)) && SecretFits(level, k) && r == Reopen(level, o, ct, k) && ct != r.again
    ensures Open(level, o, ct, k) == Opened(SharedSecret(o, Mixed(r.prekey, k.z), ct), false)
    ensures Mixed(r.prekey, k.z) == k.z <==> SameAbove(r.prekey, k.z)
  {
    JudgeCases(o, ct, r.again, r.prekey, k.z);
    ReplacedIff(r.prekey, k.z);
  }

  /** The vector part of a ciphertext depends on the coins only, not on the message. */
  lemma {:induction false} VectorPart(level: Level, o: Oracles, pk: seq<int>, m: seq<int>, m': seq<int>,
      coins: seq<int>, n: nat)
    requires Bytes(pk, PublicSize(level)) && Bytes(m, SYMBYTES) && Bytes(m', SYMBYTES)
    requires n == VecSize(U(level), level.K())
    ensures n <= CipherSize(level) && EncryptBytes(level, o, pk, m, coins)[..n]
      == EncryptBytes(level, o, pk, m', coins)[..n]
  {
    var c := Encrypt(level, o, pk[SecretSize(level)..], UnpackPublic(level, pk), m, coins);
    var c' := Encrypt(level, o, pk[SecretSize(level)..], UnpackPublic(level, pk), m', coins);
    assert c.u == c'.u;
    FirstPart(level, c, n);
    FirstPart(level, c', n);
  }

  lemma {:induction false} FirstPart(level: Level, c: Cipher, n: nat)
    requires |c.u| == level.K() && Vector(c.u, N) && |c.v| == N && n == VecSize(U(level), level.K())
    ensures PackCipher(level, c)[..n] == PackVec(U(level), CompressVec(level.DU(), c.u))
  {
  }

  /**
    What the secret hashes: if two secrets are equal, then pre-key and ciphertext are, or one of the two hashes has a
    collision, namely between the ciphertexts or between x and y.
   */
  lemma {:induction false} SecretBinds(o: Oracles, prekey: seq<int>, ct: seq<int>, prekey': seq<int>, ct': seq<int>)
      returns (x: seq<int>, y: seq<int>)
    requires |prekey| == |prekey'| && SharedSecret(o, prekey, ct) == SharedSecret(o, prekey', ct')
    ensures || (prekey == prekey' && ct == ct')
            || (ct != ct' && Hash(o.sha3_256, ct, SYMBYTES) == Hash(o.sha3_256, ct', SYMBYTES))
            || (x != y && Hash(o.shake256, x, SYMBYTES) == Hash(o.shake256, y, SYMBYTES))
  {
    var h, h' := Hash(o.sha3_256, ct, SYMBYTES), Hash(o.sha3_256, ct', SYMBYTES);
    x, y := prekey + h, prekey' + h';
    if x == y {
      assert x[..|prekey|] == prekey && y[..|prekey'|] == prekey' && x[|prekey|..] == h && y[|prekey'|..] == h';
    }
  }

  /** A hash that gives zeros: the pre-key and the coins are the same for every message. */
  ghost predicate ZeroHash(o: Oracles) {
    forall x, i :: o.sha3_512(x, i) == 0
  }

  function Repeated(x: int, n: nat): (s: seq<int>)
    ensures |s| == n
  {
    seq(n, _ => x)
  }

  lemma {:induction false} ZeroKeys(o: Oracles, m: seq<int>, h: seq<int>)
    requires ZeroHash(o)
    ensures KeyAndCoins(o, m, h) == Repeated(0, 2 * SYMBYTES)
  {
  }

  /** A pre-key of zeros stays as it is where the source means to put twos. */
  lemma {:induction false} ZerosStay(prekey: seq<int>, z: seq<int>)
    requires prekey == Repeated(0, SYMBYTES) && z == Repeated(2, SYMBYTES)
    ensures Mixed(prekey, z) == prekey && prekey != z
  {
    assert forall i :: 0 <= i < SYMBYTES ==> Mixed(prekey, z)[i] == prekey[i];
    assert z[0] != prekey[0];
  }

  lemma {:induction false} ReopenedZeros(level: Level, o: Oracles, ct: seq<int>, k: KemSecret, zeros: seq<int>)
      returns (m: seq<int>)
    requires Bytes(ct, CipherSize(level)) && SecretFits(level, k) && ZeroHash(o) && zeros == Repeated(0, SYMBYTES)
    ensures Bytes(m, SYMBYTES) && Reopen(level, o, ct, k) == Reopened(EncryptBytes(level, o, k.pk, m, zeros), zeros)
  {
    m := DecryptBytes(level, ct, k.sk);
    ZeroKeys(o, m, k.h);
    Halved(zeros);
  }

  lemma {:induction false} Halved(zeros: seq<int>)
    requires zeros == Repeated(0, SYMBYTES)
    ensures Repeated(0, 2 * SYMBYTES)[..SYMBYTES] == Repeated(0, 2 * SYMBYTES)[SYMBYTES..] == zeros
  {
  }

  lemma {:induction false} FirstByteSame(level: Level, o: Oracles, pk: seq<int>, m: seq<int>, m': seq<int>,
      coins: seq<int>, c: seq<int>, c': seq<int>)
    requires Bytes(pk, PublicSize(level)) && Bytes(m, SYMBYTES) && Bytes(m', SYMBYTES)
    requires c == EncryptBytes(level, o, pk, m, coins) && c' == EncryptBytes(level, o, pk, m', coins)
    ensures |c| > 0 && |c'| > 0 && c[0] == c'[0]
  {
    var n := VecSize(U(level), level.K());
    VectorPart(level, o, pk, m, m', coins, n);
    assert n > 0 && c[0] == c[..n][0] && c'[0] == c'[..n][0];
  }

  /**
    A decapsulation that keeps the pre-key: with such a hash, a receiver whose z is all twos refuses this
    ciphertext, whatever the keys, and makes the secret from the pre-key of zeros instead of from z.
   */
  lemma {:induction false} PrekeyStays(level: Level, o: Oracles, k: KemSecret, zeros: seq<int>)
      returns (ct: seq<int>)
    requires SecretFits(level, k) && ZeroHash(o) && zeros == Repeated(0, SYMBYTES) && k.z == Repeated(2, SYMBYTES)
    ensures Bytes(ct, CipherSize(level)) && zeros != k.z
    ensures Open(level, o, ct, k) == Opened(SharedSecret(o, zeros, ct), false)
  {
    var some := EncryptBytes(level, o, k.pk, zeros, zeros);
    ct := OtherFirst(some, CipherSize(level));
    var m := ReopenedZeros(level, o, ct, k, zeros);
    var again := EncryptBytes(level, o, k.pk, m, zeros);
    FirstByteSame(level, o, k.pk, zeros, m, zeros, some, again);
    ZerosStay(zeros, k.z);
    RefusedMixesPrekey(level, o, ct, k, Reopened(again, zeros));
  }

  lemma {:induction false} OtherFirst(some: seq<int>, n: nat) returns (ct: seq<int>)
    requires Bytes(some, n) && n > 0
    ensures Bytes(ct, n) && ct[0] != some[0]
  {
    ct := [(some[0] + 1) % 256] + some[1..];
  }
}
