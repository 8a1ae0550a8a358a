/** Encryption on bytes, and the exact condition under which decryption returns the message. */
module KyberCorrectness {
  import opened ModArith
  import opened PolyRing
  import opened BitPacking
  import opened PolyPacking
  import opened PairRing
  import opened CoefficientBounds
  import opened KyberParams
  import opened KyberReduce
  import opened KyberNtt
  import opened KyberCompress
  import opened KyberPke
  import opened KyberAlgebra
  import opened KyberBounds

  // ----- bytes

  const P12: Layout := Plain(12)

  function U(level: Level): Layout { Plain(level.DU()) }

  function V(level: Level): Layout { Plain(level.DV()) }

  function SecretSize(level: Level): nat { VecSize(P12, level.K()) }

  function PublicSize(level: Level): nat { VecSize(P12, level.K()) + SYMBYTES }

  function CipherSize(level: Level): nat { VecSize(U(level), level.K()) + 32 * level.DV() }

  datatype KeyPair = KeyPair(pk: seq<int>, sk: seq<int>)

  lemma {:induction false} CanonicalVecFits(v: seq<Poly>)
    requires VecBounded(v, 1664)
    ensures AllFit(P12, CanonicalVec(v)) && VecBounded(CanonicalVec(v), 4095) && VecCong(CanonicalVec(v), v)
  {
    forall i | 0 <= i < |v|
      ensures Fits(P12, CanonicalVec(v)[i]) && Bounded(CanonicalVec(v)[i], 4095) && SeqCong(CanonicalVec(v)[i], v[i], Q)
    {
      CanonicalFits(v[i]);
    }
  }

  lemma {:induction false} KeysBounded(level: Level, o: Oracles, d: seq<int>)
    ensures VecBounded(MakeKeys(level, o, d).t, 1664) && VecBounded(MakeKeys(level, o, d).s, 1664)
  {
    var k := MakeKeys(level, o, d);
    NoiseVecBounded(level, o, level.Eta1(), Seeds(o, d)[SYMBYTES..], 0);
    NoiseVecBounded(level, o, level.Eta1(), Seeds(o, d)[SYMBYTES..], level.K());
    VecNttBounded(Secret(level, o, d));
    VecNttBounded(KeyError(level, o, d));
    forall i | 0 <= i < level.K() ensures Bounded(k.t[i], 1664) {
      RowBounded(level, o, k.seed, false, i);
      PublicPolyBounded(Row(level, o, k.seed, false, i), k.s, VecNtt(KeyError(level, o, d))[i]);
    }
  }

  function GenerateKeys(level: Level, o: Oracles, d: seq<int>): (k: KeyPair)
    ensures Bytes(k.pk, PublicSize(level)) && Bytes(k.sk, SecretSize(level))
  {
    var k := MakeKeys(level, o, d);
    KeysBounded(level, o, d);
    CanonicalVecFits(k.t);
    CanonicalVecFits(k.s);
    KeyPair(PackVec(P12, CanonicalVec(k.t)) + k.seed, PackVec(P12, CanonicalVec(k.s)))
  }

  lemma {:induction false} FitsVector(l: Layout, v: seq<Poly>)
    requires AllFit(l, v)
    ensures Vector(v, N)
  {
  }

  function UnpackPublic(level: Level, pk: seq<int>): (t: seq<Poly>)
    requires Bytes(pk, PublicSize(level))
    ensures |t| == level.K() && Vector(t, N)
  {
    var t := UnpackVec(P12, level.K(), pk[..SecretSize(level)]);
    FitsVector(P12, t);
    t
  }

  function PackCipher(level: Level, c: Cipher): (b: seq<int>)
    requires |c.u| == level.K() && Vector(c.u, N) && |c.v| == N
    ensures Bytes(b, CipherSize(level))
  {
    PackVec(U(level), CompressVec(level.DU(), c.u)) + PackPoly(V(level), CompressPoly(level.DV(), c.v))
  }

  function UnpackCipher(level: Level, b: seq<int>): (c: Cipher)
    requires Bytes(b, CipherSize(level))
    ensures |c.u| == level.K() && Vector(c.u, N) && |c.v| == N
  {
    var n := VecSize(U(level), level.K());
    var u := UnpackVec(U(level), level.K(), b[..n]);
    FitsVector(U(level), u);
    Cipher(DecompressVec(level.DU(), u), DecompressPoly(level.DV(), UnpackPoly(V(level), b[n..])))
  }

  function EncryptBytes(level: Level, o: Oracles, pk: seq<int>, m: seq<int>, coins: seq<int>): (c: seq<int>)
    requires Bytes(pk, PublicSize(level)) && Bytes(m, SYMBYTES)
    ensures Bytes(c, CipherSize(level))
  {
    PackCipher(level, Encrypt(level, o, pk[SecretSize(level)..], UnpackPublic(level, pk), m, coins))
  }

  function DecryptBytes(level: Level, c: seq<int>, sk: seq<int>): (m: seq<int>)
    requires Bytes(c, CipherSize(level)) && Bytes(sk, SecretSize(level))
    ensures Bytes(m, SYMBYTES)
  {
    var s := UnpackVec(P12, level.K(), sk);
    FitsVector(P12, s);
    var w := UnpackCipher(level, c);
    ToMessage(Decrypt(s, w.u, w.v))
  }

  // ----- what survives packing

  /** A polynomial as the receiver gets it: compressed and decompressed. */
  function RoundedPoly(d: nat, a: Poly): (b: Poly)
    ensures |b| == |a|
  {
    DecompressPoly(d, CompressPoly(d, a))
  }

  function RoundedVec(d: nat, v: seq<Poly>): (w: seq<Poly>)
    ensures |w| == |v| && (Vector(v, N) ==> Vector(w, N))
  {
    seq(|v|, i requires 0 <= i < |v| => RoundedPoly(d, v[i]))
  }

  lemma {:induction false} CipherRoundTrip(level: Level, c: Cipher)
    requires |c.u| == level.K() && Vector(c.u, N) && |c.v| == N
    ensures UnpackCipher(level, PackCipher(level, c)) == Cipher(RoundedVec(level.DU(), c.u),
      RoundedPoly(level.DV(), c.v))
  {
    var x, y := CompressVec(level.DU(), c.u), CompressPoly(level.DV(), c.v);
    var b, n := PackCipher(level, c), VecSize(U(level), level.K());
    UnpackPackVec(U(level), x);
    UnpackPackPoly(V(level), y);
    assert b[..n] == PackVec(U(level), x) && b[n..] == PackPoly(V(level), y);
    assert DecompressVec(level.DU(), x) == RoundedVec(level.DU(), c.u);
  }

  lemma {:induction false} KeyRoundTrip(level: Level, o: Oracles, d: seq<int>)
    ensures var k, p := MakeKeys(level, o, d), GenerateKeys(level, o, d);
      UnpackPublic(level, p.pk) == CanonicalVec(k.t) && p.pk[SecretSize(level)..] == k.seed
        && UnpackVec(P12, level.K(), p.sk) == CanonicalVec(k.s)
  {
    var k, p := MakeKeys(level, o, d), GenerateKeys(level, o, d);
    KeysBounded(level, o, d);
    CanonicalVecFits(k.t);
    CanonicalVecFits(k.s);
    UnpackPackVec(P12, CanonicalVec(k.t));
    UnpackPackVec(P12, CanonicalVec(k.s));
    assert p.pk[..SecretSize(level)] == PackVec(P12, CanonicalVec(k.t));
  }

  // ----- the noise of a run

  function SubVec(u: seq<Poly>, v: seq<Poly>): (w: seq<Poly>)
    requires |u| == |v| && Vector(u, N) && Vector(v, N)
    ensures |w| == |u| && Vector(w, N)
  {
    seq(|u|, i requires 0 <= i < |u| => Sub(u[i], v[i]))
  }

  /** What encryption under a generated key computes. */
  function RunCipher(level: Level, o: Oracles, d: seq<int>, m: seq<int>, coins: seq<int>): (c: Cipher)
    requires Bytes(m, SYMBYTES)
    ensures |c.u| == level.K() && Vector(c.u, N) && |c.v| == N
  {
    var k := MakeKeys(level, o, d);
    Encrypt(level, o, k.seed, CanonicalVec(k.t), m, coins)
  }

  /** The errors on the vector part: the drawn one and the rounding. */
  function VectorError(level: Level, o: Oracles, coins: seq<int>, c: Cipher): (f: seq<Poly>)
    requires |c.u| == level.K() && Vector(c.u, N)
    ensures |f| == level.K() && Vector(f, N)
  {
    AddVec(Error1(level, o, coins), SubVec(RoundedVec(level.DU(), c.u), c.u), N)
  }

  /** The errors on the message part. */
  function MessageError(level: Level, o: Oracles, coins: seq<int>, c: Cipher): (g: Poly)
    requires |c.v| == N
    ensures |g| == N
  {
    Add(Error2(level, o, coins), Sub(RoundedPoly(level.DV(), c.v), c.v))
  }

  /** The decryption noise of a run, as a polynomial over the integers. */
  function RunNoise(level: Level, o: Oracles, d: seq<int>, m: seq<int>, coins: seq<int>): (n: Poly)
    requires Bytes(m, SYMBYTES)
    ensures |n| == N
  {
    var c := RunCipher(level, o, d, m, coins);
    Noise(Secret(level, o, d), KeyError(level, o, d), Ephemeral(level, o, coins), VectorError(level, o, coins, c),
      MessageError(level, o, coins, c))
  }

  // ----- the run meets the conditions of the algebra

  function Rows(level: Level, o: Oracles, seed: seq<int>): (a: seq<seq<Poly>>)
    ensures |a| == level.K() && MatrixOf(a, level.K(), N)
  {
    seq(level.K(), i => Row(level, o, seed, false, i))
  }

  lemma {:induction false} MatVecAt(a: seq<seq<Poly>>, x: seq<Poly>, i: nat)
    requires MatrixOf(a, |x|, N) && Vector(x, N) && i < |a|
    ensures MatVec(PAIRROOT, a, x, N)[i] == D(a[i], x)
    decreases |a|
  {
    if i > 0 {
      MatVecAt(a[1..], x, i - 1);
    }
  }

  lemma {:induction false} ColumnAt(a: seq<seq<Poly>>, j: nat, m: nat, i: nat)
    requires MatrixOf(a, m, N) && j < m && i < |a|
    ensures Column(a, j, m, N)[i] == a[i][j]
    decreases |a|
  {
    if i > 0 {
      ColumnAt(a[1..], j, m, i - 1);
    }
  }

  /** The rows encryption expands are the columns key generation expands. */
  lemma {:induction false} RowsTransposed(level: Level, o: Oracles, seed: seq<int>, j: nat)
    requires j < level.K()
    ensures Column(Rows(level, o, seed), j, level.K(), N) == Row(level, o, seed, true, j)
  {
    var c := Column(Rows(level, o, seed), j, level.K(), N);
    forall i: nat | i < level.K() ensures c[i] == Row(level, o, seed, true, j)[i] {
      ColumnAt(Rows(level, o, seed), j, level.K(), i);
      assert Rows(level, o, seed)[i] == Row(level, o, seed, false, i);
    }
  }

  lemma {:induction false} PublicMeets(level: Level, o: Oracles, d: seq<int>)
    ensures var k, s := MakeKeys(level, o, d), RefVec(Secret(level, o, d));
      && VecCong(CanonicalVec(k.s), s)
      && VecCong(CanonicalVec(k.t), AddVec(MatVec(PAIRROOT, Rows(level, o, k.seed), s, N),
        RefVec(KeyError(level, o, d)), N))
  {
    var k, s, e := MakeKeys(level, o, d), RefVec(Secret(level, o, d)), KeyError(level, o, d);
    var a := Rows(level, o, k.seed);
    var w := AddVec(MatVec(PAIRROOT, a, s, N), RefVec(e), N);
    KeysBounded(level, o, d);
    CanonicalVecFits(k.t);
    CanonicalVecFits(k.s);
    VecNttMeaning(Secret(level, o, d));
    VecNttMeaning(e);
    VecCongTrans(CanonicalVec(k.s), k.s, s);
    forall i: nat | i < level.K() ensures SeqCong(k.t[i], w[i], Q) {
      PublicCong(Row(level, o, k.seed, false, i), k.s, s, VecNtt(e)[i], RefVec(e)[i]);
      MatVecAt(a, s, i);
      AddVecAt(MatVec(PAIRROOT, a, s, N), RefVec(e), N, i);
    }
    VecCongTrans(CanonicalVec(k.t), k.t, w);
  }

  lemma {:induction false} VecCongTrans(u: seq<Poly>, v: seq<Poly>, w: seq<Poly>)
    requires VecCong(u, v) && VecCong(v, w)
    ensures VecCong(u, w)
  {
    forall i | 0 <= i < |u| ensures SeqCong(u[i], w[i], Q) {
      SeqCongTrans(u[i], v[i], w[i], Q);
    }
  }

  /** A polynomial of the ciphertext as received: the error and the rounding add up. */
  lemma {:induction false} ReceivedCong(u: Poly, u': Poly, x: Poly, e: Poly)
    requires |u| == |u'| == |x| == |e| == N && SeqCong(RefNtt(u), Add(x, RefNtt(e)), Q)
    ensures SeqCong(RefNtt(u'), Add(x, RefNtt(Add(e, Sub(u', u)))), Q)
  {
    var c := Sub(u', u);
    assert u' == Add(u, c);
    RefNttAdd(u, c);
    RefNttAdd(e, c);
    SeqCongSame(RefNtt(c), Q);
    AddCong(RefNtt(u), Add(x, RefNtt(e)), RefNtt(c), RefNtt(c), Q);
    assert Add(Add(x, RefNtt(e)), RefNtt(c)) == Add(x, Add(RefNtt(e), RefNtt(c)));
  }

  lemma {:induction false} VectorMeets(level: Level, o: Oracles, seed: seq<int>, t: seq<Poly>, m: seq<int>,
      coins: seq<int>)
    requires |t| == level.K() && Vector(t, N) && Bytes(m, SYMBYTES)
    ensures var c, r := Encrypt(level, o, seed, t, m, coins), RefVec(Ephemeral(level, o, coins));
      VecCong(RefVec(RoundedVec(level.DU(), c.u)),
              AddVec(TransposeVec(PAIRROOT, Rows(level, o, seed), r, level.K(), N),
                RefVec(VectorError(level, o, coins, c)), N))
  {
    var c, r := Encrypt(level, o, seed, t, m, coins), Ephemeral(level, o, coins);
    var u, e, f := RoundedVec(level.DU(), c.u), Error1(level, o, coins), VectorError(level, o, coins, c);
    var x := TransposeVec(PAIRROOT, Rows(level, o, seed), RefVec(r), level.K(), N);
    VecNttMeaning(r);
    forall i: nat | i < level.K() ensures SeqCong(RefVec(u)[i], AddVec(x, RefVec(f), N)[i], Q) {
      var row := Row(level, o, seed, true, i);
      VecCongSame(row);
      CipherCong(row, row, VecNtt(r), RefVec(r), e[i]);
      RowsTransposed(level, o, seed, i);
      TransposeVecAt(PAIRROOT, Rows(level, o, seed), RefVec(r), level.K(), N, i);
      ReceivedCong(c.u[i], u[i], x[i], e[i]);
      AddVecAt(e, SubVec(u, c.u), N, i);
      RefVecAt(u, i);
      RefVecAt(f, i);
      AddVecAt(x, RefVec(f), N, i);
    }
  }

  lemma {:induction false} MessageMeets(level: Level, o: Oracles, seed: seq<int>, t: seq<Poly>, m: seq<int>,
      coins: seq<int>)
    requires |t| == level.K() && Vector(t, N) && Bytes(m, SYMBYTES)
    ensures var c, r := Encrypt(level, o, seed, t, m, coins), RefVec(Ephemeral(level, o, coins));
      SeqCong(RefNtt(RoundedPoly(level.DV(), c.v)), Add(D(t, r),
        RefNtt(Add(FromMessage(m), MessageError(level, o, coins, c)))), Q)
  {
    var c, r := Encrypt(level, o, seed, t, m, coins), Ephemeral(level, o, coins);
    var v, e, k := RoundedPoly(level.DV(), c.v), Error2(level, o, coins), FromMessage(m);
    VecNttMeaning(r);
    VecCongSame(t);
    CipherCong(t, t, VecNtt(r), RefVec(r), Add(e, k));
    ReceivedCong(c.v, v, D(t, RefVec(r)), Add(e, k));
    MiddleFirst(e, k, Sub(v, c.v));
  }

  lemma {:induction false} MiddleFirst(a: Poly, b: Poly, c: Poly)
    requires |a| == |b| == |c|
    ensures Add(Add(a, b), c) == Add(b, Add(a, c))
  {
  }

  /** The polynomial that decryption of a run turns into bits. */
  function RunDecrypted(level: Level, o: Oracles, d: seq<int>, m: seq<int>, coins: seq<int>): (a: Poly)
    requires Bytes(m, SYMBYTES)
    ensures |a| == N
  {
    var c := RunCipher(level, o, d, m, coins);
    Decrypt(CanonicalVec(MakeKeys(level, o, d).s), RoundedVec(level.DU(), c.u), RoundedPoly(level.DV(), c.v))
  }

  lemma {:induction false} RunLeavesNoise(level: Level, o: Oracles, d: seq<int>, m: seq<int>, coins: seq<int>)
    requires Bytes(m, SYMBYTES)
    ensures SeqCong(RunDecrypted(level, o, d, m, coins), Add(FromMessage(m), RunNoise(level, o, d, m, coins)), Q)
  {
    var k, c := MakeKeys(level, o, d), RunCipher(level, o, d, m, coins);
    var t := CanonicalVec(k.t);
    PublicMeets(level, o, d);
    VectorMeets(level, o, k.seed, t, m, coins);
    MessageMeets(level, o, k.seed, t, m, coins);
    OnlyNoiseRemains(Rows(level, o, k.seed), t, Secret(level, o, d), KeyError(level, o, d), Ephemeral(level, o, coins),
                     VectorError(level, o, coins, c), MessageError(level, o, coins, c), FromMessage(m),
                     CanonicalVec(k.s), RoundedVec(level.DU(), c.u), RoundedPoly(level.DV(), c.v));
  }

  // ----- the message

  lemma {:induction false} RoundedBounded(d: nat, a: Poly)
    requires d in {4, 5, 10, 11} && |a| == N
    ensures Bounded(RoundedPoly(d, a), 9464)
  {
    Widths();
    var p, error := if d == 4 then 16 else if d == 5 then 32 else if d == 10 then 1024 else 2048,
                    if d == 4 then 104 else if d == 5 then 52 else if d == 10 then 2 else 1;
    forall i | 0 <= i < |a| ensures 0 <= RoundedPoly(d, a)[i] < Q {
      CompressDecompress(d, p, error, Compress(d, a[i]));
    }
  }

  lemma {:induction false} RunBounded(level: Level, o: Oracles, d: seq<int>, m: seq<int>, coins: seq<int>)
    requires Bytes(m, SYMBYTES)
    ensures Bounded(RunDecrypted(level, o, d, m, coins), 1664)
  {
    var k, c := MakeKeys(level, o, d), RunCipher(level, o, d, m, coins);
    var u, v := RoundedVec(level.DU(), c.u), RoundedPoly(level.DV(), c.v);
    KeysBounded(level, o, d);
    CanonicalVecFits(k.s);
    forall i | 0 <= i < |u| ensures Bounded(u[i], 9464) {
      RoundedBounded(level.DU(), c.u[i]);
    }
    RoundedBounded(level.DV(), c.v);
    DecryptBounded(CanonicalVec(k.s), u, v);
  }

  /** The representative of a residue closest to zero. */
  function Centred(x: int): (c: int)
    ensures -1664 <= c <= 1664
  {
    (x + 1664) % Q - 1664
  }

  lemma {:induction false} CentredCong(x: int)
    ensures Cong(Centred(x), x, Q)
  {
    CongIntro(Centred(x), x, Q, -((x + 1664) / Q));
  }

  /** Bit i of a message. */
  function MessageBit(m: seq<int>, i: nat): (b: int)
    requires Bytes(m, SYMBYTES) && i < N
    ensures b == 0 || b == 1
  {
    Stream(8, m)[i]
  }

  /** Every coefficient of the noise is small enough for the bit it is added to. */
  predicate Tolerable(m: seq<int>, noise: Poly)
    requires Bytes(m, SYMBYTES) && |noise| == N
  {
    forall i :: 0 <= i < N ==> -832 <= Centred(noise[i]) <= 832 - MessageBit(m, i)
  }

  lemma {:induction false} BitAt(m: seq<int>, a: Poly, noise: Poly, i: nat)
    requires Bytes(m, SYMBYTES) && |a| == |noise| == N && Bounded(a, 1664) && i < N
    requires SeqCong(a, Add(FromMessage(m), noise), Q)
    ensures CoefficientToBit(a[i]) == MessageBit(m, i) <==> -832 <= Centred(noise[i]) <= 832 - MessageBit(m, i)
  {
    var b, x := MessageBit(m, i), BitToCoefficient(MessageBit(m, i));
    assert Cong(a[i], Add(FromMessage(m), noise)[i], Q);
    CentredCong(noise[i]);
    CongAdd(x, x, Centred(noise[i]), noise[i], Q);
    CongTrans(a[i], x + noise[i], x + Centred(noise[i]), Q);
    BitSurvives(a[i], b, Centred(noise[i]));
  }

  function MessageBits(a: Poly): (s: seq<int>)
    ensures |s| == |a| && Below(s, 2)
  {
    seq(|a|, i requires 0 <= i < |a| => CoefficientToBit(a[i]))
  }

  /** A polynomial decodes to m exactly when its bits are those of m. */
  lemma {:induction false} MessageOfBits(m: seq<int>, a: Poly)
    requires Bytes(m, SYMBYTES) && |a| == N
    ensures ToMessage(a) == m <==> MessageBits(a) == Stream(8, m)
  {
    assert Pow2(8) == 256;
    StreamRegroup(8, SYMBYTES, MessageBits(a));
    assert ToMessage(a) == Regroup(8, MessageBits(a));
    RegroupStream(8, m);
  }

  lemma {:induction false} MessageSurvives(m: seq<int>, a: Poly, noise: Poly)
    requires Bytes(m, SYMBYTES) && |a| == |noise| == N && Bounded(a, 1664)
    requires SeqCong(a, Add(FromMessage(m), noise), Q)
    ensures ToMessage(a) == m <==> Tolerable(m, noise)
  {
    MessageOfBits(m, a);
    var bits, s := MessageBits(a), Stream(8, m);
    forall i: nat | i < N ensures bits[i] == s[i] <==> -832 <= Centred(noise[i]) <= 832 - MessageBit(m, i) {
      BitAt(m, a, noise, i);
    }
    if Tolerable(m, noise) {
      assert bits == s;
    }
  }

  lemma {:induction false} RunIsDecryption(level: Level, o: Oracles, d: seq<int>, k: KeyPair, m: seq<int>,
      coins: seq<int>)
    requires Bytes(m, SYMBYTES) && k == GenerateKeys(level, o, d)
    ensures DecryptBytes(level, EncryptBytes(level, o, k.pk, m, coins), k.sk)
      == ToMessage(RunDecrypted(level, o, d, m, coins))
  {
    KeyRoundTrip(level, o, d);
    CipherRoundTrip(level, RunCipher(level, o, d, m, coins));
  }

  /**
    Correctness of encryption: decryption returns the message if and only if the noise is tolerable. The
    condition is exact; it leaves one value less above than below for the bits that are 1.
   */
  lemma {:induction false} DecryptsIffTolerable(level: Level, o: Oracles, d: seq<int>, k: KeyPair, m: seq<int>,
      coins: seq<int>)
    requires Bytes(m, SYMBYTES) && k == GenerateKeys(level, o, d)
    ensures DecryptBytes(level, EncryptBytes(level, o, k.pk, m, coins), k.sk) == m <==>
      Tolerable(m, RunNoise(level, o, d, m, coins))
  {
    RunIsDecryption(level, o, d, k, m, coins);
    RunLeavesNoise(level, o, d, m, coins);
    RunBounded(level, o, d, m, coins);
    MessageSurvives(m, RunDecrypted(level, o, d, m, coins), RunNoise(level, o, d, m, coins));
  }
}
