/** Verification, and why it accepts every signature that signing returns. */
module DilithiumVerify {
  import opened Wrappers
  import opened ModArith
  import opened PolyRing
  import opened BitPacking
  import opened DilithiumParams
  import opened DilithiumReduce
  import opened DilithiumNtt
  import opened CoefficientBounds
  import opened DilithiumNttLoops
  import opened DilithiumRounding
  import opened DilithiumHintCodec
  import opened PolyPacking
  import opened DilithiumPacking
  import opened DilithiumScheme
  import opened DilithiumBounds
  import opened DilithiumAlgebra
  import opened DilithiumSign

  function VerifierVec(mat: seq<seq<Poly>>, z: seq<Poly>, chat: Poly, t1: seq<Poly>): (v: seq<Poly>)
    requires IsVec(z) && IsVec(t1) && |chat| == N && |t1| == |mat|
    requires forall i :: 0 <= i < |mat| ==> |mat[i]| == |z| && IsVec(mat[i])
    ensures |v| == |mat| && IsVec(v)
  {
    seq(|mat|, i requires 0 <= i < |mat| => VerifierPoly(mat[i], VecNtt(z), chat, t1[i]))
  }

  function HintedVec(mode: Mode, v: seq<Poly>, h: seq<Poly>): (w1: seq<Poly>)
    requires |v| == |h| && IsVec(v) && IsVec(h)
    ensures |w1| == |v|
  {
    seq(|v|, i requires 0 <= i < |v| => Hinted(mode, v[i], h[i]))
  }

  lemma {:induction false} VerifierPolyBelow(row: seq<Poly>, z: seq<Poly>, c: Poly, t1: Poly)
    requires |row| == |z| <= 8 && VecBounded(row, Q - 1) && VecBounded(z, Q - 1)
    requires |c| == N && Bounded(c, 1) && Fits(T1, t1)
    ensures Below(VerifierPoly(row, VecNtt(z), PolyNtt(c), t1), Q)
  {
    var acc, p := Accumulate(row, VecNtt(z)), Pointwise(PolyNtt(c), PolyNtt(Shifted(t1)));
    VecNttBounded(z);
    AccumulateBounded(row, VecNtt(z));
    ShiftedBounded(t1);
    NttBounded(c);
    NttBounded(Shifted(t1));
    PointwiseBounded(PolyNtt(c), PolyNtt(Shifted(t1)));
    DifferenceBounded(acc, p, |row|);
    InvNttBounded(Reduced(Sub(acc, p)));
    CanonicalBelow(PolyInvNtt(Reduced(Sub(acc, p))));
  }

  /** Ten bits shifted by thirteen do not exceed Q - 1. */
  lemma {:induction false} ShiftedBounded(t1: Poly)
    requires Fits(T1, t1)
    ensures Bounded(Shifted(t1), Q - 1)
  {
    assert Pow2(10) == 1024;
  }

  lemma {:induction false} DifferenceBounded(a: Poly, b: Poly, n: nat)
    requires |a| == |b| && Bounded(a, n * Q) && Bounded(b, Q - 1) && n <= 8
    ensures Bounded(Reduced(Sub(a, b)), Q - 1)
  {
    MulMono(n, 8, Q);
    ReducedBounded(Sub(a, b));
  }

  lemma {:induction false} UseHintRange(mode: Mode, v: int, h: int)
    requires 0 <= v < Q
    ensures 0 <= UseHint(mode, v, h) < HighCount(mode)
  {
    DecomposeExact(mode, v);
  }

  lemma {:induction false} HintedFits(mode: Mode, v: Poly, h: Poly)
    requires |v| == |h| == N && Below(v, Q)
    ensures Fits(W1(mode), Hinted(mode, v, h))
  {
    assert Pow2(4) == 16 && Pow2(6) == 64;
    forall i | 0 <= i < N ensures 0 <= Hinted(mode, v, h)[i] < Pow2(mode.W1Bits()) {
      UseHintRange(mode, v[i], h[i]);
    }
  }

  lemma {:induction false} VerifierVecFits(mode: Mode, mat: seq<seq<Poly>>, z: seq<Poly>, c: Poly, t1: seq<Poly>,
      h: seq<Poly>)
    requires IsMatrix(mat, mode.L()) && |z| == mode.L() && AllFit(Z(mode), z)
    requires |c| == N && Bounded(c, 1) && |t1| == |h| == |mat| && AllFit(T1, t1) && IsVec(h)
    ensures AllFit(W1(mode), HintedVec(mode, VerifierVec(mat, z, PolyNtt(c), t1), h))
    ensures forall i :: 0 <= i < |mat| ==> Below(VerifierVec(mat, z, PolyNtt(c), t1)[i], Q)
  {
    var v := VerifierVec(mat, z, PolyNtt(c), t1);
    forall i | 0 <= i < |z| ensures |z[i]| == N && Bounded(z[i], Q - 1) {
      ZBounded(mode, z[i]);
    }
    forall i | 0 <= i < |mat| ensures Below(v[i], Q) && Fits(W1(mode), HintedVec(mode, v, h)[i]) {
      VerifierPolyBelow(mat[i], z, c, t1[i]);
      HintedFits(mode, v[i], h[i]);
    }
  }

  /** The high bits the verifier rebuilds. */
  function Rebuilt(mode: Mode, o: Oracles, pk: PublicKey, s: Signature): (w1: seq<Poly>)
    requires PublicKeyFits(mode, pk) && SignatureFits(mode, s)
    ensures AllFit(W1(mode), w1)
  {
    var mat, c := Matrix(mode, o, pk.rho), Challenge(o, s.c);
    MatrixBounded(mode, o, pk.rho);
    VerifierVecFits(mode, mat, s.z, c, pk.t1, s.h);
    HintedVec(mode, VerifierVec(mat, s.z, PolyNtt(c), pk.t1), s.h)
  }

  /** The decision, once everything is unpacked. */
  predicate Accepts(mode: Mode, o: Oracles, pk: PublicKey, mu: seq<int>, s: Signature)
    requires PublicKeyFits(mode, pk) && SignatureFits(mode, s)
  {
    && VecNormBelow(s.z, mode.Gamma1() - mode.Beta())
    && s.c == ChallengeSeed(mode, o, mu, Rebuilt(mode, o, pk, s))
  }

  /** Verification; bytes after the signature are not looked at. */
  predicate Verify(mode: Mode, o: Oracles, sig: seq<int>, m: seq<int>, pkBytes: seq<int>)
    requires Below(sig, 256) && Bytes(pkBytes, SEEDBYTES + VecSize(T1, mode.K()))
  {
    && |sig| >= SignatureSize(mode)
    && var s := UnpackSignature(mode, sig[..SignatureSize(mode)]);
       s.Some? && Accepts(mode, o, UnpackPublicKey(mode, pkBytes), MessageHash(o, Squeeze(o, pkBytes, CRHBYTES), m),
         s.value)
  }

  /** The message of a signed message, if the signature in front of it is right. */
  function Open(mode: Mode, o: Oracles, sm: seq<int>, pkBytes: seq<int>): (m: Option<seq<int>>)
    requires Below(sm, 256) && Bytes(pkBytes, SEEDBYTES + VecSize(T1, mode.K()))
  {
    var n := SignatureSize(mode);
    if |sm| >= n && Verify(mode, o, sm[..n], sm[n..], pkBytes) then Some(sm[n..]) else None
  }

  // ----- completeness

  /** The value of w at one place in terms of its parts. */
  lemma {:induction false} PlaceRecovered(mode: Mode, w: int, p: int, q: int, low: int, corr: int, v: int)
    requires 0 <= w < Q && 0 <= v < Q && Cong(v, w - p + q, Q)
    requires Cong(low, Decompose(mode, w).1 - p, Q) && Cong(corr, q, Q)
    requires 0 - mode.Gamma2() < low < mode.Gamma2() && 0 - mode.Gamma2() < corr < mode.Gamma2()
    ensures UseHint(mode, v, MakeHint(mode, CaddQ(low + corr), Decompose(mode, w).0)) == Decompose(mode, w).0
  {
    var (w1, w0) := Decompose(mode, w);
    var g := 2 * mode.Gamma2();
    DecomposeExact(mode, w);
    CongAdd(low, w0 - p, corr, q, Q);
    CongAdd(low + corr, w0 - p + q, w1 * g, w1 * g, Q);
    CongAdd(w, w1 * g + w0, q - p, q - p, Q);
    HintRecovers(mode, w1, low + corr, CaddQ(low + corr), v);
  }

  /** One row: the hints give the verifier the signer's high bits. */
  lemma {:induction false} RowRecovered(mode: Mode, row: seq<Poly>, s1hat: seq<Poly>, s2: Poly, t1: Poly, t0: Poly,
                                        y: seq<Poly>, chat: Poly, z: seq<Poly>)
    requires KeyRow(row, s1hat, s2, t1, t0)
    requires |y| == |z| == |row| && IsVec(y) && IsVec(z) && |chat| == N
    requires forall j :: 0 <= j < |row| ==> z[j] == Response(chat, s1hat[j], y[j])
    requires Below(Commitment(row, VecNtt(y)), Q) && Below(VerifierPoly(row, VecNtt(z), chat, t1), Q)
    requires NormBelow(LowWithout(mode, Commitment(row, VecNtt(y)), chat, PolyNtt(s2)), mode.Gamma2())
    requires NormBelow(Correction(chat, PolyNtt(t0)), mode.Gamma2())
    ensures var w := Commitment(row, VecNtt(y));
      var low, corr := LowWithout(mode, w, chat, PolyNtt(s2)), Correction(chat, PolyNtt(t0));
      Hinted(mode, VerifierPoly(row, VecNtt(z), chat, t1), HintPoly(mode, Canonical(Add(low, corr)),
        HighBits(mode, w))) == HighBits(mode, w)
  {
    VerifierSees(row, s1hat, s2, t1, t0, y, chat, z);
    PolyRecovered(mode, Commitment(row, VecNtt(y)), chat, PolyNtt(s2), PolyNtt(t0),
      VerifierPoly(row, VecNtt(z), chat, t1));
  }

  lemma {:induction false} PolyRecovered(mode: Mode, w: Poly, chat: Poly, s2hat: Poly, t0hat: Poly, v: Poly)
    requires |w| == |v| == |chat| == |s2hat| == |t0hat| == N && Below(w, Q) && Below(v, Q)
    requires SeqCong(v, Moved(w, chat, s2hat, t0hat), Q)
    requires NormBelow(LowWithout(mode, w, chat, s2hat), mode.Gamma2())
      && NormBelow(Correction(chat, t0hat), mode.Gamma2())
    ensures var low, corr := LowWithout(mode, w, chat, s2hat), Correction(chat, t0hat);
      Hinted(mode, v, HintPoly(mode, Canonical(Add(low, corr)), HighBits(mode, w))) == HighBits(mode, w)
  {
    var low, corr := LowWithout(mode, w, chat, s2hat), Correction(chat, t0hat);
    var p, q := ChallengeTimes(chat, s2hat), ChallengeTimes(chat, t0hat);
    var h := HintPoly(mode, Canonical(Add(low, corr)), HighBits(mode, w));
    ReducedCong(Sub(LowBits(mode, w), p));
    ReducedCong(q);
    forall l | 0 <= l < N ensures Hinted(mode, v, h)[l] == HighBits(mode, w)[l] {
      assert Cong(v[l], Moved(w, chat, s2hat, t0hat)[l], Q);
      assert Cong(low[l], Sub(LowBits(mode, w), p)[l], Q) && Cong(corr[l], q[l], Q);
      PlaceRecovered(mode, w[l], p[l], q[l], low[l], corr[l], v[l]);
    }
  }

  /** One row of a public key and a secret key made together. */
  ghost predicate MatchingRow(mode: Mode, o: Oracles, pk: PublicKey, sk: SecretKey, i: nat)
    requires PublicKeyFits(mode, pk) && SecretKeyFits(mode, sk) && i < mode.K()
  {
    var row := Matrix(mode, o, sk.rho)[i];
    IsVec(row) && KeyRow(row, VecNtt(sk.s1), sk.s2[i], pk.t1[i], sk.t0[i])
  }

  /** A public key and a secret key made together. */
  ghost predicate Matching(mode: Mode, o: Oracles, pk: PublicKey, sk: SecretKey) {
    && PublicKeyFits(mode, pk) && SecretKeyFits(mode, sk) && pk.rho == sk.rho
    && forall i :: 0 <= i < mode.K() ==> MatchingRow(mode, o, pk, sk, i)
  }

  /** A signature made from the masks y, all rejection conditions on hints passed. */
  ghost predicate Honest(mode: Mode, x: Expanded, chat: Poly, y: seq<Poly>, z: seq<Poly>, h: seq<Poly>)
    requires ExpandedFits(mode, x) && |chat| == N && |y| == mode.L() && IsVec(y)
  {
    var w := Commitments(x.mat, VecNtt(y));
    var low, corr := LowVec(mode, w, chat, x.s2hat), Corrections(chat, x.t0hat);
    && z == Responses(chat, x.s1hat, y)
    && VecNormBelow(low, mode.Gamma2()) && VecNormBelow(corr, mode.Gamma2())
    && IsVec(HighVec(mode, w)) && h == HintVec(mode, low, corr, HighVec(mode, w))
  }

  /** What a successful round delivers. */
  lemma {:induction false} AttemptHonest(mode: Mode, o: Oracles, x: Expanded, mu: seq<int>, rhoprime: seq<int>,
      nonce: int)
    requires ExpandedFits(mode, x) && Attempt(mode, o, x, mu, rhoprime, nonce).Some?
    ensures var s, y := Attempt(mode, o, x, mu, rhoprime, nonce).value, MaskVec(mode, o, rhoprime, nonce);
      && VecBounded(y, Q - 1)
      && Honest(mode, x, PolyNtt(Challenge(o, s.c)), y, s.z, s.h)
      && VecNormBelow(s.z, mode.Gamma1() - mode.Beta())
      && AllFit(W1(mode), HighVec(mode, Commitments(x.mat, VecNtt(y))))
      && s.c == ChallengeSeed(mode, o, mu, HighVec(mode, Commitments(x.mat, VecNtt(y))))
  {
    var y := MaskVec(mode, o, rhoprime, nonce);
    MaskBounded(mode, o, rhoprime, nonce);
    CommitmentsBelow(mode, x.mat, y);
  }

  /** One row that the verifier rebuilds. */
  lemma {:induction false} RebuiltRow(mode: Mode, x: Expanded, c: Poly, y: seq<Poly>, z: seq<Poly>, h: seq<Poly>,
                                      s1: seq<Poly>, s2: Poly, t1: Poly, t0: Poly, i: nat)
    requires ExpandedFits(mode, x) && |c| == N && Bounded(c, 1) && |y| == mode.L() && VecBounded(y, Q - 1)
      && |z| == mode.L() && AllFit(Z(mode), z)
    requires Honest(mode, x, PolyNtt(c), y, z, h) && i < mode.K()
    requires IsVec(s1) && x.s1hat == VecNtt(s1) && Fits(T1, t1) && KeyRow(x.mat[i], VecNtt(s1), s2, t1, t0)
    requires x.s2hat[i] == PolyNtt(s2) && x.t0hat[i] == PolyNtt(t0)
    ensures Hinted(mode, VerifierPoly(x.mat[i], VecNtt(z), PolyNtt(c), t1), h[i])
      == HighBits(mode, Commitment(x.mat[i], VecNtt(y)))
  {
    var chat := PolyNtt(c);
    var w := Commitment(x.mat[i], VecNtt(y));
    assert LowVec(mode, Commitments(x.mat, VecNtt(y)), chat, x.s2hat)[i] == LowWithout(mode, w, chat, PolyNtt(s2));
    assert Corrections(chat, x.t0hat)[i] == Correction(chat, PolyNtt(t0));
    CommitmentBelow(x.mat[i], y);
    ResponsesBounded(mode, z);
    VerifierPolyBelow(x.mat[i], z, c, t1);
    RowRecovered(mode, x.mat[i], x.s1hat, s2, t1, t0, y, chat, z);
  }

  lemma {:induction false} ResponsesBounded(mode: Mode, z: seq<Poly>)
    requires AllFit(Z(mode), z)
    ensures VecBounded(z, Q - 1)
  {
    forall i | 0 <= i < |z| ensures |z[i]| == N && Bounded(z[i], Q - 1) {
      ZBounded(mode, z[i]);
    }
  }

  /** The verifier rebuilds the very high bits that the signer hashed. */
  lemma {:induction false} RebuiltIsHigh(mode: Mode, o: Oracles, pk: PublicKey, sk: SecretKey, y: seq<Poly>,
      s: Signature)
    requires Matching(mode, o, pk, sk) && SignatureFits(mode, s)
    requires |y| == mode.L() && VecBounded(y, Q - 1)
    requires Honest(mode, Expand(mode, o, sk), PolyNtt(Challenge(o, s.c)), y, s.z, s.h)
    ensures Rebuilt(mode, o, pk, s) == HighVec(mode, Commitments(Matrix(mode, o, sk.rho), VecNtt(y)))
  {
    RebuiltRows(mode, o, pk, sk, y, s, Rebuilt(mode, o, pk, s),
      HighVec(mode, Commitments(Matrix(mode, o, sk.rho), VecNtt(y))));
  }

  lemma {:induction false} RebuiltRows(mode: Mode, o: Oracles, pk: PublicKey, sk: SecretKey, y: seq<Poly>,
      s: Signature, rebuilt: seq<Poly>, high: seq<Poly>)
    requires Matching(mode, o, pk, sk) && SignatureFits(mode, s) && |y| == mode.L() && VecBounded(y, Q - 1)
    requires Honest(mode, Expand(mode, o, sk), PolyNtt(Challenge(o, s.c)), y, s.z, s.h)
    requires rebuilt == Rebuilt(mode, o, pk, s) && |rebuilt| == |high| == mode.K()
    requires high == HighVec(mode, Commitments(Matrix(mode, o, sk.rho), VecNtt(y)))
    ensures rebuilt == high
  {
    forall i: nat | i < mode.K() ensures rebuilt[i] == high[i] {
      RebuiltAt(mode, o, pk, sk, y, s, i);
    }
  }

  lemma {:induction false} RebuiltAt(mode: Mode, o: Oracles, pk: PublicKey, sk: SecretKey, y: seq<Poly>, s: Signature,
      i: nat)
    requires PublicKeyFits(mode, pk) && SecretKeyFits(mode, sk) && pk.rho == sk.rho && SignatureFits(mode, s)
    requires i < mode.K() && MatchingRow(mode, o, pk, sk, i) && |y| == mode.L() && VecBounded(y, Q - 1)
    requires Honest(mode, Expand(mode, o, sk), PolyNtt(Challenge(o, s.c)), y, s.z, s.h)
    ensures |Rebuilt(mode, o, pk, s)| == mode.K()
    ensures Rebuilt(mode, o, pk, s)[i] == HighBits(mode, Commitment(Matrix(mode, o, sk.rho)[i], VecNtt(y)))
  {
    RebuiltRow(mode, Expand(mode, o, sk), Challenge(o, s.c), y, s.z, s.h, sk.s1, sk.s2[i], pk.t1[i], sk.t0[i], i);
  }

  lemma {:induction false} AttemptAccepted(mode: Mode, o: Oracles, pk: PublicKey, sk: SecretKey, mu: seq<int>,
      rhoprime: seq<int>, nonce: int)
    requires Matching(mode, o, pk, sk)
    requires Attempt(mode, o, Expand(mode, o, sk), mu, rhoprime, nonce).Some?
    ensures Accepts(mode, o, pk, mu, Attempt(mode, o, Expand(mode, o, sk), mu, rhoprime, nonce).value)
  {
    AttemptHonest(mode, o, Expand(mode, o, sk), mu, rhoprime, nonce);
    RebuiltIsHigh(mode, o, pk, sk, MaskVec(mode, o, rhoprime, nonce),
      Attempt(mode, o, Expand(mode, o, sk), mu, rhoprime, nonce).value);
  }

  lemma {:induction false} SignAccepted(mode: Mode, o: Oracles, pk: PublicKey, sk: SecretKey, mu: seq<int>,
      rhoprime: seq<int>, attempts: nat)
    requires Matching(mode, o, pk, sk) && SignParts(mode, o, sk, mu, rhoprime, attempts).Some?
    ensures Accepts(mode, o, pk, mu, SignParts(mode, o, sk, mu, rhoprime, attempts).value)
  {
    var x := Expand(mode, o, sk);
    var round := nonce => Attempt(mode, o, x, mu, rhoprime, nonce);
    var n: nat :| round(n) == FirstSuccess(round, 0, attempts);
    AttemptAccepted(mode, o, pk, sk, mu, rhoprime, n);
  }

  lemma {:induction false} KeyGenMatches(mode: Mode, o: Oracles, seed: seq<int>)
    ensures var k := KeyGenParts(mode, o, seed);
      Matching(mode, o, k.pk, k.sk) && k.sk.tr == Squeeze(o, PackPublicKey(mode, k.pk), CRHBYTES)
  {
    var k := KeyGenParts(mode, o, seed);
    var mat := Matrix(mode, o, k.sk.rho);
    var s1, s2 := k.sk.s1, k.sk.s2;
    var buf := Squeeze(o, seed, 3 * SEEDBYTES);
    MatrixBounded(mode, o, k.sk.rho);
    EtaVecFits(mode, o, buf[SEEDBYTES..2 * SEEDBYTES], mode.L(), 0);
    EtaVecFits(mode, o, buf[SEEDBYTES..2 * SEEDBYTES], mode.K(), mode.L());
    forall i | 0 <= i < mode.K() ensures MatchingRow(mode, o, k.pk, k.sk, i) {
      PublicPolySplits(mat[i], s1, s2[i]);
      SeqCongSame(PublicPoly(mat[i], VecNtt(s1), s2[i]), Q);
    }
  }

  /** A packed signature is accepted when its parts are. */
  lemma {:induction false} VerifyPacked(mode: Mode, o: Oracles, pk: PublicKey, m: seq<int>, s: Signature)
    requires PublicKeyFits(mode, pk) && SignatureFits(mode, s)
    requires Accepts(mode, o, pk, MessageHash(o, Squeeze(o, PackPublicKey(mode, pk), CRHBYTES), m), s)
    ensures Verify(mode, o, PackSignature(mode, s), m, PackPublicKey(mode, pk))
  {
    var sig := PackSignature(mode, s);
    PublicKeyRoundTrip(mode, pk);
    SignatureRoundTrip(mode, s);
    assert sig[..SignatureSize(mode)] == sig;
  }

  /**
    Completeness: whatever the key seed, the message, the hash functions and the number of rounds, a
    signature that signing returns is accepted under the public key made with the signing key.
   */
  lemma {:induction false} VerifyAcceptsSign(mode: Mode, o: Oracles, seed: seq<int>, k: KeyPair, m: seq<int>,
                                             random: Option<seq<int>>, attempts: nat, sig: seq<int>)
    requires k == KeyGen(mode, o, seed) && Sign(mode, o, k.sk, m, random, attempts) == Some(sig)
    ensures Verify(mode, o, sig, m, k.pk)
  {
    var parts := KeyGenParts(mode, o, seed);
    KeyGenMatches(mode, o, seed);
    var mu := MessageHash(o, parts.sk.tr, m);
    SignUnpacked(mode, o, parts.sk, k.sk, m, random, attempts, mu, sig);
    PartsAccepted(mode, o, parts, m, mu, Rhoprime(o, parts.sk, mu, random), attempts, k.pk, sig);
  }

  /** The seed of the masks. */
  function Rhoprime(o: Oracles, sk: SecretKey, mu: seq<int>, random: Option<seq<int>>): seq<int> {
    if random.Some? then random.value else Squeeze(o, sk.key + mu, CRHBYTES)
  }

  /** Signing with a packed key is signing with its parts. */
  lemma {:induction false} SignUnpacked(mode: Mode, o: Oracles, sk: SecretKey, bytes: seq<int>, m: seq<int>,
      random: Option<seq<int>>, attempts: nat, mu: seq<int>, sig: seq<int>)
    requires SecretKeyFits(mode, sk) && bytes == PackSecretKey(mode, sk) && Bytes(bytes, SecretKeySize(mode, 3))
    requires mu == MessageHash(o, sk.tr, m) && Sign(mode, o, bytes, m, random, attempts) == Some(sig)
    ensures var r := SignParts(mode, o, sk, mu, Rhoprime(o, sk, mu, random), attempts);
      r.Some? && sig == PackSignature(mode, r.value)
  {
    SecretKeyRoundTrip(mode, sk);
  }

  /** The same for keys that are not packed. */
  lemma {:induction false} PartsAccepted(mode: Mode, o: Oracles, parts: KeyParts, m: seq<int>, mu: seq<int>,
      rhoprime: seq<int>, attempts: nat, pk: seq<int>, sig: seq<int>)
    requires PublicKeyFits(mode, parts.pk) && SecretKeyFits(mode, parts.sk) && pk == PackPublicKey(mode, parts.pk)
    requires Matching(mode, o, parts.pk, parts.sk) && parts.sk.tr == Squeeze(o, PackPublicKey(mode, parts.pk), CRHBYTES)
    requires mu == MessageHash(o, parts.sk.tr, m)
    requires var r := SignParts(mode, o, parts.sk, mu, rhoprime, attempts);
      r.Some? && sig == PackSignature(mode, r.value)
    ensures Verify(mode, o, sig, m, pk)
  {
    SignAccepted(mode, o, parts.pk, parts.sk, mu, rhoprime, attempts);
    VerifyPacked(mode, o, parts.pk, m, SignParts(mode, o, parts.sk, mu, rhoprime, attempts).value);
  }

  /** Opening a signed message gives the message back. */
  lemma {:induction false} OpenSignedMessage(mode: Mode, o: Oracles, seed: seq<int>, k: KeyPair, m: seq<int>,
                                             random: Option<seq<int>>, attempts: nat, sm: seq<int>)
    requires k == KeyGen(mode, o, seed) && Below(m, 256) && SignMessage(mode, o, k.sk, m, random, attempts) == Some(sm)
    ensures Below(sm, 256) && Open(mode, o, sm, k.pk) == Some(m)
  {
    var sig := SignedSplits(mode, o, k.sk, m, random, attempts, sm);
    VerifyAcceptsSign(mode, o, seed, k, m, random, attempts, sig);
    OpenSplits(mode, o, sig, m, k.pk);
    assert Below(sm, 256);
  }

  lemma {:induction false} SignedSplits(mode: Mode, o: Oracles, sk: seq<int>, m: seq<int>, random: Option<seq<int>>,
      attempts: nat, sm: seq<int>)
    returns (sig: seq<int>)
    requires Bytes(sk, SecretKeySize(mode, 3)) && SignMessage(mode, o, sk, m, random, attempts) == Some(sm)
    ensures Bytes(sig, SignatureSize(mode)) && sm == sig + m && Sign(mode, o, sk, m, random, attempts) == Some(sig)
  {
    sig := Sign(mode, o, sk, m, random, attempts).value;
  }

  lemma {:induction false} OpenSplits(mode: Mode, o: Oracles, sig: seq<int>, m: seq<int>, pk: seq<int>)
    requires Bytes(sig, SignatureSize(mode)) && Below(m, 256) && Bytes(pk, SEEDBYTES + VecSize(T1, mode.K()))
    ensures Below(sig + m, 256) && Open(mode, o, sig + m, pk) == if Verify(mode, o, sig, m, pk) then Some(m) else None
  {
    var n := SignatureSize(mode);
    assert (sig + m)[..n] == sig && (sig + m)[n..] == m;
  }
}
