/**
  What an accepted Dilithium signature says, in terms of products of polynomials and of the hash, and what a round of
  signing makes sure of.
 */
module DilithiumAcceptance {
  import opened Wrappers
  import opened ModArith
  import opened PolyRing
  import opened BitPacking
  import opened PolyPacking
  import opened NttTheory
  import opened CoefficientBounds
  import opened DilithiumParams
  import opened DilithiumReduce
  import opened DilithiumNtt
  import opened DilithiumRounding
  import opened DilithiumHintCodec
  import opened DilithiumPacking
  import opened DilithiumScheme
  import opened DilithiumBounds
  import opened DilithiumAlgebra
  import opened DilithiumSign
  import opened DilithiumVerify
  import opened DilithiumMeaning

  /** The polynomials that the matrix of a seed stands for. */
  ghost predicate MatrixOf(mode: Mode, o: Oracles, rho: seq<int>, a: seq<seq<Poly>>) {
    && |a| == mode.K()
    && forall i :: 0 <= i < |a| ==> StandsFor(seq(mode.L(), j requires 0 <= j < mode.L() => UniformPoly(o, rho, 256 * i
      + j)), a[i])
  }

  /** v is A z - 2^13 c t1, with coefficients in [0, Q). */
  ghost predicate VerifierVector(mode: Mode, a: seq<seq<Poly>>, z: seq<Poly>, c: Poly, t1: seq<Poly>, v: seq<Poly>)
    requires |a| == |t1| && IsVec(z) && IsVec(t1) && |c| == N
    requires forall i :: 0 <= i < |a| ==> |a[i]| == |z| && IsVec(a[i])
  {
    && |v| == |a| && IsVec(v)
    && forall i :: 0 <= i < |v| ==> Below(v[i], Q) && SeqCong(v[i], RingRow(a[i], z, c, t1[i]), Q)
  }

  lemma {:induction false} SameResidues(v: Poly, w: Poly, m: Poly)
    requires |v| == |w| == |m| && Below(v, Q) && Below(w, Q) && SeqCong(v, m, Q) && SeqCong(w, m, Q)
    ensures v == w
  {
    forall l | 0 <= l < |v| ensures v[l] == w[l] {
      assert Cong(v[l], m[l], Q) && Cong(w[l], m[l], Q);
      CongNear(v[l], w[l], Q);
    }
  }

  /** The vector that the verifier computes is the only one. */
  lemma {:induction false} OnlyVerifierVector(mode: Mode, o: Oracles, pk: PublicKey, s: Signature, a: seq<seq<Poly>>,
      v: seq<Poly>)
    requires PublicKeyFits(mode, pk) && SignatureFits(mode, s) && MatrixOf(mode, o, pk.rho, a)
    requires VerifierVector(mode, a, s.z, Challenge(o, s.c), pk.t1, v)
    ensures IsVec(s.h) && Rebuilt(mode, o, pk, s) == HintedVec(mode, v, s.h)
  {
    var mat, c := Matrix(mode, o, pk.rho), Challenge(o, s.c);
    MatrixBounded(mode, o, pk.rho);
    ResponsesBounded(mode, s.z);
    forall i | 0 <= i < mode.K() ensures VerifierVec(mat, s.z, PolyNtt(c), pk.t1)[i] == v[i] {
      VerifierMeans(mat[i], a[i], s.z, c, pk.t1[i]);
      VerifierPolyBelow(mat[i], s.z, c, pk.t1[i]);
      SameResidues(VerifierPoly(mat[i], VecNtt(s.z), PolyNtt(c), pk.t1[i]), v[i], RingRow(a[i], s.z, c, pk.t1[i]));
    }
    assert VerifierVec(mat, s.z, PolyNtt(c), pk.t1) == v;
  }

  /** The hash of the message and the key that is signed. */
  function BoundMessage(o: Oracles, pk: seq<int>, m: seq<int>): seq<int> {
    Squeeze(o, Squeeze(o, pk, 48) + m, 48)
  }

  /** Every coefficient is less than b away from 0. */
  predicate Inside(z: seq<Poly>, b: int) {
    forall i, l :: 0 <= i < |z| && 0 <= l < |z[i]| ==> -b < z[i][l] < b
  }

  /** The first part of the signature is the hash of the bound message and the hinted high parts of v. */
  ghost predicate ChallengeOf(mode: Mode, o: Oracles, pkBytes: seq<int>, m: seq<int>, s: Signature, v: seq<Poly>) {
    && |v| == |s.h| && IsVec(v) && IsVec(s.h) && AllFit(W1(mode), HintedVec(mode, v, s.h))
    && s.c == Squeeze(o, BoundMessage(o, pkBytes, m) + PackVec(W1(mode), HintedVec(mode, v, s.h)), 32)
  }

  /**
    A signature is accepted if and only if z is small,
      and its first part is the hash of the bound message and the hinted
    high parts of A z - 2^13 c t1.
   */
  lemma {:induction false} VerifiesIff(mode: Mode, o: Oracles, sig: seq<int>, m: seq<int>, pkBytes: seq<int>,
      pk: PublicKey,
      s: Signature, a: seq<seq<Poly>>, v: seq<Poly>)
    requires Below(sig, 256) && Bytes(pkBytes, SEEDBYTES + VecSize(T1, mode.K()))
      && pk == UnpackPublicKey(mode, pkBytes)
    requires |sig| >= SignatureSize(mode) && UnpackSignature(mode, sig[..SignatureSize(mode)]) == Some(s)
    requires MatrixOf(mode, o, pk.rho, a) && VerifierVector(mode, a, s.z, Challenge(o, s.c), pk.t1, v)
    ensures Verify(mode, o, sig, m, pkBytes)
      <==> Inside(s.z, mode.Gamma1() - mode.Beta()) && ChallengeOf(mode, o, pkBytes, m, s, v)
  {
    VerifyIsAccepts(mode, o, sig, m, pkBytes, pk, s);
    AcceptsIff(mode, o, pk, pkBytes, m, s, a, v);
  }

  lemma {:induction false} VerifyIsAccepts(mode: Mode, o: Oracles, sig: seq<int>, m: seq<int>, pkBytes: seq<int>,
      pk: PublicKey, s: Signature)
    requires Below(sig, 256) && Bytes(pkBytes, SEEDBYTES + VecSize(T1, mode.K()))
      && pk == UnpackPublicKey(mode, pkBytes)
    requires |sig| >= SignatureSize(mode) && UnpackSignature(mode, sig[..SignatureSize(mode)]) == Some(s)
    ensures Verify(mode, o, sig, m, pkBytes) <==> Accepts(mode, o, pk, BoundMessage(o, pkBytes, m), s)
  {
  }

  lemma {:induction false} AcceptsIff(mode: Mode, o: Oracles, pk: PublicKey, pkBytes: seq<int>, m: seq<int>,
      s: Signature, a: seq<seq<Poly>>, v: seq<Poly>)
    requires PublicKeyFits(mode, pk) && SignatureFits(mode, s) && MatrixOf(mode, o, pk.rho, a)
    requires VerifierVector(mode, a, s.z, Challenge(o, s.c), pk.t1, v)
    ensures Accepts(mode, o, pk, BoundMessage(o, pkBytes, m), s)
      <==> Inside(s.z, mode.Gamma1() - mode.Beta()) && ChallengeOf(mode, o, pkBytes, m, s, v)
  {
    OnlyVerifierVector(mode, o, pk, s, a, v);
  }

  /** What is too short or does not unpack is refused. */
  lemma {:induction false} Malformed(mode: Mode, o: Oracles, sig: seq<int>, m: seq<int>, pkBytes: seq<int>)
    requires Below(sig, 256) && Bytes(pkBytes, SEEDBYTES + VecSize(T1, mode.K()))
    requires |sig| < SignatureSize(mode) || UnpackSignature(mode, sig[..SignatureSize(mode)]).None?
    ensures !Verify(mode, o, sig, m, pkBytes)
  {
  }

  lemma {:induction false} ChallengeIsHash(mode: Mode, o: Oracles, sig: seq<int>, m: seq<int>, pkBytes: seq<int>,
      s: Signature)
    requires Below(sig, 256) && Bytes(pkBytes, SEEDBYTES + VecSize(T1, mode.K())) && Verify(mode, o, sig, m, pkBytes)
    requires UnpackSignature(mode, sig[..SignatureSize(mode)]) == Some(s)
    ensures s.c == sig[..32] == Squeeze(o, BoundMessage(o, pkBytes, m)
      + PackVec(W1(mode), Rebuilt(mode, o, UnpackPublicKey(mode, pkBytes), s)), 32)
  {
    assert sig[..SignatureSize(mode)][..SEEDBYTES] == sig[..32];
  }

  /**
    A signature accepted for two messages: their hashes, with the same high parts behind, hash to the
    same challenge.
   */
  lemma {:induction false} TwoMessages(mode: Mode, o: Oracles, sig: seq<int>, m: seq<int>, m': seq<int>,
      pkBytes: seq<int>)
    returns (w1: seq<int>)
    requires Below(sig, 256) && Bytes(pkBytes, SEEDBYTES + VecSize(T1, mode.K()))
    requires Verify(mode, o, sig, m, pkBytes) && Verify(mode, o, sig, m', pkBytes)
    ensures |sig| >= 32
    ensures Squeeze(o, BoundMessage(o, pkBytes, m) + w1, 32) == sig[..32]
    ensures Squeeze(o, BoundMessage(o, pkBytes, m') + w1, 32) == sig[..32]
  {
    var s := UnpackSignature(mode, sig[..SignatureSize(mode)]).value;
    ChallengeIsHash(mode, o, sig, m, pkBytes, s);
    ChallengeIsHash(mode, o, sig, m', pkBytes, s);
    w1 := PackVec(W1(mode), Rebuilt(mode, o, UnpackPublicKey(mode, pkBytes), s));
  }

  // ----- a round of signing

  /** One place: the split of w less a product, if the low part stays inside gamma2. */
  lemma {:induction false} SplitStays(mode: Mode, w: int, p: int, low: int, v: int)
    requires 0 <= w < Q && 0 <= v < Q && Cong(v, w - p, Q) && Cong(low, Decompose(mode, w).1 - p, Q)
    requires 0 - mode.Gamma2() < low < mode.Gamma2()
    ensures Decompose(mode, v).0 == Decompose(mode, w).0 && Decompose(mode, v).1 == low
  {
    var (w1, w0) := Decompose(mode, w);
    var g := 2 * mode.Gamma2();
    DecomposeExact(mode, w);
    DecomposeExact(mode, v);
    CongSub(w, w1 * g + w0, p, p, Q);
    CongAdd(low, w0 - p, w1 * g, w1 * g, Q);
    CongTrans(v, w - p, w1 * g + w0 - p, Q);
    assert w1 * g + w0 - p == w0 - p + w1 * g;
    CongTrans(v, w1 * g + w0 - p, low + w1 * g, Q) by { SymCong(low + w1 * g, w0 - p + w1 * g); }
    AdjustedSplit(mode, w1, low, v);
    var a0 := Decompose(mode, v).1;
    CongSub(v, w1 * g + a0, w1 * g, w1 * g, Q);
    CongSub(v, low + w1 * g, w1 * g, w1 * g, Q);
    CongNear(a0, low, Q);
  }

  lemma {:induction false} SymCong(a: int, b: int)
    requires Cong(a, b, Q)
    ensures Cong(b, a, Q)
  {
  }

  /** One row: what the round has checked is the low part of w - c s2, and the high part is that of w. */
  lemma {:induction false} RowStays(mode: Mode, w: Poly, c: Poly, s2: Poly, v: Poly)
    requires |w| == |c| == |s2| == |v| == N && Below(w, Q) && Below(v, Q) && SeqCong(v, Sub(w, Mul(c, s2, -1)), Q)
    requires NormBelow(LowWithout(mode, w, PolyNtt(c), PolyNtt(s2)), mode.Gamma2() - mode.Beta())
    ensures HighBits(mode, v) == HighBits(mode, w)
    ensures NormBelow(LowBits(mode, v), mode.Gamma2() - mode.Beta())
  {
    var p, m := ChallengeTimes(PolyNtt(c), PolyNtt(s2)), Mul(c, s2, -1);
    var low := LowWithout(mode, w, PolyNtt(c), PolyNtt(s2));
    NttMultiplies(c, s2);
    ReducedCong(Sub(LowBits(mode, w), p));
    forall l | 0 <= l < N
      ensures HighBits(mode, v)[l] == HighBits(mode, w)[l] && LowBits(mode, v)[l] == low[l]
    {
      assert Cong(p[l], m[l], Q) && Cong(v[l], Sub(w, m)[l], Q) && Cong(low[l], Sub(LowBits(mode, w), p)[l], Q);
      CongSub(LowBits(mode, w)[l], LowBits(mode, w)[l], p[l], m[l], Q);
      SplitStays(mode, w[l], m[l], low[l], v[l]);
    }
  }

  /** What a successful round has checked about the low bits. */
  lemma {:induction false} AttemptInside(mode: Mode, o: Oracles, x: Expanded, mu: seq<int>, rhoprime: seq<int>,
      nonce: int, s: Signature)
    requires ExpandedFits(mode, x) && Attempt(mode, o, x, mu, rhoprime, nonce) == Some(s)
    requires IsVec(MaskVec(mode, o, rhoprime, nonce))
    ensures var w := Commitments(x.mat, VecNtt(MaskVec(mode, o, rhoprime, nonce)));
      VecNormBelow(LowVec(mode, w, PolyNtt(Challenge(o, s.c)), x.s2hat), mode.Gamma2() - mode.Beta())
  {
  }

  /** The commitment of a round, one row. */
  function RoundCommitment(mode: Mode, o: Oracles, rho: seq<int>, rhoprime: seq<int>, nonce: int, i: nat): (w: Poly)
    requires i < mode.K()
    ensures |w| == N && Below(w, Q)
  {
    MatrixBounded(mode, o, rho);
    MaskBounded(mode, o, rhoprime, nonce);
    CommitmentBelow(Matrix(mode, o, rho)[i], MaskVec(mode, o, rhoprime, nonce));
    Commitment(Matrix(mode, o, rho)[i], VecNtt(MaskVec(mode, o, rhoprime, nonce)))
  }

  /**
    Whenever a round of signing succeeds: for every row i, the high bits of w - c s2 are those of w = A y, and its low
    bits stay beta inside gamma2.
   */
  lemma {:induction false} RoundKeepsHighBits(mode: Mode, o: Oracles, sk: SecretKey, mu: seq<int>, rhoprime: seq<int>,
      nonce: int, s: Signature, i: nat, w: Poly, v: Poly)
    requires SecretKeyFits(mode, sk) && Attempt(mode, o, Expand(mode, o, sk), mu, rhoprime, nonce) == Some(s)
    requires i < mode.K() && w == RoundCommitment(mode, o, sk.rho, rhoprime, nonce, i)
    requires |v| == N && Below(v, Q) && SeqCong(v, Sub(w, Mul(Challenge(o, s.c), sk.s2[i], -1)), Q)
    ensures HighBits(mode, v) == HighBits(mode, w)
    ensures NormBelow(LowBits(mode, v), mode.Gamma2() - mode.Beta())
  {
    LowOfRow(mode, o, sk, mu, rhoprime, nonce, s, i, w);
    RowStays(mode, w, Challenge(o, s.c), sk.s2[i], v);
  }

  lemma {:induction false} LowOfRow(mode: Mode, o: Oracles, sk: SecretKey, mu: seq<int>, rhoprime: seq<int>,
      nonce: int, s: Signature, i: nat, w: Poly)
    requires SecretKeyFits(mode, sk) && Attempt(mode, o, Expand(mode, o, sk), mu, rhoprime, nonce) == Some(s)
    requires i < mode.K() && w == RoundCommitment(mode, o, sk.rho, rhoprime, nonce, i)
    ensures NormBelow(LowWithout(mode, w, PolyNtt(Challenge(o, s.c)), PolyNtt(sk.s2[i])), mode.Gamma2() - mode.Beta())
  {
    var x, y := Expand(mode, o, sk), MaskVec(mode, o, rhoprime, nonce);
    MaskBounded(mode, o, rhoprime, nonce);
    AttemptInside(mode, o, x, mu, rhoprime, nonce, s);
    LowAt(mode, Commitments(x.mat, VecNtt(y)), PolyNtt(Challenge(o, s.c)), x.s2hat, i, mode.Gamma2() - mode.Beta());
  }

  lemma {:induction false} LowAt(mode: Mode, w: seq<Poly>, chat: Poly, s2hat: seq<Poly>, i: nat, b: int)
    requires |w| == |s2hat| && IsVec(w) && IsVec(s2hat) && |chat| == N && i < |w|
    requires VecNormBelow(LowVec(mode, w, chat, s2hat), b)
    ensures NormBelow(LowWithout(mode, w[i], chat, s2hat[i]), b)
  {
    assert LowVec(mode, w, chat, s2hat)[i] == LowWithout(mode, w[i], chat, s2hat[i]);
  }

  // ----- the inputs of the samplers

  /** The secrets of a key are one run of draws: no number is used twice. */
  lemma {:induction false} SecretDraws(mode: Mode, o: Oracles, seed: seq<int>)
    ensures var sk := KeyGenParts(mode, o, seed).sk;
      sk.s1 + sk.s2 == EtaVec(mode, o, Squeeze(o, seed, 96)[32..64], mode.L() + mode.K(), 0)
  {
    SecretsAre(mode, o, seed);
    RunsJoined(mode, o, Squeeze(o, seed, 96)[32..64], mode.L(), mode.K());
  }

  lemma {:induction false} SecretsAre(mode: Mode, o: Oracles, seed: seq<int>)
    ensures var sk := KeyGenParts(mode, o, seed).sk;
      && sk.s1 == EtaVec(mode, o, Squeeze(o, seed, 96)[32..64], mode.L(), 0)
      && sk.s2 == EtaVec(mode, o, Squeeze(o, seed, 96)[32..64], mode.K(), mode.L())
  {
  }

  lemma {:induction false} RunsJoined(mode: Mode, o: Oracles, seed: seq<int>, n: nat, m: nat)
    ensures EtaVec(mode, o, seed, n, 0) + EtaVec(mode, o, seed, m, n) == EtaVec(mode, o, seed, n + m, 0)
  {
  }

  /** The masks of round n are the draws from L n on, numbered in 16 bits, so rounds do not share them. */
  lemma {:induction false} MaskDraws(mode: Mode, o: Oracles, rhoprime: seq<int>, n: nat, i: nat, p: nat)
    requires i < mode.L() && p == mode.L() * n + i && p < 0x1_0000
    ensures MaskVec(mode, o, rhoprime, n)[i] == MaskPoly(mode, o, rhoprime, p)
  {
  }
}
