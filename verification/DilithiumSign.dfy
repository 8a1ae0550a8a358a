/** The three public operations of the Dilithium reference code, on bytes. */
module DilithiumSign {
  import opened Wrappers
  import opened ModArith
  import opened PolyRing
  import opened BitPacking
  import opened DilithiumParams
  import opened DilithiumReduce
  import opened DilithiumNtt
  import opened CoefficientBounds
  import opened DilithiumNttLoops
  import opened DilithiumRounding
  import opened DilithiumHintCodec
  import opened PolyPacking
  import opened DilithiumPacking
  import opened DilithiumScheme
  import opened DilithiumBounds

  // ----- key generation

  function PublicVec(mat: seq<seq<Poly>>, s1: seq<Poly>, s2: seq<Poly>): (t: seq<Poly>)
    requires |mat| == |s2| && IsVec(s1) && IsVec(s2)
    requires forall i :: 0 <= i < |mat| ==> |mat[i]| == |s1| && IsVec(mat[i])
    ensures |t| == |mat| && IsVec(t)
  {
    seq(|mat|, i requires 0 <= i < |mat| => PublicPoly(mat[i], VecNtt(s1), s2[i]))
  }

  function Highs(t: seq<Poly>): (v: seq<Poly>)
    ensures |v| == |t|
  {
    seq(|t|, i requires 0 <= i < |t| => RoundHigh(t[i]))
  }

  function Lows(t: seq<Poly>): (v: seq<Poly>)
    ensures |v| == |t|
  {
    seq(|t|, i requires 0 <= i < |t| => RoundLow(t[i]))
  }

  predicate IsMatrix(mat: seq<seq<Poly>>, l: nat) {
    forall i :: 0 <= i < |mat| ==> |mat[i]| == l && VecBounded(mat[i], Q - 1)
  }

  predicate IsSmall(v: seq<Poly>) {
    VecBounded(v, 4)
  }

  lemma {:induction false} MatrixBounded(mode: Mode, o: Oracles, rho: seq<int>)
    ensures IsMatrix(Matrix(mode, o, rho), mode.L())
  {
    var mat := Matrix(mode, o, rho);
    forall i, j | 0 <= i < |mat| && 0 <= j < mode.L() ensures |mat[i][j]| == N && Bounded(mat[i][j], Q - 1) {
      assert mat[i][j] == UniformPoly(o, rho, 256 * i + j);
    }
  }

  lemma {:induction false} EtaVecFits(mode: Mode, o: Oracles, seed: seq<int>, n: nat, nonce: int)
    ensures var v := EtaVec(mode, o, seed, n, nonce); IsSmall(v) && AllFit(Eta(mode), v)
  {
    var v := EtaVec(mode, o, seed, n, nonce);
    assert Pow2(3) == 8 && Pow2(4) == 16;
    forall i | 0 <= i < n ensures |v[i]| == N && Bounded(v[i], 4) && Fits(Eta(mode), v[i]) {
      assert v[i] == EtaPoly(mode, o, seed, nonce + i);
    }
  }

  /** The public vector stays close enough to [0, Q) for its split to fit ten and thirteen bits. */
  lemma {:induction false} PublicPolySplits(row: seq<Poly>, s1: seq<Poly>, s2: Poly)
    requires |row| == |s1| <= 8 && VecBounded(row, Q - 1) && IsSmall(s1) && |s2| == N && Bounded(s2, 4)
    ensures var t := PublicPoly(row, VecNtt(s1), s2);
      Fits(T1, RoundHigh(t)) && Fits(T0, RoundLow(t)) && t == Add(Shifted(RoundHigh(t)), RoundLow(t))
  {
    var r := RowTimes(row, VecNtt(s1));
    VecNttBounded(s1);
    RowTimesBounded(row, VecNtt(s1));
    SumSplits(r, s2);
  }

  lemma {:induction false} SumSplits(r: Poly, s2: Poly)
    requires |r| == |s2| == N && Bounded(r, Q - 1) && Bounded(s2, 4)
    ensures var t := Canonical(Add(r, s2));
      Fits(T1, RoundHigh(t)) && Fits(T0, RoundLow(t)) && t == Add(Shifted(RoundHigh(t)), RoundLow(t))
  {
    var t := Canonical(Add(r, s2));
    assert Pow2(10) == 1024 && Pow2(13) == 0x2000;
    forall i | 0 <= i < N
      ensures 0 <= RoundHigh(t)[i] < 1024 && -0x1000 < RoundLow(t)[i] <= 0x1000
      ensures t[i] == RoundHigh(t)[i] * 0x2000 + RoundLow(t)[i]
    {
      Power2RoundExact(t[i]);
    }
  }

  datatype KeyPair = KeyPair(pk: seq<int>, sk: seq<int>)

  /** What a key pair consists of before it is packed. */
  datatype KeyParts = KeyParts(pk: PublicKey, sk: SecretKey)

  function KeyGenParts(mode: Mode, o: Oracles, seed: seq<int>): (k: KeyParts)
    ensures PublicKeyFits(mode, k.pk) && SecretKeyFits(mode, k.sk)
  {
    var buf := Squeeze(o, seed, 3 * SEEDBYTES);
    var rho, rhoprime, key := buf[..SEEDBYTES], buf[SEEDBYTES..2 * SEEDBYTES], buf[2 * SEEDBYTES..];
    var mat := Matrix(mode, o, rho);
    var s1, s2 := EtaVec(mode, o, rhoprime, mode.L(), 0), EtaVec(mode, o, rhoprime, mode.K(), mode.L());
    MatrixBounded(mode, o, rho);
    EtaVecFits(mode, o, rhoprime, mode.L(), 0);
    EtaVecFits(mode, o, rhoprime, mode.K(), mode.L());
    var t := PublicVec(mat, s1, s2);
    KeyVectorsFit(mode, mat, s1, s2);
    var pk := PublicKey(rho, Highs(t));
    var tr := Squeeze(o, PackPublicKey(mode, pk), CRHBYTES);
    KeyParts(pk, SecretKey(rho, key, tr, s1, s2, Lows(t)))
  }

  lemma {:induction false} KeyVectorsFit(mode: Mode, mat: seq<seq<Poly>>, s1: seq<Poly>, s2: seq<Poly>)
    requires |mat| == |s2| == mode.K() && |s1| == mode.L() && IsMatrix(mat, mode.L()) && IsSmall(s1) && IsSmall(s2)
    ensures var t := PublicVec(mat, s1, s2); AllFit(T1, Highs(t)) && AllFit(T0, Lows(t))
  {
    var t := PublicVec(mat, s1, s2);
    forall i | 0 <= i < |t| ensures Fits(T1, Highs(t)[i]) && Fits(T0, Lows(t)[i]) {
      PublicPolySplits(mat[i], s1, s2[i]);
    }
  }

  /** Key generation from the seed the random generator delivers. */
  function KeyGen(mode: Mode, o: Oracles, seed: seq<int>): (k: KeyPair)
    ensures Bytes(k.pk, SEEDBYTES + VecSize(T1, mode.K())) && Bytes(k.sk, SecretKeySize(mode, 3))
  {
    var parts := KeyGenParts(mode, o, seed);
    KeyPair(PackPublicKey(mode, parts.pk), PackSecretKey(mode, parts.sk))
  }

  // ----- signing

  /** The parts of a secret key, in the transform domain. */
  datatype Expanded = Expanded(mat: seq<seq<Poly>>, s1hat: seq<Poly>, s2hat: seq<Poly>, t0hat: seq<Poly>)

  predicate ExpandedFits(mode: Mode, x: Expanded) {
    && |x.mat| == |x.s2hat| == |x.t0hat| == mode.K() && IsMatrix(x.mat, mode.L())
    && |x.s1hat| == mode.L() && IsVec(x.s1hat) && IsVec(x.s2hat) && IsVec(x.t0hat)
  }

  function Commitments(mat: seq<seq<Poly>>, yhat: seq<Poly>): (w: seq<Poly>)
    requires IsVec(yhat) && forall i :: 0 <= i < |mat| ==> |mat[i]| == |yhat| && IsVec(mat[i])
    ensures |w| == |mat| && IsVec(w)
  {
    seq(|mat|, i requires 0 <= i < |mat| => Commitment(mat[i], yhat))
  }

  function HighVec(mode: Mode, w: seq<Poly>): (v: seq<Poly>)
    ensures |v| == |w|
  {
    seq(|w|, i requires 0 <= i < |w| => HighBits(mode, w[i]))
  }

  function Responses(chat: Poly, s1hat: seq<Poly>, y: seq<Poly>): (z: seq<Poly>)
    requires |chat| == N && |s1hat| == |y| && IsVec(s1hat) && IsVec(y)
    ensures |z| == |y| && IsVec(z)
  {
    seq(|y|, i requires 0 <= i < |y| => Response(chat, s1hat[i], y[i]))
  }

  function LowVec(mode: Mode, w: seq<Poly>, chat: Poly, s2hat: seq<Poly>): (v: seq<Poly>)
    requires |chat| == N && |s2hat| == |w| && IsVec(s2hat) && IsVec(w)
    ensures |v| == |w| && IsVec(v)
  {
    seq(|w|, i requires 0 <= i < |w| => LowWithout(mode, w[i], chat, s2hat[i]))
  }

  function Corrections(chat: Poly, t0hat: seq<Poly>): (v: seq<Poly>)
    requires |chat| == N && IsVec(t0hat)
    ensures |v| == |t0hat| && IsVec(v)
  {
    seq(|t0hat|, i requires 0 <= i < |t0hat| => Correction(chat, t0hat[i]))
  }

  function HintVec(mode: Mode, low: seq<Poly>, corr: seq<Poly>, high: seq<Poly>): (h: seq<Poly>)
    requires |low| == |corr| == |high| && IsVec(low) && IsVec(corr) && IsVec(high)
    ensures |h| == |low| && AllBinary(h)
  {
    seq(|low|, i requires 0 <= i < |low| => HintPoly(mode, Canonical(Add(low[i], corr[i])), high[i]))
  }

  /** How many hints are set. */
  function HintCount(h: seq<Poly>): nat { |Places(h)| }

  lemma {:induction false} HighBitsFit(mode: Mode, w: Poly)
    requires |w| == N && Below(w, Q)
    ensures Fits(W1(mode), HighBits(mode, w))
  {
    assert Pow2(4) == 16 && Pow2(6) == 64;
    forall i | 0 <= i < N ensures 0 <= HighBits(mode, w)[i] < Pow2(mode.W1Bits()) {
      DecomposeExact(mode, w[i]);
    }
  }

  lemma {:induction false} CanonicalBelow(a: Poly)
    requires Bounded(a, Q - 1)
    ensures Below(Canonical(a), Q)
  {
  }

  lemma {:induction false} MaskBounded(mode: Mode, o: Oracles, rhoprime: seq<int>, nonce: int)
    ensures VecBounded(MaskVec(mode, o, rhoprime, nonce), Q - 1)
  {
    var y := MaskVec(mode, o, rhoprime, nonce);
    forall i | 0 <= i < |y| ensures |y[i]| == N && Bounded(y[i], Q - 1) {
      assert y[i] == MaskPoly(mode, o, rhoprime, (mode.L() * nonce + i) % 0x1_0000);
      ZBounded(mode, y[i]);
    }
  }

  lemma {:induction false} ZBounded(mode: Mode, z: Poly)
    requires Fits(Z(mode), z)
    ensures |z| == N && Bounded(z, Q - 1)
  {
    SizeOfZ(mode);
  }

  lemma {:induction false} SizeOfZ(mode: Mode)
    ensures Pow2(mode.ZBits()) == 2 * mode.Gamma1()
  {
    assert Pow2(8) == 256 && Pow2(12) == 0x1000 && Pow2(18) == 0x4_0000 && Pow2(20) == 0x10_0000;
  }

  lemma {:induction false} CommitmentBelow(row: seq<Poly>, y: seq<Poly>)
    requires |row| == |y| <= 8 && VecBounded(row, Q - 1) && VecBounded(y, Q - 1)
    ensures Below(Commitment(row, VecNtt(y)), Q)
  {
    VecNttBounded(y);
    RowTimesBounded(row, VecNtt(y));
    CanonicalBelow(RowTimes(row, VecNtt(y)));
  }

  lemma {:induction false} CommitmentsBelow(mode: Mode, mat: seq<seq<Poly>>, y: seq<Poly>)
    requires |mat| == mode.K() && IsMatrix(mat, mode.L()) && |y| == mode.L() && VecBounded(y, Q - 1)
    ensures var w := Commitments(mat, VecNtt(y));
      AllFit(W1(mode), HighVec(mode, w)) && forall i :: 0 <= i < |w| ==> Below(w[i], Q)
  {
    var w := Commitments(mat, VecNtt(y));
    forall i | 0 <= i < |w| ensures Below(w[i], Q) && Fits(W1(mode), HighVec(mode, w)[i]) {
      CommitmentBelow(mat[i], y);
      HighBitsFit(mode, w[i]);
    }
  }

  /** The challenge seed for a commitment. */
  function ChallengeSeed(mode: Mode, o: Oracles, mu: seq<int>, w1: seq<Poly>): (c: seq<int>)
    requires AllFit(W1(mode), w1)
    ensures Bytes(c, SEEDBYTES)
  {
    Squeeze(o, mu + PackVec(W1(mode), w1), SEEDBYTES)
  }

  /** One round of signing, nothing when a rejection condition fires. */
  function Attempt(mode: Mode, o: Oracles, x: Expanded, mu: seq<int>, rhoprime: seq<int>,
      nonce: int): (r: Option<Signature>)
    requires ExpandedFits(mode, x)
    ensures r.Some? ==> SignatureFits(mode, r.value)
  {
    var y := MaskVec(mode, o, rhoprime, nonce);
    MaskBounded(mode, o, rhoprime, nonce);
    CommitmentsBelow(mode, x.mat, y);
    var w := Commitments(x.mat, VecNtt(y));
    var w1 := HighVec(mode, w);
    var c := ChallengeSeed(mode, o, mu, w1);
    var chat := PolyNtt(Challenge(o, c));
    var z := Responses(chat, x.s1hat, y);
    if !VecNormBelow(z, mode.Gamma1() - mode.Beta()) then None
    else
      var low := LowVec(mode, w, chat, x.s2hat);
      if !VecNormBelow(low, mode.Gamma2() - mode.Beta()) then None
      else
        var corr := Corrections(chat, x.t0hat);
        if !VecNormBelow(corr, mode.Gamma2()) then None
        else
          var h := HintVec(mode, low, corr, w1);
          if HintCount(h) > mode.Omega() then None
          else
            NormFits(mode, z);
            Some(Signature(c, z, h))
  }

  lemma {:induction false} NormFits(mode: Mode, z: seq<Poly>)
    requires IsVec(z) && VecNormBelow(z, mode.Gamma1() - mode.Beta())
    ensures AllFit(Z(mode), z)
  {
    SizeOfZ(mode);
  }

  function Expand(mode: Mode, o: Oracles, sk: SecretKey): (x: Expanded)
    requires SecretKeyFits(mode, sk)
    ensures ExpandedFits(mode, x)
  {
    MatrixBounded(mode, o, sk.rho);
    Expanded(Matrix(mode, o, sk.rho), VecNtt(sk.s1), VecNtt(sk.s2), VecNtt(sk.t0))
  }

  /** Round after round until one succeeds or the attempts run out. The round number is 16 bits wide. */
  function FirstSuccess<T>(round: int -> Option<T>, nonce: nat, attempts: nat): (r: Option<T>)
    ensures r.Some? ==> exists n: nat :: round(n) == r
    decreases attempts
  {
    if attempts == 0 then None
    else if round(nonce).Some? then round(nonce)
    else FirstSuccess(round, (nonce + 1) % 0x1_0000, attempts - 1)
  }

  /** Round number n of a run that starts with the given one. */
  function RoundNumber(start: nat, n: nat): nat {
    (start + n) % 0x1_0000
  }

  /** The rounds before the n-th all failed. */
  predicate FailedBefore<T>(round: int -> Option<T>, start: nat, n: nat) {
    forall j: nat :: j < n ==> round(RoundNumber(start, j)).None?
  }

  /** It is the first success: all earlier rounds failed. Without one, all rounds failed. */
  lemma {:induction false} FirstSuccessIsFirst<T>(round: int -> Option<T>, start: nat, attempts: nat) returns (n: nat)
    requires start < 0x1_0000
    ensures n <= attempts && FailedBefore(round, start, n)
    ensures var r := FirstSuccess(round, start, attempts);
      if r.Some? then n < attempts && round(RoundNumber(start, n)) == r else n == attempts
    decreases attempts
  {
    if attempts == 0 {
      n := 0;
    } else if round(start).Some? {
      n := 0;
      assert RoundNumber(start, 0) == start;
    } else {
      var next := (start + 1) % 0x1_0000;
      var m := FirstSuccessIsFirst(round, next, attempts - 1);
      n := m + 1;
      forall j: nat | j < n ensures round(RoundNumber(start, j)).None? {
        if j > 0 {
          assert RoundNumber(start, j) == RoundNumber(next, j - 1);
        }
      }
      assert RoundNumber(start, n) == RoundNumber(next, m);
    }
  }

  /** The retry loop: round numbers of 16 bits, until a round succeeds. */
  method Retry<T>(round: int -> Option<T>, attempts: nat) returns (r: Option<T>, ghost n: nat)
    ensures r == FirstSuccess(round, 0, attempts)
    ensures n <= attempts && FailedBefore(round, 0, n)
    ensures if r.Some? then n < attempts && round(RoundNumber(0, n)) == r else n == attempts
  {
    var nonce: nat, left: nat := 0, attempts;
    r := None;
    while r.None? && left > 0
      invariant FirstSuccess(round, 0, attempts) == if r.Some? then r else FirstSuccess(round, nonce, left)
      decreases left
    {
      r := round(nonce);
      nonce := (nonce + 1) % 0x1_0000;
      left := left - 1;
    }
    n := FirstSuccessIsFirst(round, 0, attempts);
  }

  /** A signature from the unpacked secret key and the two seeds of a signing run. */
  function SignParts(mode: Mode, o: Oracles, sk: SecretKey, mu: seq<int>, rhoprime: seq<int>,
      attempts: nat): (r: Option<Signature>)
    requires SecretKeyFits(mode, sk)
    ensures r.Some? ==> SignatureFits(mode, r.value)
  {
    var x := Expand(mode, o, sk);
    var round := nonce => Attempt(mode, o, x, mu, rhoprime, nonce);
    FirstSuccess(round, 0, attempts)
  }

  /** What is signed: the message bound to the public key. */
  function MessageHash(o: Oracles, tr: seq<int>, m: seq<int>): (mu: seq<int>)
    ensures Bytes(mu, CRHBYTES)
  {
    Squeeze(o, tr + m, CRHBYTES)
  }

  /**
    Signing. The seed of the masks is derived from the key and the message, or drawn at random when the
    source is built that way.
   */
  function Sign(mode: Mode, o: Oracles, skBytes: seq<int>, m: seq<int>, random: Option<seq<int>>,
      attempts: nat): (sig: Option<seq<int>>)
    requires Bytes(skBytes, SecretKeySize(mode, 3))
    ensures sig.Some? ==> Bytes(sig.value, SignatureSize(mode))
  {
    var sk := UnpackSecretKey(mode, skBytes);
    var mu := MessageHash(o, sk.tr, m);
    var rhoprime := if random.Some? then random.value else Squeeze(o, sk.key + mu, CRHBYTES);
    match SignParts(mode, o, sk, mu, rhoprime, attempts)
    case None => None
    case Some(s) => Some(PackSignature(mode, s))
  }

  /** The signature in front of its message. */
  function SignMessage(mode: Mode, o: Oracles, skBytes: seq<int>, m: seq<int>, random: Option<seq<int>>,
      attempts: nat): (sm: Option<seq<int>>)
    requires Bytes(skBytes, SecretKeySize(mode, 3))
  {
    match Sign(mode, o, skBytes, m, random, attempts)
    case None => None
    case Some(sig) => Some(sig + m)
  }
}
