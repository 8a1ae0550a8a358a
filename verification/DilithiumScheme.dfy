/**
  Key generation, signing and verification in the Dilithium reference code, step by step. Vectors
  are sequences of polynomials. The Keccak functions and the rejection samplers built on them are
  parameters: the scheme is correct for every choice of them.
 */
module DilithiumScheme {
  import opened Wrappers
  import opened PolyRing
  import opened BitPacking
  import opened DilithiumParams
  import opened DilithiumReduce
  import opened DilithiumNtt
  import opened DilithiumRounding
  import opened DilithiumHintCodec
  import opened PolyPacking
  import opened DilithiumPacking

  /**
    shake256(x, i) is byte i of the output stream for input x. The samplers return coefficient i of
    the polynomial drawn from a seed and a nonce; their values are brought into range where used.
   */
  datatype Oracles = Oracles(
    shake256: (seq<int>, int) -> int,
    uniform: (seq<int>, int, int) -> int,
    short: (seq<int>, int, int) -> int,
    ball: (seq<int>, int) -> int)

  function Squeeze(o: Oracles, x: seq<int>, n: nat): (b: seq<int>)
    ensures Bytes(b, n)
  {
    seq(n, i => o.shake256(x, i) % 256)
  }

  // ----- sampled polynomials

  /** Uniform modulo Q. */
  function UniformPoly(o: Oracles, seed: seq<int>, nonce: int): (a: Poly)
    ensures |a| == N && Below(a, Q)
  {
    seq(N, i => o.uniform(seed, nonce, i) % Q)
  }

  /** Small coefficients, eta or less in absolute value. */
  function EtaPoly(mode: Mode, o: Oracles, seed: seq<int>, nonce: int): (a: Poly)
    ensures |a| == N && forall i :: 0 <= i < N ==> -(mode.Eta() as int) <= a[i] <= mode.Eta()
  {
    seq(N, i => mode.Eta() - o.short(seed, nonce, i) % (2 * mode.Eta() + 1))
  }

  /** The challenge polynomial of a seed: coefficients -1, 0 and 1. */
  function Challenge(o: Oracles, seed: seq<int>): (a: Poly)
    ensures |a| == N && forall i :: 0 <= i < N ==> -1 <= a[i] <= 1
  {
    seq(N, i => o.ball(seed, i) % 3 - 1)
  }

  function Le16(x: int): seq<int> { [x % 256, x / 256 % 256] }

  /** The mask polynomials are read off the stream, no rejection being needed. */
  function MaskPoly(mode: Mode, o: Oracles, seed: seq<int>, nonce: int): (a: Poly)
    ensures Fits(Z(mode), a)
  {
    UnpackPoly(Z(mode), Squeeze(o, seed + Le16(nonce), 32 * mode.ZBits()))
  }

  function Matrix(mode: Mode, o: Oracles, rho: seq<int>): (mat: seq<seq<Poly>>)
    ensures |mat| == mode.K() && forall i :: 0 <= i < |mat| ==> |mat[i]| == mode.L()
  {
    seq(mode.K(), i requires 0 <= i < mode.K() => seq(mode.L(),
      j requires 0 <= j < mode.L() => UniformPoly(o, rho, 256 * i + j)))
  }

  function EtaVec(mode: Mode, o: Oracles, seed: seq<int>, n: nat, nonce: int): (v: seq<Poly>)
    ensures |v| == n
  {
    seq(n, i requires 0 <= i < n => EtaPoly(mode, o, seed, nonce + i))
  }

  function MaskVec(mode: Mode, o: Oracles, seed: seq<int>, nonce: int): (v: seq<Poly>)
    ensures |v| == mode.L()
  {
    seq(mode.L(), i requires 0 <= i < mode.L() => MaskPoly(mode, o, seed, (mode.L() * nonce + i) % 0x1_0000))
  }

  // ----- coefficients and vectors

  predicate IsVec(v: seq<Poly>) {
    forall i :: 0 <= i < |v| ==> |v[i]| == N
  }

  function Reduced(a: Poly): (b: Poly)
    ensures |b| == |a|
  {
    seq(|a|, i requires 0 <= i < |a| => Reduce32(a[i]))
  }

  function Canonical(a: Poly): (b: Poly)
    ensures |b| == |a|
  {
    seq(|a|, i requires 0 <= i < |a| => CaddQ(a[i]))
  }

  function HighBits(mode: Mode, a: Poly): (b: Poly)
    ensures |b| == |a|
  {
    seq(|a|, i requires 0 <= i < |a| => Decompose(mode, a[i]).0)
  }

  function LowBits(mode: Mode, a: Poly): (b: Poly)
    ensures |b| == |a|
  {
    seq(|a|, i requires 0 <= i < |a| => Decompose(mode, a[i]).1)
  }

  function RoundHigh(a: Poly): (b: Poly)
    ensures |b| == |a|
  {
    seq(|a|, i requires 0 <= i < |a| => Power2Round(a[i]).0)
  }

  function RoundLow(a: Poly): (b: Poly)
    ensures |b| == |a|
  {
    seq(|a|, i requires 0 <= i < |a| => Power2Round(a[i]).1)
  }

  function HintPoly(mode: Mode, low: Poly, high: Poly): (h: Poly)
    requires |low| == |high|
    ensures |h| == |low| && Below(h, 2)
  {
    seq(|low|, i requires 0 <= i < |low| => MakeHint(mode, low[i], high[i]))
  }

  function Hinted(mode: Mode, a: Poly, h: Poly): (b: Poly)
    requires |a| == |h|
    ensures |b| == |a|
  {
    seq(|a|, i requires 0 <= i < |a| => UseHint(mode, a[i], h[i]))
  }

  /** Every coefficient is below b in absolute value. */
  predicate NormBelow(a: Poly, b: int) {
    forall i :: 0 <= i < |a| ==> -b < a[i] < b
  }

  predicate VecNormBelow(v: seq<Poly>, b: int) {
    forall i :: 0 <= i < |v| ==> NormBelow(v[i], b)
  }

  function VecNtt(v: seq<Poly>): (w: seq<Poly>)
    requires IsVec(v)
    ensures |w| == |v| && IsVec(w)
  {
    seq(|v|, i requires 0 <= i < |v| => PolyNtt(v[i]))
  }

  /** The sum of the pointwise products of a matrix row and a vector. */
  function Accumulate(u: seq<Poly>, v: seq<Poly>): (a: Poly)
    requires |u| == |v| && IsVec(u) && IsVec(v)
    ensures |a| == N
  {
    if u == [] then Zeros(N) else Add(Pointwise(u[0], v[0]), Accumulate(u[1..], v[1..]))
  }

  /** One row of a matrix times a vector, out of the transform domain. */
  function RowTimes(row: seq<Poly>, v: seq<Poly>): (a: Poly)
    requires |row| == |v| && IsVec(row) && IsVec(v)
    ensures |a| == N
  {
    PolyInvNtt(Reduced(Accumulate(row, v)))
  }

  function Shifted(a: Poly): (b: Poly)
    ensures |b| == |a|
  {
    seq(|a|, i requires 0 <= i < |a| => a[i] * 0x2000)
  }

  // ----- one row of every computation

  /** One polynomial of the public vector A s1 + s2. */
  function PublicPoly(row: seq<Poly>, s1hat: seq<Poly>, s2: Poly): (t: Poly)
    requires |row| == |s1hat| && IsVec(row) && IsVec(s1hat) && |s2| == N
    ensures |t| == N
  {
    Canonical(Add(RowTimes(row, s1hat), s2))
  }

  /** One polynomial of the commitment w = A y. */
  function Commitment(row: seq<Poly>, yhat: seq<Poly>): (w: Poly)
    requires |row| == |yhat| && IsVec(row) && IsVec(yhat)
    ensures |w| == N
  {
    Canonical(RowTimes(row, yhat))
  }

  /** A challenge times a secret polynomial, both in the transform domain. */
  function ChallengeTimes(chat: Poly, shat: Poly): (p: Poly)
    requires |chat| == |shat| == N
    ensures |p| == N
  {
    PolyInvNtt(Pointwise(chat, shat))
  }

  function Response(chat: Poly, s1hat: Poly, y: Poly): (z: Poly)
    requires |chat| == |s1hat| == |y| == N
    ensures |z| == N
  {
    Reduced(Add(ChallengeTimes(chat, s1hat), y))
  }

  /** The low part of w with the secret error taken out. */
  function LowWithout(mode: Mode, w: Poly, chat: Poly, s2hat: Poly): (a: Poly)
    requires |w| == |chat| == |s2hat| == N
    ensures |a| == N
  {
    Reduced(Sub(LowBits(mode, w), ChallengeTimes(chat, s2hat)))
  }

  function Correction(chat: Poly, t0hat: Poly): (a: Poly)
    requires |chat| == |t0hat| == N
    ensures |a| == N
  {
    Reduced(ChallengeTimes(chat, t0hat))
  }

  /** What the verifier computes: A z - 2^13 c t1. */
  function VerifierPoly(row: seq<Poly>, zhat: seq<Poly>, chat: Poly, t1: Poly): (v: Poly)
    requires |row| == |zhat| && IsVec(row) && IsVec(zhat) && |chat| == |t1| == N
    ensures |v| == N
  {
    Canonical(PolyInvNtt(Reduced(Sub(Accumulate(row, zhat), Pointwise(chat, PolyNtt(Shifted(t1)))))))
  }
}
