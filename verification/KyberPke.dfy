/**
  Public-key encryption in the Kyber reference code, on bytes. Hash functions and the matrix sampler
  are parameters.
 */
module KyberPke {
  import opened ModArith
  import opened PolyRing
  import opened BitPacking
  import opened PolyPacking
  import opened PairRing
  import opened KyberParams
  import opened KyberReduce
  import opened KyberNtt
  import opened KyberCompress

  const SYMBYTES := 32

  /**
    f(x, i) is byte i of the output for input x; uniform(x, i) is coefficient i of the polynomial parsed
    from the stream of x.
   */
  datatype Oracles = Oracles(
    sha3_256: (seq<int>, int) -> int,
    sha3_512: (seq<int>, int) -> int,
    shake256: (seq<int>, int) -> int,
    uniform: (seq<int>, int) -> int)

  function Hash(f: (seq<int>, int) -> int, x: seq<int>, n: nat): (b: seq<int>)
    ensures Bytes(b, n)
  {
    seq(n, i => f(x, i) % 256)
  }

  // ----- sampling

  function UniformPoly(o: Oracles, x: seq<int>): (a: Poly)
    ensures |a| == N && Below(a, Q)
  {
    seq(N, i => o.uniform(x, i) % Q)
  }

  /** The entry in row i and column j; both sides expand the same seed, one of them transposed. */
  function Entry(o: Oracles, seed: seq<int>, transposed: bool, i: int, j: int): (a: Poly)
    ensures |a| == N && Below(a, Q)
  {
    UniformPoly(o, seed + if transposed then [i, j] else [j, i])
  }

  function Row(level: Level, o: Oracles, seed: seq<int>, transposed: bool, i: int): (row: seq<Poly>)
    ensures |row| == level.K() && Vector(row, N)
  {
    seq(level.K(), j => Entry(o, seed, transposed, i, j))
  }

  /** How many of the n bits from place p on are set. */
  function CountBits(s: seq<int>, p: nat, n: nat): (c: int)
    requires Below(s, 2) && p + n <= |s|
    ensures 0 <= c <= n
    decreases n
  {
    if n == 0 then 0 else s[p] + CountBits(s, p + 1, n - 1)
  }

  /** Centred binomial noise: the difference of two counts of eta bits. */
  function Binomial(eta: nat, buf: seq<int>): (a: Poly)
    requires Bytes(buf, 64 * eta)
    ensures |a| == N && forall i :: 0 <= i < N ==> -(eta as int) <= a[i] <= eta
  {
    var bits := Stream(8, buf);
    seq(N, i requires 0 <= i < N =>
      assert 2 * eta * i + 2 * eta <= 2 * eta * N by { MulMono(i + 1, N, 2 * eta); }
      CountBits(bits, 2 * eta * i, eta) - CountBits(bits, 2 * eta * i + eta, eta))
  }

  function NoisePoly(o: Oracles, eta: nat, seed: seq<int>, nonce: int): (a: Poly)
    ensures |a| == N && forall i :: 0 <= i < N ==> -(eta as int) <= a[i] <= eta
  {
    Binomial(eta, Hash(o.shake256, seed + [nonce], 64 * eta))
  }

  function NoiseVec(level: Level, o: Oracles, eta: nat, seed: seq<int>, nonce: int): (v: seq<Poly>)
    ensures |v| == level.K() && Vector(v, N)
  {
    var v := seq(level.K(), i => NoisePoly(o, eta, seed, nonce + i));
    assert forall i :: 0 <= i < |v| ==> v[i] == NoisePoly(o, eta, seed, nonce + i);
    v
  }

  // ----- vectors

  function VecNtt(v: seq<Poly>): (w: seq<Poly>)
    requires Vector(v, N)
    ensures |w| == |v| && Vector(w, N)
  {
    seq(|v|, i requires 0 <= i < |v| => PolyNtt(v[i]))
  }

  function Accumulate(u: seq<Poly>, v: seq<Poly>): (a: Poly)
    requires |u| == |v| && Vector(u, N) && Vector(v, N)
    ensures |a| == N
  {
    if u == [] then Zeros(N) else Add(Basemul(u[0], v[0]), Accumulate(u[1..], v[1..]))
  }

  /** The product of two vectors in the transform domain, reduced. */
  function VecMul(u: seq<Poly>, v: seq<Poly>): (a: Poly)
    requires |u| == |v| && Vector(u, N) && Vector(v, N)
    ensures |a| == N
  {
    Reduced(Accumulate(u, v))
  }

  const MONT_SQUARED := 1353    // 2^32 modulo Q

  function Canonical(a: Poly): (b: Poly)
    ensures |b| == |a|
  {
    seq(|a|, i requires 0 <= i < |a| => Positive(a[i]))
  }

  function CanonicalVec(v: seq<Poly>): (w: seq<Poly>)
    ensures |w| == |v|
  {
    seq(|v|, i requires 0 <= i < |v| => Canonical(v[i]))
  }

  function CompressPoly(d: nat, a: Poly): (b: Poly)
    ensures |b| == |a| && Below(b, Pow2(d))
  {
    seq(|a|, i requires 0 <= i < |a| => Compress(d, a[i]))
  }

  function DecompressPoly(d: nat, b: Poly): (a: Poly)
    ensures |a| == |b|
  {
    seq(|b|, i requires 0 <= i < |b| => Decompress(d, b[i]))
  }

  function CompressVec(d: nat, v: seq<Poly>): (w: seq<Poly>)
    ensures |w| == |v|
    ensures Vector(v, N) ==> AllFit(Plain(d), w)
  {
    seq(|v|, i requires 0 <= i < |v| => CompressPoly(d, v[i]))
  }

  function DecompressVec(d: nat, w: seq<Poly>): (v: seq<Poly>)
    ensures |v| == |w|
    ensures Vector(w, N) ==> Vector(v, N)
  {
    seq(|w|, i requires 0 <= i < |w| => DecompressPoly(d, w[i]))
  }

  // ----- messages

  function FromMessage(m: seq<int>): (a: Poly)
    requires Bytes(m, SYMBYTES)
    ensures |a| == N
  {
    var bits := Stream(8, m);
    seq(N, i requires 0 <= i < N => BitToCoefficient(bits[i]))
  }

  /** The bits of a polynomial, eight to a byte. */
  function ToMessage(a: Poly): (m: seq<int>)
    requires |a| == N
    ensures Bytes(m, SYMBYTES)
  {
    var bits := seq(|a|, i requires 0 <= i < |a| => CoefficientToBit(a[i]));
    StreamRegroup(8, SYMBYTES, bits);
    assert Pow2(8) == 256;
    Regroup(8, bits)
  }

  // ----- the three operations, before anything is packed

  /** Public and secret vectors in the transform domain. */
  datatype Keys = Keys(seed: seq<int>, t: seq<Poly>, s: seq<Poly>)

  function PublicPoly(row: seq<Poly>, shat: seq<Poly>, ehat: Poly): (t: Poly)
    requires |row| == |shat| && Vector(row, N) && Vector(shat, N) && |ehat| == N
    ensures |t| == N
  {
    Reduced(Add(MontScale(MONT_SQUARED, VecMul(row, shat)), ehat))
  }

  function Seeds(o: Oracles, d: seq<int>): (b: seq<int>)
    ensures Bytes(b, 2 * SYMBYTES)
  {
    Hash(o.sha3_512, d, 2 * SYMBYTES)
  }

  function Secret(level: Level, o: Oracles, d: seq<int>): (s: seq<Poly>)
    ensures |s| == level.K() && Vector(s, N)
  {
    NoiseVec(level, o, level.Eta1(), Seeds(o, d)[SYMBYTES..], 0)
  }

  function KeyError(level: Level, o: Oracles, d: seq<int>): (e: seq<Poly>)
    ensures |e| == level.K() && Vector(e, N)
  {
    NoiseVec(level, o, level.Eta1(), Seeds(o, d)[SYMBYTES..], level.K())
  }

  function MakeKeys(level: Level, o: Oracles, d: seq<int>): (k: Keys)
    ensures Bytes(k.seed, SYMBYTES) && |k.t| == |k.s| == level.K() && Vector(k.t, N) && Vector(k.s, N)
  {
    var seed, shat, ehat := Seeds(o, d)[..SYMBYTES], VecNtt(Secret(level, o, d)), VecNtt(KeyError(level, o, d));
    Keys(seed, seq(level.K(), i requires 0 <= i < level.K() => PublicPoly(Row(level, o, seed, false, i), shat,
      ehat[i])), shat)
  }

  /** What encryption computes before it compresses. */
  datatype Cipher = Cipher(u: seq<Poly>, v: Poly)

  function CipherPoly(row: seq<Poly>, rhat: seq<Poly>, e: Poly): (u: Poly)
    requires |row| == |rhat| && Vector(row, N) && Vector(rhat, N) && |e| == N
    ensures |u| == N
  {
    Reduced(Add(PolyInvNtt(VecMul(row, rhat)), e))
  }

  function Ephemeral(level: Level, o: Oracles, coins: seq<int>): (r: seq<Poly>)
    ensures |r| == level.K() && Vector(r, N)
  {
    NoiseVec(level, o, level.Eta1(), coins, 0)
  }

  const ETA2 := 2

  function Error1(level: Level, o: Oracles, coins: seq<int>): (e: seq<Poly>)
    ensures |e| == level.K() && Vector(e, N)
  {
    NoiseVec(level, o, ETA2, coins, level.K())
  }

  function Error2(level: Level, o: Oracles, coins: seq<int>): (e: Poly)
    ensures |e| == N
  {
    NoisePoly(o, ETA2, coins, 2 * level.K())
  }

  function Encrypt(level: Level, o: Oracles, seed: seq<int>, t: seq<Poly>, m: seq<int>, coins: seq<int>): (c: Cipher)
    requires |t| == level.K() && Vector(t, N) && Bytes(m, SYMBYTES)
    ensures |c.u| == level.K() && Vector(c.u, N) && |c.v| == N
  {
    var rhat := VecNtt(Ephemeral(level, o, coins));
    var e1 := Error1(level, o, coins);
    Cipher(seq(level.K(), i requires 0 <= i < level.K() => CipherPoly(Row(level, o, seed, true, i), rhat, e1[i])),
           CipherPoly(t, rhat, Add(Error2(level, o, coins), FromMessage(m))))
  }

  /** The message polynomial with its noise. */
  function Decrypt(s: seq<Poly>, u: seq<Poly>, v: Poly): (a: Poly)
    requires |s| == |u| && Vector(s, N) && Vector(u, N) && |v| == N
    ensures |a| == N
  {
    Reduced(Sub(v, PolyInvNtt(VecMul(s, VecNtt(u)))))
  }
}
