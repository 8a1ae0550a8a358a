/** Keys and signatures as bytes. */
module DilithiumPacking {
  import opened Wrappers
  import opened ModArith
  import opened PolyRing
  import opened BitPacking
  import opened PolyPacking
  import opened DilithiumParams
  import opened DilithiumHintCodec

  const SEEDBYTES := 32
  const CRHBYTES := 48

  const T1: Layout := Plain(10)
  const T0: Layout := CountDown(0x1000, 13)

  function Eta(mode: Mode): Layout { CountDown(mode.Eta(), mode.EtaBits()) }

  function Z(mode: Mode): Layout { CountDown(mode.Gamma1(), mode.ZBits()) }

  function W1(mode: Mode): Layout { Plain(mode.W1Bits()) }

  // ----- keys

  datatype PublicKey = PublicKey(rho: seq<int>, t1: seq<Poly>)
  datatype SecretKey = SecretKey(rho: seq<int>, key: seq<int>, tr: seq<int>, s1: seq<Poly>, s2: seq<Poly>,
    t0: seq<Poly>)

  predicate PublicKeyFits(mode: Mode, pk: PublicKey) {
    Bytes(pk.rho, SEEDBYTES) && |pk.t1| == mode.K() && AllFit(T1, pk.t1)
  }

  function PackPublicKey(mode: Mode, pk: PublicKey): (b: seq<int>)
    requires PublicKeyFits(mode, pk)
    ensures Bytes(b, SEEDBYTES + VecSize(T1, mode.K()))
  {
    pk.rho + PackVec(T1, pk.t1)
  }

  function UnpackPublicKey(mode: Mode, b: seq<int>): (pk: PublicKey)
    requires Bytes(b, SEEDBYTES + VecSize(T1, mode.K()))
    ensures PublicKeyFits(mode, pk)
  {
    PublicKey(b[..SEEDBYTES], UnpackVec(T1, mode.K(), b[SEEDBYTES..]))
  }

  lemma {:induction false} PublicKeyRoundTrip(mode: Mode, pk: PublicKey)
    requires PublicKeyFits(mode, pk)
    ensures UnpackPublicKey(mode, PackPublicKey(mode, pk)) == pk
  {
    var b := PackPublicKey(mode, pk);
    assert b[..SEEDBYTES] == pk.rho && b[SEEDBYTES..] == PackVec(T1, pk.t1);
    UnpackPackVec(T1, pk.t1);
  }

  predicate SecretKeyFits(mode: Mode, sk: SecretKey) {
    && Bytes(sk.rho, SEEDBYTES) && Bytes(sk.key, SEEDBYTES) && Bytes(sk.tr, CRHBYTES)
    && |sk.s1| == mode.L() && |sk.s2| == |sk.t0| == mode.K()
    && AllFit(Eta(mode), sk.s1) && AllFit(Eta(mode), sk.s2) && AllFit(T0, sk.t0)
  }

  /** Where the parts of a secret key end. */
  function SecretKeySize(mode: Mode, part: nat): nat {
    match part
    case 0 => 2 * SEEDBYTES + CRHBYTES
    case 1 => SecretKeySize(mode, 0) + VecSize(Eta(mode), mode.L())
    case 2 => SecretKeySize(mode, 1) + VecSize(Eta(mode), mode.K())
    case _ => SecretKeySize(mode, 2) + VecSize(T0, mode.K())
  }

  function PackSecretKey(mode: Mode, sk: SecretKey): (b: seq<int>)
    requires SecretKeyFits(mode, sk)
    ensures Bytes(b, SecretKeySize(mode, 3))
  {
    sk.rho + sk.key + sk.tr + PackVec(Eta(mode), sk.s1) + PackVec(Eta(mode), sk.s2) + PackVec(T0, sk.t0)
  }

  function Part(b: seq<int>, i: nat, j: nat): (r: seq<int>)
    requires i <= j <= |b| && Below(b, 256)
    ensures Bytes(r, j - i)
  {
    b[i..j]
  }

  function UnpackSecretKey(mode: Mode, b: seq<int>): (sk: SecretKey)
    requires Bytes(b, SecretKeySize(mode, 3))
    ensures SecretKeyFits(mode, sk)
  {
    var p, q, r := SecretKeySize(mode, 0), SecretKeySize(mode, 1), SecretKeySize(mode, 2);
    SecretKey(Part(b, 0, SEEDBYTES), Part(b, SEEDBYTES, 2 * SEEDBYTES), Part(b, 2 * SEEDBYTES, p),
              UnpackVec(Eta(mode), mode.L(), Part(b, p, q)), UnpackVec(Eta(mode), mode.K(), Part(b, q, r)),
              UnpackVec(T0, mode.K(), Part(b, r, |b|)))
  }

  lemma {:induction false} SecretKeyRoundTrip(mode: Mode, sk: SecretKey)
    requires SecretKeyFits(mode, sk)
    ensures UnpackSecretKey(mode, PackSecretKey(mode, sk)) == sk
  {
    var p, q, r := SecretKeySize(mode, 0), SecretKeySize(mode, 1), SecretKeySize(mode, 2);
    var x, y, z := PackVec(Eta(mode), sk.s1), PackVec(Eta(mode), sk.s2), PackVec(T0, sk.t0);
    SixParts(sk.rho, sk.key, sk.tr, x, y, z, SEEDBYTES, 2 * SEEDBYTES, p, q, r);
    UnpackPackVec(Eta(mode), sk.s1);
    UnpackPackVec(Eta(mode), sk.s2);
    UnpackPackVec(T0, sk.t0);
  }

  lemma {:induction false} SixParts(a: seq<int>, b: seq<int>, c: seq<int>, x: seq<int>, y: seq<int>, z: seq<int>,
                 i: nat, j: nat, p: nat, q: nat, r: nat)
    requires i == |a| && j == i + |b| && p == j + |c| && q == p + |x| && r == q + |y|
    ensures var s := a + b + c + x + y + z;
      s[0..i] == a && s[i..j] == b && s[j..p] == c && s[p..q] == x && s[q..r] == y && s[r..|s|] == z
  {
  }

  // ----- signatures

  datatype Signature = Signature(c: seq<int>, z: seq<Poly>, h: seq<Poly>)

  predicate SignatureFits(mode: Mode, s: Signature) {
    && Bytes(s.c, SEEDBYTES)
    && |s.z| == mode.L() && AllFit(Z(mode), s.z)
    && |s.h| == mode.K() && AllBinary(s.h) && |Places(s.h)| <= mode.Omega()
  }

  function HintStart(mode: Mode): nat { SEEDBYTES + VecSize(Z(mode), mode.L()) }

  function SignatureSize(mode: Mode): nat { HintStart(mode) + mode.Omega() + mode.K() }

  lemma {:induction false} PlacesBelow(hs: seq<Poly>)
    requires AllBinary(hs)
    ensures Below(Places(hs), 256)
  {
    if hs != [] {
      PlacesBelow(hs[1..]);
    }
  }

  lemma {:induction false} EndsBelow(hs: seq<Poly>, k: nat)
    requires k + |Places(hs)| < 256
    ensures Below(Ends(hs, k), 256)
    decreases |hs|
  {
    if hs != [] {
      EndsBelow(hs[1..], k + |Ones(hs[0], 0)|);
    }
  }

  function PackSignature(mode: Mode, s: Signature): (b: seq<int>)
    requires SignatureFits(mode, s)
    ensures Bytes(b, SignatureSize(mode))
  {
    PlacesBelow(s.h);
    EndsBelow(s.h, 0);
    s.c + PackVec(Z(mode), s.z) + EncodeHints(mode.Omega(), s.h)
  }

  /** Nothing when the hint part is not a canonical encoding. */
  function UnpackSignature(mode: Mode, b: seq<int>): (r: Option<Signature>)
    requires Bytes(b, SignatureSize(mode))
    ensures r.Some? ==> SignatureFits(mode, r.value)
  {
    var p := HintStart(mode);
    match DecodeHints(mode.Omega(), b[p..])
    case None => None
    case Some(h) =>
      EncodeDecodeHints(mode.Omega(), b[p..]);
      Some(Signature(b[..SEEDBYTES], UnpackVec(Z(mode), mode.L(), b[SEEDBYTES..p]), h))
  }

  /** Every signature that fits is read back from its bytes. */
  lemma {:induction false} SignatureRoundTrip(mode: Mode, s: Signature)
    requires SignatureFits(mode, s)
    ensures UnpackSignature(mode, PackSignature(mode, s)) == Some(s)
  {
    var b, p := PackSignature(mode, s), HintStart(mode);
    assert b[..SEEDBYTES] == s.c && b[SEEDBYTES..p] == PackVec(Z(mode), s.z)
      && b[p..] == EncodeHints(mode.Omega(), s.h);
    UnpackPackVec(Z(mode), s.z);
    DecodeEncodeHints(mode.Omega(), s.h);
  }

  /** The three parts of accepted bytes, packed again. */
  lemma {:induction false} PartsAgain(mode: Mode, x: seq<int>, y: seq<int>, z: seq<int>, s: Signature)
    requires Bytes(x, SEEDBYTES) && Bytes(y, VecSize(Z(mode), mode.L())) && Bytes(z, mode.Omega() + mode.K())
    requires SignatureFits(mode, s) && DecodeHints(mode.Omega(), z) == Some(s.h)
    requires s.c == x && s.z == UnpackVec(Z(mode), mode.L(), y)
    ensures PackSignature(mode, s) == x + y + z
  {
    EncodeDecodeHints(mode.Omega(), z);
    PackUnpackVec(Z(mode), mode.L(), y);
  }

  /** Accepted bytes are the only encoding of what they decode to. */
  lemma {:induction false} AcceptedIsCanonical(mode: Mode, b: seq<int>)
    requires Bytes(b, SignatureSize(mode)) && UnpackSignature(mode, b).Some?
    ensures PackSignature(mode, UnpackSignature(mode, b).value) == b
  {
    var p := HintStart(mode);
    PartsAgain(mode, b[..SEEDBYTES], b[SEEDBYTES..p], b[p..], UnpackSignature(mode, b).value);
    ThreeParts(b, SEEDBYTES, p);
  }

  lemma {:induction false} ThreeParts(b: seq<int>, i: nat, j: nat)
    requires i <= j <= |b|
    ensures b == b[..i] + b[i..j] + b[j..]
  {
  }
}
