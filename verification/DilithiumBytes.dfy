/**
  Dilithium's keys and signatures written and read with the unrolled lines of the source: the same bytes, and the
  same parts, as the packing with a width parameter gives.
 */
module DilithiumBytes {
  import opened Wrappers
  import opened PolyRing
  import opened BitPacking
  import opened PolyPacking
  import opened UnrolledPacking
  import opened DilithiumParams
  import opened DilithiumHintCodec
  import opened DilithiumPacking

  // ----- the groups of each kind of polynomial

  function EtaGroups(mode: Mode): (g: Groups)
    ensures Pack8(Eta(mode).d, g)
  {
    PackLines3();
    PackLines4();
    if mode.Eta() == 2 then Groups(8, PACK3) else Groups(2, PACK4)
  }

  function EtaBack(mode: Mode): (g: Groups)
    ensures Unpack8(Eta(mode).d, g)
  {
    UnpackLines3();
    UnpackLines4();
    if mode.Eta() == 2 then Groups(3, UNPACK3) else Groups(1, UNPACK4)
  }

  function ZGroups(mode: Mode): (g: Groups)
    ensures Pack8(Z(mode).d, g)
  {
    PackLines18();
    PackLines20();
    if mode.Gamma1() == 0x2_0000 then Groups(4, PACK18) else Groups(2, PACK20)
  }

  function ZBack(mode: Mode): (g: Groups)
    ensures Unpack8(Z(mode).d, g)
  {
    UnpackLines18();
    UnpackLines20();
    if mode.Gamma1() == 0x2_0000 then Groups(9, UNPACK18) else Groups(5, UNPACK20)
  }

  function W1Groups(mode: Mode): (g: Groups)
    ensures Pack8(W1(mode).d, g)
  {
    PackLines6();
    PackLines4();
    if mode.Gamma2() == 95232 then Groups(4, PACK6) else Groups(2, PACK4)
  }

  // ----- keys, signatures and the hashed high bits

  method WritePublicKey(mode: Mode, pk: PublicKey) returns (b: seq<int>)
    requires PublicKeyFits(mode, pk)
    ensures b == PackPublicKey(mode, pk)
  {
    PackLines10();
    var t := WriteVec(T1, Groups(4, PACK10), pk.t1);
    b := pk.rho + t;
  }

  method ReadPublicKey(mode: Mode, b: seq<int>) returns (pk: PublicKey)
    requires Bytes(b, SEEDBYTES + VecSize(T1, mode.K()))
    ensures pk == UnpackPublicKey(mode, b)
  {
    UnpackLines10();
    var t := ReadVec(T1, Groups(5, UNPACK10), mode.K(), b[SEEDBYTES..]);
    pk := PublicKey(b[..SEEDBYTES], t);
  }

  method WriteSecretKey(mode: Mode, sk: SecretKey) returns (b: seq<int>)
    requires SecretKeyFits(mode, sk)
    ensures b == PackSecretKey(mode, sk)
  {
    PackLines13();
    var x := WriteVec(Eta(mode), EtaGroups(mode), sk.s1);
    var y := WriteVec(Eta(mode), EtaGroups(mode), sk.s2);
    var z := WriteVec(T0, Groups(8, PACK13), sk.t0);
    b := sk.rho + sk.key + sk.tr + x + y + z;
  }

  method ReadSecretKey(mode: Mode, b: seq<int>) returns (sk: SecretKey)
    requires Bytes(b, SecretKeySize(mode, 3))
    ensures sk == UnpackSecretKey(mode, b)
  {
    UnpackLines13();
    var p, q, r := SecretKeySize(mode, 0), SecretKeySize(mode, 1), SecretKeySize(mode, 2);
    var s1 := ReadVec(Eta(mode), EtaBack(mode), mode.L(), Part(b, p, q));
    var s2 := ReadVec(Eta(mode), EtaBack(mode), mode.K(), Part(b, q, r));
    var t0 := ReadVec(T0, Groups(13, UNPACK13), mode.K(), Part(b, r, |b|));
    sk := SecretKey(Part(b, 0, SEEDBYTES), Part(b, SEEDBYTES, 2 * SEEDBYTES), Part(b, 2 * SEEDBYTES, p), s1, s2, t0);
  }

  method WriteSignature(mode: Mode, s: Signature) returns (b: seq<int>)
    requires SignatureFits(mode, s)
    ensures b == PackSignature(mode, s)
  {
    var z := WriteVec(Z(mode), ZGroups(mode), s.z);
    b := s.c + z + EncodeHints(mode.Omega(), s.h);
  }

  method ReadSignature(mode: Mode, b: seq<int>) returns (r: Option<Signature>)
    requires Bytes(b, SignatureSize(mode))
    ensures r == UnpackSignature(mode, b)
  {
    var p := HintStart(mode);
    var z := ReadVec(Z(mode), ZBack(mode), mode.L(), b[SEEDBYTES..p]);
    match DecodeHints(mode.Omega(), b[p..])
    case None => r := None;
    case Some(h) => r := Some(Signature(b[..SEEDBYTES], z, h));
  }

  /** The high bits of the commitment, as they are hashed. */
  method WriteHighBits(mode: Mode, w1: seq<Poly>) returns (b: seq<int>)
    requires AllFit(W1(mode), w1)
    ensures b == PackVec(W1(mode), w1)
  {
    b := WriteVec(W1(mode), W1Groups(mode), w1);
  }
}
