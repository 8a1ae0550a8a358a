/**
  Kyber's keys and ciphertexts written and read with the unrolled lines of the source: the same bytes, and the same
  polynomials, as the packing with a width parameter gives.
 */
module KyberBytes {
  import opened PolyRing
  import opened PairRing
  import opened BitPacking
  import opened PolyPacking
  import opened UnrolledPacking
  import opened KyberParams
  import opened KyberPke
  import opened KyberCorrectness

  // ----- the groups of each width

  function UGroups(level: Level): (g: Groups)
    ensures Pack8(U(level).d, g)
  {
    PackLines10();
    PackLines11();
    if level.S1? || level.S3? then Groups(4, PACK10) else Groups(8, PACK11)
  }

  function UBack(level: Level): (g: Groups)
    ensures Unpack8(U(level).d, g)
  {
    UnpackLines10();
    UnpackLines11();
    if level.S1? || level.S3? then Groups(5, UNPACK10) else Groups(11, UNPACK11)
  }

  function VGroups(level: Level): (g: Groups)
    ensures Pack8(V(level).d, g)
  {
    PackLines4By8();
    PackLines5();
    if level.S1? || level.S3? then Groups(8, PACK4BY8) else Groups(8, PACK5)
  }

  function VBack(level: Level): (g: Groups)
    ensures Unpack8(V(level).d, g)
  {
    UnpackLines4();
    UnpackLines5();
    if level.S1? || level.S3? then Groups(1, UNPACK4) else Groups(5, UNPACK5)
  }

  // ----- vectors of whole coefficients, and ciphertexts

  method WriteWhole(v: seq<Poly>) returns (b: seq<int>)
    requires AllFit(P12, CanonicalVec(v))
    ensures b == PackVec(P12, CanonicalVec(v))
  {
    PackLines12();
    b := WriteVec(P12, Groups(2, PACK12), CanonicalVec(v));
  }

  method ReadWhole(level: Level, b: seq<int>) returns (v: seq<Poly>)
    requires Bytes(b, SecretSize(level))
    ensures v == UnpackVec(P12, level.K(), b)
  {
    UnpackLines12();
    v := ReadVec(P12, Groups(3, UNPACK12), level.K(), b);
  }

  method WriteCipher(level: Level, c: Cipher) returns (b: seq<int>)
    requires |c.u| == level.K() && Vector(c.u, N) && |c.v| == N
    ensures b == PackCipher(level, c)
  {
    var u := WriteVec(U(level), UGroups(level), CompressVec(level.DU(), c.u));
    var v := WritePoly(V(level), VGroups(level), CompressPoly(level.DV(), c.v));
    b := u + v;
  }

  lemma {:induction false} CipherHalves(level: Level, b: seq<int>, n: nat)
    requires Bytes(b, CipherSize(level)) && n == VecSize(U(level), level.K())
    ensures n <= |b| && Bytes(b[..n], n) && Bytes(b[n..], 32 * level.DV())
  {
  }

  method ReadCipher(level: Level, b: seq<int>) returns (c: Cipher)
    requires Bytes(b, CipherSize(level))
    ensures c == UnpackCipher(level, b)
  {
    var n := VecSize(U(level), level.K());
    CipherHalves(level, b, n);
    var u := ReadVec(U(level), UBack(level), level.K(), b[..n]);
    var v := ReadPoly(V(level), VBack(level), b[n..]);
    c := Cipher(DecompressVec(level.DU(), u), DecompressPoly(level.DV(), v));
  }
}
