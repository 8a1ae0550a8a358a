/**
  Key generation, signing and verification as the source runs them: scalars are reduced, multiplied and
  added by the byte routines, and points are multiplied with the recodings.
 */
module Ed25519Signing {
  import opened Wrappers
  import opened PolyPacking
  import opened Groups
  import opened ScalarDigits
  import opened Ed25519Mult
  import opened Ed25519
  import opened ScalarMulAdd

  /** The order is the one that reduction and multiplication have built in, and that the source compares with. */
  ghost predicate SourceCurve<G(!new)>(c: Curve<G>) {
    Sound(c) && IsOrder(c.order)
  }

  method GenerateKeys<G(!new)>(c: Curve<G>, seed: seq<int>) returns (pk: seq<int>, sk: seq<int>)
    requires Sound(c) && Bytes(seed, 32)
    ensures pk == PublicKey(c, seed) && sk == seed + pk
  {
    var a := ScalarMultBase(c.g, SecretScalar(c, seed), c.comb, c.base);
    pk := c.encode(a);
    sk := seed + pk;
  }

  /**
    The reduction in the byte routine: the reduced scalar of the specification, small enough for the
    multiplications.
   */
  method ReduceScalar(b: seq<int>, ghost l: seq<int>) returns (r: seq<int>)
    requires Bytes(b, 64) && IsOrder(l)
    ensures r == ReducedScalar(Value(b), l) && Value(r) == Value(b) % Value(l) && r[31] <= 0x10
  {
    r := ReduceBytes(b);
    ReduceBytesExact(b, l);
    ReducedScalarValue(Value(b), l);
  }

  method MultiplyAdd(a: seq<int>, b: seq<int>, c: seq<int>, ghost l: seq<int>) returns (r: seq<int>)
    requires Bytes(a, 32) && Bytes(b, 32) && Bytes(c, 32) && IsOrder(l)
    ensures r == ReducedScalar(MulAdd(Value(a), Value(b), Value(c)), l)
  {
    r := MulAddBytes(a, b, c);
    MulAddBytesExact(a, b, c, l);
  }

  method SignDetached<G(!new)>(c: Curve<G>, m: seq<int>, sk: seq<int>) returns (sig: seq<int>)
    requires SourceCurve(c) && Bytes(sk, 64)
    ensures sig == Sign(c, sk[..32], sk[32..], m)
  {
    var az := Sha512(c, sk[..32]);
    var nonce := ReduceScalar(Sha512(c, az[32..] + m), c.order);
    var p := ScalarMultBase(c.g, nonce, c.comb, c.base);
    var r := c.encode(p);
    var hram := ReduceScalar(Sha512(c, r + sk[32..] + m), c.order);
    var s := MultiplyAdd(hram, Clamp(az[..32]), nonce, c.order);
    sig := r + s;
  }

  method VerifyDetached<G(!new)>(c: Curve<G>, sig: seq<int>, m: seq<int>, pk: seq<int>) returns (res: bool)
    requires SourceCurve(c) && Bytes(sig, 64) && Bytes(pk, 32)
    ensures res == Verifies(c, sig, m, pk)
  {
    var s := sig[32..];
    var canonical := IsCanonical(s, c.order);
    if sig[63] / 16 != 0 && !canonical {
      res := false;
    } else if c.smallOrder(sig[..32]) {
      res := false;
    } else if !c.canonicalPoint(pk) || c.smallOrder(pk) {
      res := false;
    } else if c.decodeNegated(pk).None? {
      res := false;
    } else {
      var h := ReduceScalar(Sha512(c, sig[..32] + pk + m), c.order);
      ScalarFits(s, c.order);
      var r := DoubleScalarMult(c.g, h, c.decodeNegated(pk).value, s, c.baseTable, c.base);
      res := c.encode(r) == sig[..32];
    }
  }
}
