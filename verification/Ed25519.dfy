/**
  Ed25519 key generation, signing and verification (sections 5.1.5 to 5.1.7 of RFC 8032), over any
  abelian group whose base point has the order of the source's scalar field.
 */
module Ed25519 {
  import opened Wrappers
  import opened ModArith
  import opened BitPacking
  import opened PolyPacking
  import opened Groups
  import opened ScalarDigits
  import opened Ed25519Mult

  /** The order of the base point, in the bytes the source compares scalars with. */
  const ORDER_BYTES: seq<int> := [
    0xED, 0xD3, 0xF5, 0x5C, 0x1A, 0x63, 0x12, 0x58, 0xD6, 0x9C, 0xF7, 0xA2, 0xDE, 0xF9, 0xDE, 0x14,
    0, 0, 0, 0, 0, 0, 0, 0, 0, 0, 0, 0, 0, 0, 0, 0x10]

  /** What is used of those bytes. */
  predicate OrderBytes(l: seq<int>) {
    Bytes(l, 32) && 0 < l[0] && l[31] <= 0x10
  }

  lemma {:induction false} SourceOrder()
    ensures OrderBytes(ORDER_BYTES)
  {
  }

  // ----- scalars as bytes

  lemma {:induction false} TopOfLess(s: seq<int>, t: seq<int>)
    requires |s| == |t| > 0 && Below(s, 256) && Below(t, 256) && Value(s) <= Value(t)
    ensures s[|s| - 1] <= t[|t| - 1]
    decreases |s|
  {
    if |s| > 1 {
      TopOfLess(s[1..], t[1..]);
    }
  }

  function ReducedScalar(x: nat, l: seq<int>): (b: seq<int>)
    requires OrderBytes(l)
    ensures Bytes(b, 32)
  {
    ToBytes(x % Value(l), |l|)
  }

  /** A reduced scalar is below the order, so its top bit is clear. */
  lemma {:induction false} ReducedScalarValue(x: nat, l: seq<int>)
    requires OrderBytes(l)
    ensures Value(ReducedScalar(x, l)) == x % Value(l) && ReducedScalar(x, l)[31] <= 0x10
  {
    ValueOfBytes(x % Value(l), l);
    TopOfLess(ReducedScalar(x, l), l);
  }

  /** The canonicity check: a comparison from the top byte down, without branches. */
  method IsCanonical(s: seq<int>, l: seq<int>) returns (r: bool)
    requires Bytes(s, 32) && Bytes(l, 32)
    ensures r <==> Value(s) < Value(l)
  {
    var c, n := 0, 1;
    var i := |s|;
    assert s[i..] == [] && l[i..] == [];
    while i != 0
      invariant 0 <= i <= |s| && 0 <= c <= 1 && 0 <= n <= 1
      invariant c == 1 <==> Value(s[i..]) < Value(l[i..])
      invariant n == 1 <==> Value(s[i..]) == Value(l[i..])
    {
      i := i - 1;
      assert s[i..][1..] == s[i + 1..] && l[i..][1..] == l[i + 1..];
      if s[i] < l[i] && n == 1 {
        c := 1;
      }
      if s[i] != l[i] {
        n := 0;
      }
    }
    assert s[0..] == s && l[0..] == l;
    r := c != 0;
  }

  // ----- the scheme

  /**
    The curve and the hash: encode writes a point as 32 bytes, decodeNegated reads the negative of a
    point. The two checks on encodings and the constant tables of the source are parameters too.
   */
  datatype Curve<!G> = Curve(
    g: Group<G>,
    base: G,
    order: seq<int>,
    encode: G -> seq<int>,
    decodeNegated: seq<int> -> Option<G>,
    smallOrder: seq<int> -> bool,
    canonicalPoint: seq<int> -> bool,
    sha512: (seq<int>, int) -> int,
    baseTable: seq<G>,
    comb: (int, int) -> G)

  ghost predicate Sound<G(!new)>(c: Curve<G>) {
    && OrderBytes(c.order) && Abelian(c.g) && Multiple(c.g, Value(c.order), c.base) == c.g.zero
    && OddTable(c.g, c.baseTable, c.base) && CombTable(c.g, c.comb, c.base)
    && (forall p :: Bytes(c.encode(p), 32))
    && (forall p :: c.decodeNegated(c.encode(p)).Some? ==> c.decodeNegated(c.encode(p)).value == c.g.neg(p))
  }

  function Sha512<G>(c: Curve<G>, x: seq<int>): (b: seq<int>)
    ensures Bytes(b, 64)
  {
    seq(64, i => c.sha512(x, i) % 256)
  }

  /** Clears the three lowest bits and the highest, and sets the second highest. */
  function Clamp(t: seq<int>): (r: seq<int>)
    requires Bytes(t, 32)
    ensures Bytes(r, 32) && r[31] <= 127
  {
    t[0 := t[0] / 8 * 8][31 := t[31] % 64 + 64]
  }

  /** A number by its first byte, its last byte, and what is between. */
  lemma {:induction false} ValueEnds(s: seq<int>, k: nat)
    requires Below(s, 256) && |s| == k + 1 && k > 0
    ensures Value(s) == s[0] + 256 * Value(s[1..k]) + Pow2(8 * k) * s[k]
    decreases k
  {
    if k == 1 {
      assert s[1..1] == [] && s[1..][1..] == [];
      assert Value(s[1..]) == s[1];
      assert Pow2(8) == 256;
    } else {
      ValueEnds(s[1..], k - 1);
      assert s[1..][1..k - 1] == s[2..k] && s[1..k][1..] == s[2..k] && s[1..][k - 1] == s[k];
      PowStep(8 * (k - 1));
      assert 8 * k == 8 * (k - 1) + 8;
      Scaled256(Pow2(8 * (k - 1)), s[k]);
    }
  }

  lemma {:induction false} Scaled256(p: int, x: int)
    ensures 256 * (p * x) == (256 * p) * x
  {
  }

  lemma {:induction false} LowPlaces(x: nat, b: nat, q: nat)
    requires x < q
    ensures (x + q * b) % (64 * q) == x + q * (b % 64)
  {
    Parts(q, b / 64, b % 64);
    MulMono(b % 64, 63, q);
    DivModUnique(x + q * b, 64 * q, b / 64, x + q * (b % 64));
  }

  lemma {:induction false} Parts(q: int, h: int, l: int)
    ensures q * (64 * h + l) == h * (64 * q) + q * l
  {
  }

  lemma {:induction false} CutLow(a: nat, m: nat, w: nat)
    ensures (a + 256 * m + 8 * w) / 8 * 8 == a / 8 * 8 + 256 * m + 8 * w
  {
  }

  /** The low bits of the ends are cut and the top is set, for q = 2^248. */
  lemma {:induction false} ClampedEnds(a: nat, m: nat, b: nat, h: nat, q: nat)
    requires a < 256 && 256 * m + 256 <= q && q == 8 * h
    ensures a / 8 * 8 + 256 * m + q * (b % 64 + 64) == 64 * q + (a + 256 * m + q * b) % (64 * q) / 8 * 8
  {
    LowPlaces(a + 256 * m, b, q);
    assert q * (b % 64) == 8 * (h * (b % 64));
    CutLow(a, m, h * (b % 64));
    assert q * (b % 64 + 64) == q * (b % 64) + 64 * q;
  }

  /** The clamped scalar: the 254 low bits without the three lowest, and 2^254. */
  lemma {:induction false} ClampValue(t: seq<int>, k: nat)
    requires Bytes(t, 32) && k == 31
    ensures Value(Clamp(t)) == Pow2(8 * k + 6) + Value(t) % Pow2(8 * k + 6) / 8 * 8
  {
    var q := Pow2(8 * k);
    ClampedSums(t, k, t[1..k], q);
    SixMore(8 * k);
    MiddleFits(t[1..k], k, q);
    ClampedEnds(t[0], Value(t[1..k]), t[k], q / 8, q);
  }

  lemma {:induction false} ClampedSums(t: seq<int>, k: nat, m: seq<int>, q: nat)
    requires Bytes(t, 32) && k == 31 && m == t[1..k] && q == Pow2(8 * k)
    ensures Value(t) == t[0] + 256 * Value(m) + q * t[k]
    ensures Value(Clamp(t)) == t[0] / 8 * 8 + 256 * Value(m) + q * (t[k] % 64 + 64)
  {
    ValueEnds(t, k);
    ValueEnds(Clamp(t), k);
    assert Clamp(t)[1..k] == m;
  }

  lemma {:induction false} MiddleFits(m: seq<int>, k: nat, q: nat)
    requires Below(m, 256) && k > 0 && |m| == k - 1 && q == Pow2(8 * k)
    ensures 256 * Value(m) + 256 <= q && q == 8 * (q / 8)
  {
    PowStep(8 * |m|);
    assert 8 * k == 8 * |m| + 8;
  }

  lemma {:induction false} SixMore(n: nat)
    ensures Pow2(n + 6) == 64 * Pow2(n)
  {
    assert Pow2(n + 6) == 2 * Pow2(n + 5) && Pow2(n + 5) == 2 * Pow2(n + 4) && Pow2(n + 4) == 2 * Pow2(n + 3);
    assert Pow2(n + 3) == 2 * Pow2(n + 2) && Pow2(n + 2) == 2 * Pow2(n + 1) && Pow2(n + 1) == 2 * Pow2(n);
  }

  /** It is a multiple of 8 in [2^254, 2^255). */
  lemma {:induction false} ClampRange(t: seq<int>, k: nat)
    requires Bytes(t, 32) && k == 31
    ensures Value(Clamp(t)) % 8 == 0 && Pow2(8 * k + 6) <= Value(Clamp(t)) < 2 * Pow2(8 * k + 6)
  {
    ClampValue(t, k);
    SixMore(8 * k);
    var x := Value(t) % Pow2(8 * k + 6);
    assert (x / 8 * 8) <= x;
    DivModUnique(Value(Clamp(t)), 8, 8 * Pow2(8 * k) + x / 8, 0);
  }

  function SecretScalar<G>(c: Curve<G>, seed: seq<int>): (a: seq<int>)
    ensures Bytes(a, 32) && a[31] <= 127
  {
    Clamp(Sha512(c, seed)[..32])
  }

  function PublicKey<G>(c: Curve<G>, seed: seq<int>): seq<int> {
    c.encode(Multiple(c.g, Value(SecretScalar(c, seed)), c.base))
  }

  /** The scalar of the commitment. */
  function Nonce<G>(c: Curve<G>, seed: seq<int>, m: seq<int>): nat
    requires OrderBytes(c.order)
  {
    Value(Sha512(c, Sha512(c, seed)[32..] + m)) % Value(c.order)
  }

  function ChallengeScalar<G>(c: Curve<G>, r: seq<int>, pk: seq<int>, m: seq<int>): nat
    requires OrderBytes(c.order)
  {
    Value(Sha512(c, r + pk + m)) % Value(c.order)
  }

  /** Multiply and add. */
  function MulAdd(h: nat, a: nat, n: nat): nat { h * a + n }

  function Sign<G>(c: Curve<G>, seed: seq<int>, pk: seq<int>, m: seq<int>): (sig: seq<int>)
    requires OrderBytes(c.order)
  {
    var n := Nonce(c, seed, m);
    var r := c.encode(Multiple(c.g, n, c.base));
    r + ReducedScalar(MulAdd(ChallengeScalar(c, r, pk, m), Value(SecretScalar(c, seed)), n), c.order)
  }

  /** The checks before any curve arithmetic. */
  predicate PreChecks<G>(c: Curve<G>, sig: seq<int>, pk: seq<int>)
    requires OrderBytes(c.order) && Bytes(sig, 64)
  {
    && (sig[63] / 16 == 0 || Value(sig[32..]) < Value(c.order))
    && !c.smallOrder(sig[..32])
    && c.canonicalPoint(pk) && !c.smallOrder(pk) && c.decodeNegated(pk).Some?
  }

  predicate Verifies<G>(c: Curve<G>, sig: seq<int>, m: seq<int>, pk: seq<int>)
    requires OrderBytes(c.order) && Bytes(sig, 64)
  {
    && PreChecks(c, sig, pk)
    && c.encode(Both(c.g, ChallengeScalar(c, sig[..32], pk, m), c.decodeNegated(pk).value, Value(sig[32..]), c.base))
      == sig[..32]
  }

  /** A second half that passes the check on its top byte has its top bit clear. */
  lemma {:induction false} ScalarFits(s: seq<int>, l: seq<int>)
    requires OrderBytes(l) && Bytes(s, 32) && (s[31] / 16 == 0 || Value(s) < Value(l))
    ensures s[31] <= 127
  {
    if Value(s) < Value(l) {
      TopOfLess(s, l);
    }
  }

  // ----- completeness

  /** h (-A) + s B == n B when A == a B and s == h a + n modulo the order. */
  lemma {:induction false} CommitmentAgain<G(!new)>(g: Group<G>, base: G, l: nat, h: nat, a: nat, n: nat)
    requires Abelian(g) && l > 0 && Multiple(g, l, base) == g.zero
    ensures Both(g, h, g.neg(Multiple(g, a, base)), MulAdd(h, a, n) % l, base) == Multiple(g, n, base)
  {
    MultipleMod(g, MulAdd(h, a, n), l, base);
    MultipleNegated(g, h, Multiple(g, a, base));
    MultipleMultiple(g, 0 - h, a, base);
    var x := h * a;
    assert (0 - h) * a == -x;
    MultipleAdd(g, -x, x + n, base);
  }

  /**
    Completeness: a signature is accepted under its own key exactly when none of the checks made before
    the curve arithmetic fires. The scalar half always passes its check.
   */
  lemma {:induction false} VerifiesIffPreChecks<G(!new)>(c: Curve<G>, seed: seq<int>, m: seq<int>, pk: seq<int>,
      sig: seq<int>)
    requires Sound(c) && pk == PublicKey(c, seed) && sig == Sign(c, seed, pk, m)
    ensures Bytes(sig, 64) && Value(sig[32..]) < Value(c.order)
    ensures Verifies(c, sig, m, pk)
      <==> !c.smallOrder(sig[..32]) && c.canonicalPoint(pk) && !c.smallOrder(pk) && c.decodeNegated(pk).Some?
  {
    var a, n := Value(SecretScalar(c, seed)), Nonce(c, seed, m);
    var r := c.encode(Multiple(c.g, n, c.base));
    var h := ChallengeScalar(c, r, pk, m);
    var s := ReducedScalar(MulAdd(h, a, n), c.order);
    assert Bytes(r, 32);
    assert sig[..32] == r && sig[32..] == s;
    ReducedScalarValue(MulAdd(h, a, n), c.order);
    if c.decodeNegated(pk).Some? {
      CommitmentAgain(c.g, c.base, Value(c.order), h, a, n);
    }
  }
}
