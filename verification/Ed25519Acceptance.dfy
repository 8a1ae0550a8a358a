/**
  What an accepted Ed25519 signature says. With A the point that the key decodes to, h the reduced hash and s the
  second half, the first half must encode the R with s B = R + h A.
 */
module Ed25519Acceptance {
  import opened Wrappers
  import opened ModArith
  import opened BitPacking
  import opened PolyPacking
  import opened Groups
  import opened ScalarDigits
  import opened Ed25519Mult
  import opened Ed25519

  /** The hash that binds the first half, the key and the message, as a number below the order. */
  function HashNumber<G>(c: Curve<G>, sig: seq<int>, m: seq<int>, pk: seq<int>): (h: nat)
    requires OrderBytes(c.order) && Bytes(sig, 64)
  {
    Value(seq(64, i => c.sha512(sig[..32] + pk + m, i) % 256)) % Value(c.order)
  }

  /** r + h a == s B has the solution r that the verifier computes from the negative of a. */
  lemma {:induction false} Recomputed<G(!new)>(g: Group<G>, base: G, s: int, h: int, a: G, r: G)
    requires Abelian(g) && Multiple(g, s, base) == g.add(r, Multiple(g, h, a))
    ensures g.add(Multiple(g, h, g.neg(a)), Multiple(g, s, base)) == r
  {
    var x := Multiple(g, h, a);
    MultipleNegated(g, h, a);
    MultipleNeg(g, h, a);
    Laws(g, g.neg(x), g.add(r, x), x);
    Laws(g, r, x, g.neg(x));
    Laws(g, x, g.zero, x);
    Laws(g, r, g.zero, x);
  }

  /** A signature is accepted if and only if the checks pass and its first half encodes that R. */
  lemma {:induction false} AcceptedIff<G(!new)>(c: Curve<G>, sig: seq<int>, m: seq<int>, pk: seq<int>, a: G, r: G)
    requires Sound(c) && Bytes(sig, 64) && c.decodeNegated(pk) == Some(c.g.neg(a))
    requires Multiple(c.g, Value(sig[32..]), c.base) == c.g.add(r, Multiple(c.g, HashNumber(c, sig, m, pk), a))
    ensures Verifies(c, sig, m, pk) <==> PreChecks(c, sig, pk) && c.encode(r) == sig[..32]
  {
    var h := HashNumber(c, sig, m, pk);
    assert ChallengeScalar(c, sig[..32], pk, m) == h;
    Recomputed(c.g, c.base, Value(sig[32..]), h, a, r);
  }

  /** Such an R always exists. */
  lemma {:induction false} Commitment<G(!new)>(g: Group<G>, base: G, s: int, h: int, a: G) returns (r: G)
    requires Abelian(g)
    ensures Multiple(g, s, base) == g.add(r, Multiple(g, h, a))
  {
    var x, y := Multiple(g, s, base), Multiple(g, h, a);
    r := g.add(x, g.neg(y));
    Laws(g, x, g.neg(y), y);
    Laws(g, y, g.neg(y), y);
    Laws(g, x, g.zero, y);
  }

  ghost predicate Injective<G(!new)>(c: Curve<G>) {
    forall p, q :: c.encode(p) == c.encode(q) ==> p == q
  }

  lemma {:induction false} Shifted<G(!new)>(g: Group<G>, r: G, x: G, y: G)
    requires Abelian(g) && g.add(r, x) == g.add(r, y)
    ensures x == y
  {
    Laws(g, g.neg(r), r, x);
    Laws(g, g.neg(r), r, y);
    Laws(g, r, g.neg(r), r);
    Laws(g, x, g.zero, x);
    Laws(g, y, g.zero, y);
  }

  lemma {:induction false} DifferenceZero<G(!new)>(g: Group<G>, h: int, h': int, a: G)
    requires Abelian(g) && Multiple(g, h, a) == Multiple(g, h', a)
    ensures Multiple(g, h - h', a) == g.zero
  {
    MultipleAdd(g, h, -h', a);
    MultipleNeg(g, h', a);
    Laws(g, Multiple(g, h', a), g.zero, g.zero);
  }

  /** One signature for two messages: the difference of the two hashes annihilates the key's point. */
  lemma {:induction false} TwoMessages<G(!new)>(c: Curve<G>, sig: seq<int>, m: seq<int>, m': seq<int>, pk: seq<int>,
      a: G)
    requires Sound(c) && Injective(c) && Bytes(sig, 64) && c.decodeNegated(pk) == Some(c.g.neg(a))
    requires Verifies(c, sig, m, pk) && Verifies(c, sig, m', pk)
    ensures Multiple(c.g, HashNumber(c, sig, m, pk) - HashNumber(c, sig, m', pk), a) == c.g.zero
  {
    var s, h, h' := Value(sig[32..]), HashNumber(c, sig, m, pk), HashNumber(c, sig, m', pk);
    var r := Commitment(c.g, c.base, s, h, a);
    var r' := Commitment(c.g, c.base, s, h', a);
    AcceptedIff(c, sig, m, pk, a, r);
    AcceptedIff(c, sig, m', pk, a, r');
    Shifted(c.g, r, Multiple(c.g, h, a), Multiple(c.g, h', a));
    DifferenceZero(c.g, h, h', a);
  }

  /** The order of the base point is exactly the given one. */
  ghost predicate ExactOrder<G(!new)>(c: Curve<G>)
    requires OrderBytes(c.order)
  {
    forall n {:trigger Multiple(c.g, n, c.base)} :: Multiple(c.g, n, c.base) == c.g.zero ==> n % Value(c.order) == 0
  }

  /** For one first half, key and message at most one second half below the order is accepted. */
  lemma {:induction false} OneSecondHalf<G(!new)>(c: Curve<G>, sig: seq<int>, sig': seq<int>, m: seq<int>, pk: seq<int>,
      a: G)
    requires Sound(c) && Injective(c) && ExactOrder(c) && Bytes(sig, 64) && Bytes(sig', 64) && sig[..32] == sig'[..32]
    requires c.decodeNegated(pk) == Some(c.g.neg(a)) && Verifies(c, sig, m, pk) && Verifies(c, sig', m, pk)
    requires Value(sig[32..]) < Value(c.order) && Value(sig'[32..]) < Value(c.order)
    ensures sig == sig'
  {
    var s, s', h := Value(sig[32..]), Value(sig'[32..]), HashNumber(c, sig, m, pk);
    assert h == HashNumber(c, sig', m, pk);
    var r := Commitment(c.g, c.base, s, h, a);
    var r' := Commitment(c.g, c.base, s', h, a);
    AcceptedIff(c, sig, m, pk, a, r);
    AcceptedIff(c, sig', m, pk, a, r');
    DifferenceZero(c.g, s, s', c.base);
    Near(s, s', Value(c.order));
    ToBytesOfValue(sig[32..]);
    ToBytesOfValue(sig'[32..]);
    assert sig == sig[..32] + sig[32..] && sig' == sig'[..32] + sig'[32..];
  }

  lemma {:induction false} Near(x: nat, y: nat, l: nat)
    requires x < l && y < l && (x - y) % l == 0
    ensures x == y
  {
    CongIntro(x, y, l, (x - y) / l);
    CongNear(x, y, l);
  }

  /** For an order whose top byte is 16, the check on the second half holds exactly below the order. */
  lemma {:induction false} ScalarCheck(s: seq<int>, l: seq<int>, k: nat)
    requires Bytes(s, 32) && Bytes(l, 32) && l[31] == 16 && k == 31
    ensures s[31] / 16 == 0 || Value(s) < Value(l) <==> Value(s) < Value(l)
  {
    if s[31] < 16 {
      TopDecides(s, l, k);
    }
  }

  lemma {:induction false} TopDecides(s: seq<int>, l: seq<int>, k: nat)
    requires Bytes(s, k + 1) && Bytes(l, k + 1) && k > 0 && s[k] < l[k]
    ensures Value(s) < Value(l)
  {
    ValueEnds(s, k);
    ValueEnds(l, k);
    MiddleFits(s[1..k], k, Pow2(8 * k));
    Tops(s[0] + 256 * Value(s[1..k]), l[0] + 256 * Value(l[1..k]), s[k], l[k], Pow2(8 * k));
  }

  lemma {:induction false} Tops(a: nat, b: nat, x: nat, y: nat, q: nat)
    requires a < q && x < y
    ensures a + q * x < b + q * y
  {
    MulMono(x + 1, y, q);
    assert (x + 1) * q == q * x + q;
  }
}
