/** The two scalar operations of the source on bytes: reduction of 64 bytes, and a b + c. */
module ScalarMulAdd {
  import opened ModArith
  import opened BitPacking
  import opened PolyPacking
  import opened ScalarDigits
  import opened LimbBytes
  import opened ScalarReduce
  import opened Ed25519

  // ----- limbs from bytes

  /** The 24 limbs of 64 bytes: the masks and shifts repeat after 21 bytes, and the last limb takes the rest. */
  function LoadAll(b: seq<int>): (s: seq<int>)
    requires Bytes(b, 64)
    ensures |s| == 24
  {
    EightLimbs(b) + EightLimbs(b[21..]) + EightLimbs(b[42..])[7 := Load4(b[42..], 18) / 8]
  }

  /** The twelve limbs of 32 bytes. */
  function LoadTwelve(b: seq<int>): (s: seq<int>)
    requires Bytes(b, 32)
    ensures |s| == 12
  {
    EightLimbs(b) + FourLimbs(b[21..])
  }

  /** The first n limbs of a sequence, by its front: eight limbs are 168 bits. */
  lemma {:induction false} LimbsFront(s: seq<int>, n: nat)
    requires 8 <= n <= |s|
    ensures Limbs(s, n) == Limbs8(s[0], s[1], s[2], s[3], s[4], s[5], s[6], s[7]) + POW168 * Limbs(s[8..], n - 8)
  {
    LimbsFrontFour(s, n);
    LimbsFrontFour(s[4..], n - 4);
    assert s[4..][4..] == s[8..];
  }

  lemma {:induction false} LimbsFrontFour(s: seq<int>, n: nat)
    requires 4 <= n <= |s|
    ensures Limbs(s, n) == s[0] + LIMB * s[1] + 0x400_0000_0000 * s[2] + 0x8000_0000_0000_0000 * s[3]
      + 0x10_0000_0000_0000_0000_0000 * Limbs(s[4..], n - 4)
  {
    OneLimb(s, n);
    OneLimb(s[1..], n - 1);
    OneLimb(s[2..], n - 2);
    OneLimb(s[3..], n - 3);
    assert s[1..][1..] == s[2..] && s[2..][1..] == s[3..] && s[3..][1..] == s[4..];
  }

  lemma {:induction false} OneLimb(s: seq<int>, n: nat)
    requires 0 < n <= |s|
    ensures Limbs(s, n) == s[0] + LIMB * Limbs(s[1..], n - 1)
  {
    SumShift(s, 21, n);
    PowLimb(0);
    assert Pow2(0) == 1;
  }

  /** Loading keeps the number. */
  lemma {:induction false} LoadTwelveValue(b: seq<int>)
    requires Bytes(b, 32)
    ensures Limbs(LoadTwelve(b), 12) == Value(b) && ScalarLimbs(LoadTwelve(b))
  {
    var s, rest := LoadTwelve(b), FourLimbs(b[21..]);
    Value21(b);
    EightLimbsValue(b);
    Value11(b[21..]);
    FourLimbsValue(b[21..]);
    LimbsFront(s, 12);
    assert s[8..] == rest && rest[4..] == [];
    LimbsFrontFour(rest, 4);
    assert forall j :: 0 <= j < 8 ==> s[j] == EightLimbs(b)[j];
    assert forall j :: 8 <= j < 12 ==> s[j] == rest[j - 8];
  }

  /** Eight limbs out of 21 bytes in front of others. */
  lemma {:induction false} LoadedFront(b: seq<int>, rest: seq<int>, n: nat)
    requires Below(b, 256) && |b| >= 21 && n <= |rest|
    ensures Limbs(EightLimbs(b) + rest, n + 8) == Bytes21(b) + POW168 * Limbs(rest, n)
  {
    var e := EightLimbs(b);
    EightLimbsValue(b);
    LimbsFront(e + rest, n + 8);
    assert (e + rest)[8..] == rest;
  }

  lemma {:induction false} LoadAllValue(b: seq<int>)
    requires Bytes(b, 64)
    ensures Limbs(LoadAll(b), 24) == Value(b) && Within(LoadAll(b), 0, 24, SMALL)
  {
    var last := EightLimbs(b[42..])[7 := Load4(b[42..], 18) / 8];
    LoadAllWithin(b);
    LastEight(b[42..], last);
    assert b[21..][21..] == b[42..];
    LoadedNext(b[21..], last, 8);
    LoadedNext(b, EightLimbs(b[21..]) + last, 16);
    assert LoadAll(b) == EightLimbs(b) + (EightLimbs(b[21..]) + last);
  }

  lemma {:induction false} LoadedNext(b: seq<int>, rest: seq<int>, n: nat)
    requires Below(b, 256) && |b| >= 21 && n <= |rest| && Limbs(rest, n) == Value(b[21..])
    ensures Limbs(EightLimbs(b) + rest, n + 8) == Value(b)
  {
    LoadedFront(b, rest, n);
    Value21(b);
  }

  lemma {:induction false} LastEight(b: seq<int>, last: seq<int>)
    requires Bytes(b, 22) && last == EightLimbs(b)[7 := Load4(b, 18) / 8]
    ensures Limbs(last, 8) == Value(b)
  {
    EightLimbsValue(b);
    LastOfAll(b);
    LimbsFront(last, 8);
    Value21(b);
    OneByte(b, 21);
    assert b[22..] == [] && last[8..] == [];
  }

  lemma {:induction false} LoadAllWithin(b: seq<int>)
    requires Bytes(b, 64)
    ensures Within(LoadAll(b), 0, 24, SMALL)
  {
    LastOfAll(b[42..]);
    assert forall j :: 0 <= j < 8 ==> 0 <= EightLimbs(b)[j] < LIMB && 0 <= EightLimbs(b[21..])[j] < LIMB;
    assert forall j :: 0 <= j < 8 ==> 0 <= EightLimbs(b[42..])[j] < LIMB;
  }

  // ----- bytes from limbs

  /** Limbs that can be stored: the last one may have a few bits more. */
  predicate Storable(s: seq<int>) {
    |s| >= 12 && 0 <= s[11] < 0x200_0000 && forall j :: 0 <= j < 11 ==> 0 <= s[j] < LIMB
  }

  function StoreScalar(s: seq<int>): (b: seq<int>)
    requires Storable(s)
    ensures Bytes(b, 32)
  {
    StoreEight(s[0], s[1], s[2], s[3], s[4], s[5], s[6], s[7]) + StoreFour(s[8], s[9], s[10], s[11])
  }

  /** Storing keeps the number, too, so the bytes are those of the number. */
  lemma {:induction false} StoreScalarIs(s: seq<int>, x: nat)
    requires Storable(s) && Limbs(s, 12) == x
    ensures StoreScalar(s) == ToBytes(x, 32)
  {
    var low, high := StoreEight(s[0], s[1], s[2], s[3], s[4], s[5], s[6], s[7]), StoreFour(s[8], s[9], s[10], s[11]);
    StoredLow(s, low);
    StoredHigh(s, high);
    StoredIs(s, low, high, x);
  }

  lemma {:induction false} StoredIs(s: seq<int>, low: seq<int>, high: seq<int>, x: nat)
    requires Storable(s) && Limbs(s, 12) == x && Bytes(low, 21) && Bytes(high, 11)
    requires Bytes21(low) == Limbs8(s[0], s[1], s[2], s[3], s[4], s[5], s[6], s[7]) && Bytes11(high) == Limbs(s[8..], 4)
    ensures low + high == ToBytes(x, 32)
  {
    StoredParts(low, high);
    LimbsFront(s, 12);
    ToBytesOfValue(low + high);
  }

  lemma {:induction false} StoredLow(s: seq<int>, low: seq<int>)
    requires Storable(s) && low == StoreEight(s[0], s[1], s[2], s[3], s[4], s[5], s[6], s[7])
    ensures Bytes21(low) == Limbs8(s[0], s[1], s[2], s[3], s[4], s[5], s[6], s[7])
  {
    StoreEightValue(s[0], s[1], s[2], s[3], s[4], s[5], s[6], s[7]);
  }

  lemma {:induction false} StoredHigh(s: seq<int>, high: seq<int>)
    requires Storable(s) && high == StoreFour(s[8], s[9], s[10], s[11])
    ensures Bytes11(high) == Limbs(s[8..], 4)
  {
    StoreFourValue(s[8], s[9], s[10], s[11]);
    LimbsFrontFour(s[8..], 4);
  }

  lemma {:induction false} StoredParts(low: seq<int>, high: seq<int>)
    requires Bytes(low, 21) && Bytes(high, 11)
    ensures Value(low + high) == Bytes21(low) + POW168 * Bytes11(high)
  {
    Value21(low + high);
    Value11(high);
    assert (low + high)[21..] == high;
    assert forall j :: 0 <= j < 21 ==> (low + high)[j] == low[j];
  }

  // ----- reduction

  /** The reduction of the source, from bytes to bytes. */
  function ReduceBytes(b: seq<int>): (r: seq<int>)
    requires Bytes(b, 64)
    ensures Bytes(r, 32)
  {
    LoadAllValue(b);
    ReduceExact(LoadAll(b));
    StoreScalar(Reduce(LoadAll(b)))
  }

  lemma {:induction false} OneByte(t: seq<int>, k: nat)
    requires Below(t, 256) && k < |t|
    ensures Value(t[k..]) == t[k] + 0x100 * Value(t[k + 1..])
  {
    assert t[k..][1..] == t[k + 1..];
  }

  lemma {:induction false} FourBytes(t: seq<int>, k: nat, v: int)
    requires Below(t, 256) && k + 4 <= |t| && Value(t[k + 4..]) == v
    ensures Value(t[k..]) == t[k] + 0x100 * t[k + 1] + 0x1_0000 * t[k + 2] + 0x100_0000 * t[k + 3] + 0x1_0000_0000 * v
  {
    OneByte(t, k);
    OneByte(t, k + 1);
    OneByte(t, k + 2);
    OneByte(t, k + 3);
  }

  /** The bytes of the order, one by one. */
  predicate IsOrder(t: seq<int>) {
    && OrderBytes(t)
    && t[0] == 0xED && t[1] == 0xD3 && t[2] == 0xF5 && t[3] == 0x5C && t[4] == 0x1A && t[5] == 0x63 && t[6] == 0x12
      && t[7] == 0x58
    && t[8] == 0xD6 && t[9] == 0x9C && t[10] == 0xF7 && t[11] == 0xA2 && t[12] == 0xDE && t[13] == 0xF9
      && t[14] == 0xDE && t[15] == 0x14
    && (forall j :: 16 <= j < 31 ==> t[j] == 0) && t[31] == 0x10
  }

  /** Their value is L. */
  lemma {:induction false} OrderValue(t: seq<int>)
    requires IsOrder(t)
    ensures Value(t) == L
  {
    assert t[32..] == [];
    FourBytes(t, 28, 0x0);
    FourBytes(t, 24, 0x10000000);
    FourBytes(t, 20, 0x1000000000000000);
    FourBytes(t, 16, 0x100000000000000000000000);
    FourBytes(t, 12, 0x10000000000000000000000000000000);
    FourBytes(t, 8, 0x1000000000000000000000000000000014DEF9DE);
    FourBytes(t, 4, 0x1000000000000000000000000000000014DEF9DEA2F79CD6);
    FourBytes(t, 0, 0x1000000000000000000000000000000014DEF9DEA2F79CD65812631A);
    assert t[0..] == t;
  }

  /** The bytes that the canonicity check compares with are those of the order that the folds take away. */
  lemma {:induction false} SourceOrderValue(t: seq<int>)
    requires t == ORDER_BYTES
    ensures IsOrder(t) && Value(t) == L
  {
    SourceOrder();
    OrderValue(t);
  }

  /**
    The reduction of 64 bytes: the result is the encoding of the unique representative modulo the order
    that signing and verification are specified with.
   */
  lemma {:induction false} ReduceBytesExact(b: seq<int>, l: seq<int>)
    requires Bytes(b, 64) && IsOrder(l)
    ensures ReduceBytes(b) == ReducedScalar(Value(b), l)
  {
    OrderValue(l);
    LoadAllValue(b);
    ReduceExact(LoadAll(b));
    StoreScalarIs(Reduce(LoadAll(b)), Value(b) % L);
  }

  // ----- multiply and add

  function AddLimbs(s: seq<int>, t: seq<int>): (u: seq<int>)
    requires |s| == |t|
    ensures |u| == |s|
  {
    seq(|s|, i requires 0 <= i < |s| => s[i] + t[i])
  }

  lemma {:induction false} AddLimbsValue(s: seq<int>, t: seq<int>, n: nat)
    requires |s| == |t| && n <= |s|
    ensures Limbs(AddLimbs(s, t), n) == Limbs(s, n) + Limbs(t, n)
    decreases n
  {
    if n > 0 {
      AddLimbsValue(s, t, n - 1);
      assert (s[n - 1] + t[n - 1]) * Pow2(21 * (n - 1)) == s[n - 1] * Pow2(21 * (n - 1))
        + t[n - 1] * Pow2(21 * (n - 1));
    }
  }

  /** x times the limbs b, m places up, in 24 limbs. */
  function RowLimbs(x: int, b: seq<int>, m: nat): (u: seq<int>)
    requires m + |b| <= 24
    ensures |u| == 24
  {
    seq(24, k => if m <= k < m + |b| then x * b[k - m] else 0)
  }

  /** Limb k is c[k] plus the sum of the products a[i] b[k - i], added up for i below n. */
  function ProductLimbs(a: seq<int>, b: seq<int>, c: seq<int>, n: nat): (u: seq<int>)
    requires n <= |a| <= 12 && |b| <= 12 && |c| == 24
    ensures |u| == 24
  {
    if n == 0 then c else AddLimbs(ProductLimbs(a, b, c, n - 1), RowLimbs(a[n - 1], b, n - 1))
  }

  lemma {:induction false} RowValue(x: int, b: seq<int>, m: nat, k: nat)
    requires m + |b| <= 24 && k <= |b|
    ensures Limbs(RowLimbs(x, b, m), m + k) == x * Pow2(21 * m) * Limbs(b, k)
    decreases k
  {
    var u := RowLimbs(x, b, m);
    if k == 0 {
      SumZeros(u, 21, 0, m);
    } else {
      RowValue(x, b, m, k - 1);
      PowAdd2(21 * m, 21 * (k - 1));
      assert 21 * (m + k - 1) == 21 * m + 21 * (k - 1);
      RowTerm(x, b[k - 1], Pow2(21 * m), Pow2(21 * (k - 1)), Limbs(b, k - 1));
    }
  }

  lemma {:induction false} RowTerm(x: int, y: int, p: int, q: int, v: int)
    ensures x * p * v + (x * y) * (p * q) == x * p * (v + y * q)
  {
    assert (x * y) * (p * q) == (x * p) * (y * q);
  }

  lemma {:induction false} OneMoreLimb(u: int, x: int, p: int, v: int)
    ensures (u + x * p) * v == u * v + x * p * v
  {
  }

  lemma {:induction false} ProductValue(a: seq<int>, b: seq<int>, c: seq<int>, n: nat)
    requires n <= |a| <= 12 && |b| == 12 && |c| == 24
    ensures Limbs(ProductLimbs(a, b, c, n), 24) == Limbs(c, 24) + Limbs(a, n) * Limbs(b, 12)
    decreases n
  {
    if n > 0 {
      var row := RowLimbs(a[n - 1], b, n - 1);
      ProductValue(a, b, c, n - 1);
      AddLimbsValue(ProductLimbs(a, b, c, n - 1), row, 24);
      RowValue(a[n - 1], b, n - 1, 12);
      SumZeros(row, 21, n - 1 + 12, 24);
      OneMoreLimb(Limbs(a, n - 1), a[n - 1], Pow2(21 * (n - 1)), Limbs(b, 12));
    }
  }

  /** Twelve limbs of a 32-byte number. */
  predicate ScalarLimbs(a: seq<int>) {
    |a| == 12 && 0 <= a[11] < 0x200_0000 && forall j :: 0 <= j < 11 ==> 0 <= a[j] < LIMB
  }

  lemma {:induction false} BoundedProduct(x: int, y: int, m: int, n: int)
    requires 0 <= x <= m && 0 <= y <= n
    ensures 0 <= x * y <= m * n
  {
    MulMono(x, m, y);
    MulMono(y, n, m);
    MulMono(0, x, y);
  }

  lemma {:induction false} RowWithin(x: int, b: seq<int>, m: nat, k: nat)
    requires ScalarLimbs(b) && m < 12 && 0 <= x < 0x200_0000 && (m < 11 ==> x < LIMB) && k < 24
    ensures 0 <= RowLimbs(x, b, m)[k] <= if k == 22 && m >= 11 then 0x4_0000_0000_0000 else 0x4000_0000_0000
    ensures k >= m + 12 ==> RowLimbs(x, b, m)[k] == 0
  {
    if m <= k < m + 12 {
      var y := b[k - m];
      assert RowLimbs(x, b, m)[k] == x * y;
      EntryWithin(x, y, m < 11, k - m < 11);
    }
  }

  lemma {:induction false} EntryWithin(x: int, y: int, shortX: bool, shortY: bool)
    requires 0 <= x < (if shortX then LIMB else 0x200_0000) && 0 <= y < (if shortY then LIMB else 0x200_0000)
    ensures 0 <= x * y <= if shortX || shortY then 0x4000_0000_0000 else 0x4_0000_0000_0000
  {
    if shortX {
      BoundedProduct(x, y, LIMB, 0x200_0000);
    } else if shortY {
      BoundedProduct(x, y, 0x200_0000, LIMB);
    } else {
      BoundedProduct(x, y, 0x200_0000, 0x200_0000);
    }
  }

  lemma {:induction false} ProductWithinBounds(a: seq<int>, b: seq<int>, c: seq<int>, n: nat, k: nat)
    requires ScalarLimbs(a) && ScalarLimbs(b) && |c| == 24 && n <= 12 && k < 24
    requires 0 <= c[k] <= 0x200_0000 && (k >= 12 ==> c[k] == 0)
    ensures var u := ProductLimbs(a, b, c, n)[k];
      && 0 <= u <= (if k == 22 && n == 12 then 0x4_0000_0000_0000 else 0x200_0000 + n * 0x4000_0000_0000)
      && (k >= n + 11 && k >= 12 ==> u == 0)
    decreases n
  {
    if n > 0 {
      ProductWithinBounds(a, b, c, n - 1, k);
      RowWithin(a[n - 1], b, n - 1, k);
    }
  }

  /** Multiplication and addition in limbs, with the carries that prepare the reduction. */
  function MulAddLimbs(a: seq<int>, b: seq<int>, c: seq<int>): (t: seq<int>)
    requires |a| == |b| == |c| == 12
    ensures |t| == 24
  {
    Reduce(BothPasses(ProductLimbs(a, b, c + seq(12, _ => 0), 12), 0, 22, 21))
  }

  lemma {:induction false} MulAddLimbsExact(a: seq<int>, b: seq<int>, c: seq<int>)
    requires ScalarLimbs(a) && ScalarLimbs(b) && ScalarLimbs(c)
    ensures Limbs(MulAddLimbs(a, b, c), 12) == (Limbs(a, 12) * Limbs(b, 12) + Limbs(c, 12)) % L
    ensures Storable(MulAddLimbs(a, b, c))
  {
    var c' := c + seq(12, _ => 0);
    var u := ProductLimbs(a, b, c', 12);
    var t := BothPasses(u, 0, 22, 21);
    forall k | 0 <= k < 24 ensures 0 <= u[k] <= 0x4_0000_0000_0000 && (k == 23 ==> u[k] == 0) {
      ProductWithinBounds(a, b, c', 12, k);
    }
    BothPassesWithin(u, 0, 22, 21, 23, 0x4_0000_0000_0000, 0x4000_0001);
    RoundsKeep(u, 0, 22, 24);
    RoundsKeep(Rounds(u, 0, 22), 1, 21, 24);
    ProductValue(a, b, c', 12);
    SumZeros(c', 21, 12, 24);
    SumSame(c', c, 21, 12);
    ReduceExact(t);
  }

  function MulAddBytes(a: seq<int>, b: seq<int>, c: seq<int>): (r: seq<int>)
    requires Bytes(a, 32) && Bytes(b, 32) && Bytes(c, 32)
    ensures Bytes(r, 32)
  {
    LoadTwelveValue(a);
    LoadTwelveValue(b);
    LoadTwelveValue(c);
    MulAddLimbsExact(LoadTwelve(a), LoadTwelve(b), LoadTwelve(c));
    StoreScalar(MulAddLimbs(LoadTwelve(a), LoadTwelve(b), LoadTwelve(c)))
  }

  /** a b + c of the source is the scalar that signing is specified with, for all 32-byte numbers. */
  lemma {:induction false} MulAddBytesExact(a: seq<int>, b: seq<int>, c: seq<int>, l: seq<int>)
    requires Bytes(a, 32) && Bytes(b, 32) && Bytes(c, 32) && IsOrder(l)
    ensures MulAddBytes(a, b, c) == ReducedScalar(MulAdd(Value(a), Value(b), Value(c)), l)
  {
    OrderValue(l);
    LoadTwelveValue(a);
    LoadTwelveValue(b);
    LoadTwelveValue(c);
    MulAddLimbsExact(LoadTwelve(a), LoadTwelve(b), LoadTwelve(c));
    StoreScalarIs(MulAddLimbs(LoadTwelve(a), LoadTwelve(b), LoadTwelve(c)), MulAdd(Value(a), Value(b), Value(c)) % L);
  }
}
