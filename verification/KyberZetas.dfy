/** The zeta table of the Kyber code, and what it contains: 2^16 * 17^BitRev(k) modulo Q. */
module KyberZetas {
  import opened Tables
  import opened ModArith
  import opened RootTrees
  import opened KyberParams
  import opened KyberReduce

  const PSI := 17

  /** The table as signed 16-bit values, row by row as in the source. */
  function Zeta(k: int): int {
    match k / 8
    case 0 => Pick(k % 8, -1044, -758, -359, -1517, 1493, 1422, 287, 202)
    case 1 => Pick(k % 8, -171, 622, 1577, 182, 962, -1202, -1474, 1468)
    case 2 => Pick(k % 8, 573, -1325, 264, 383, -829, 1458, -1602, -130)
    case 3 => Pick(k % 8, -681, 1017, 732, 608, -1542, 411, -205, -1571)
    case 4 => Pick(k % 8, 1223, 652, -552, 1015, -1293, 1491, -282, -1544)
    case 5 => Pick(k % 8, 516, -8, -320, -666, -1618, -1162, 126, 1469)
    case 6 => Pick(k % 8, -853, -90, -271, 830, 107, -1421, -247, -951)
    case 7 => Pick(k % 8, -398, 961, -1508, -725, 448, -1065, 677, -1275)
    case 8 => Pick(k % 8, -1103, 430, 555, 843, -1251, 871, 1550, 105)
    case 9 => Pick(k % 8, 422, 587, 177, -235, -291, -460, 1574, 1653)
    case 10 => Pick(k % 8, -246, 778, 1159, -147, -777, 1483, -602, 1119)
    case 11 => Pick(k % 8, -1590, 644, -872, 349, 418, 329, -156, -75)
    case 12 => Pick(k % 8, 817, 1097, 603, 610, 1322, -1285, -1465, 384)
    case 13 => Pick(k % 8, -1215, -136, 1218, -1335, -874, 220, -1187, -1659)
    case 14 => Pick(k % 8, -1185, -1530, -1278, 794, -1510, -854, -870, 478)
    case 15 => Pick(k % 8, -108, -308, 996, 991, 958, -1460, 1522, 1628)
    case _ => 0
  }

  lemma {:induction false} ZetaSmall(k: int)
    ensures -1664 <= Zeta(k) <= 1664
  {
  }

  /** 17 raised to the weight of index bit s. */
  function StepRoot(s: nat): int {
    match s
    case 64 => 17
    case 32 => 289
    case 16 => 296
    case 8 => 1062
    case 4 => 2642
    case 2 => 2580
    case 1 => 1729
    case _ => 0
  }

  /** Setting bit s of an index multiplies the entry by a fixed root. */
  predicate TableStep(k: int, s: nat) {
    (Zeta(k) - Zeta(k - s) * StepRoot(s)) % Q == 0
  }

  lemma {:induction false} Table64(k: int)
    requires 64 < k < 96
    ensures TableStep(k, 64)
  {
  }

  lemma {:induction false} Table96(k: int)
    requires 96 <= k < 128
    ensures TableStep(k, 64)
  {
  }

  lemma {:induction false} Table32(k: int)
    requires 32 < k < 64
    ensures TableStep(k, 32)
  {
  }

  lemma {:induction false} Table16(k: int)
    requires 16 < k < 32
    ensures TableStep(k, 16)
  {
  }

  lemma {:induction false} TableLow(k: int, s: nat)
    requires s in {8, 4, 2} && s < k < 2 * s
    ensures TableStep(k, s)
  {
  }

  lemma {:induction false} TableStepAt(k: int, s: nat)
    requires s in {64, 32, 16, 8, 4, 2, 1} && s < k < 2 * s
    ensures TableStep(k, s)
  {
    if s == 64 {
      if k < 96 { Table64(k); } else { Table96(k); }
    } else if s == 32 {
      Table32(k);
    } else if s == 16 {
      Table16(k);
    } else {
      TableLow(k, s);
    }
  }

  lemma {:induction false} SmallPowers(s: nat)
    requires PowerOfTwo(s) && s <= 64
    ensures s in {64, 32, 16, 8, 4, 2, 1}
  {
    if s > 1 {
      SmallPowers(s / 2);
    }
  }

  /** Entry 2^i holds its own root. */
  lemma {:induction false} TablePowers(s: nat)
    requires s in {64, 32, 16, 8, 4, 2, 1}
    ensures (Zeta(s) - R * StepRoot(s)) % Q == 0
  {
  }

  /** The step roots are successive squares of psi, and psi^128 = -1. */
  lemma {:induction false} StepRoots(s: nat)
    requires s in {64, 32, 16, 8, 4, 2, 1}
    ensures Cong(Pow(PSI, BitWeight(s, 64, 1)), StepRoot(s), Q)
    decreases 64 - s
  {
    if s == 64 {
      assert Pow(PSI, 1) == PSI;
    } else {
      StepRoots(2 * s);
      assert BitWeight(s, 64, 1) == BitWeight(2 * s, 64, 1) + BitWeight(2 * s, 64, 1);
      PowDouble(PSI, BitWeight(2 * s, 64, 1), StepRoot(2 * s), StepRoot(s), Q);
    }
  }

  lemma {:induction false} PsiHasOrder256()
    ensures Cong(Pow(PSI, 128), -1, Q)
  {
    StepRoots(1);
    assert BitWeight(1, 64, 1) == 64;
    PowDouble(PSI, 64, StepRoot(1), -1, Q);
  }

  lemma {:induction false} StepCong(zk: int, zp: int, w: int, x: int, p: int)
    requires Cong(zk, zp * w, Q) && Cong(zp, R * x, Q) && Cong(p, w, Q)
    ensures Cong(zk, R * (x * p), Q)
  {
    CongMul(zp, R * x, w, p, Q);
    assert (R * x) * p == R * (x * p);
  }

  lemma {:induction false} TableStepCong(k: int, s: nat)
    requires s in {64, 32, 16, 8, 4, 2, 1} && s < k < 2 * s
    ensures Cong(Zeta(k), Zeta(k - s) * StepRoot(s), Q)
  {
    TableStepAt(k, s);
    CongIntro(Zeta(k), Zeta(k - s) * StepRoot(s), Q, (Zeta(k) - Zeta(k - s) * StepRoot(s)) / Q);
  }

  /** Every table entry is the root at its node, times 2^16, modulo Q. */
  lemma {:induction false} TableIsRoots(k: nat)
    requires 1 <= k < 128
    ensures Cong(Zeta(k), R * NodeRoot(PSI, 64, k), Q)
  {
    var s := TopBit(k, 64);
    SmallPowers(s);
    if k == s {
      PowerOfTwoEntry(s);
    } else {
      var p := Pow(PSI, BitWeight(s, 64, 1));
      assert Cong(p, StepRoot(s), Q) by { StepRoots(s); }
      assert Cong(Zeta(k), Zeta(k - s) * StepRoot(s), Q) by { TableStepCong(k, s); }
      assert NodeRoot(PSI, 64, k) == NodeRoot(PSI, 64, k - s) * p by { NodeRootTopBit(PSI, 64, k, s); }
      TableIsRoots(k - s);
      StepCong(Zeta(k), Zeta(k - s), StepRoot(s), NodeRoot(PSI, 64, k - s), p);
    }
  }

  lemma {:induction false} PowerOfTwoEntry(s: nat)
    requires s in {64, 32, 16, 8, 4, 2, 1}
    ensures Cong(Zeta(s), R * NodeRoot(PSI, 64, s), Q)
  {
    TablePowers(s);
    StepRoots(s);
    assert PowerOfTwo(s);
    BitRevTopBit(s, s, 64, 1);
    BitRevZero(64, 1);
    CongIntro(Zeta(s), R * StepRoot(s), Q, (Zeta(s) - R * StepRoot(s)) / Q);
    CongMul(R, R, Pow(PSI, BitWeight(s, 64, 1)), StepRoot(s), Q);
  }
}
