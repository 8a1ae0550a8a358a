/** The zeta table of the Dilithium code, and what it contains: 2^32 * 1753^BitRev(k) modulo Q. */
module DilithiumZetas {
  import opened Tables
  import opened ModArith
  import opened NttTheory
  import opened RootTrees
  import opened DilithiumParams
  import opened DilithiumReduce

  const PSI := 1753

  /** The table, row by row as in the source. */
  function Zeta(k: int): int {
    match k / 8
    case 0 => Pick(k % 8, 0, 25847, -2608894, -518909, 237124, -777960, -876248, 466468)
    case 1 => Pick(k % 8, 1826347, 2353451, -359251, -2091905, 3119733, -2884855, 3111497, 2680103)
    case 2 => Pick(k % 8, 2725464, 1024112, -1079900, 3585928, -549488, -1119584, 2619752, -2108549)
    case 3 => Pick(k % 8, -2118186, -3859737, -1399561, -3277672, 1757237, -19422, 4010497, 280005)
    case 4 => Pick(k % 8, 2706023, 95776, 3077325, 3530437, -1661693, -3592148, -2537516, 3915439)
    case 5 => Pick(k % 8, -3861115, -3043716, 3574422, -2867647, 3539968, -300467, 2348700, -539299)
    case 6 => Pick(k % 8, -1699267, -1643818, 3505694, -3821735, 3507263, -2140649, -1600420, 3699596)
    case 7 => Pick(k % 8, 811944, 531354, 954230, 3881043, 3900724, -2556880, 2071892, -2797779)
    case 8 => Pick(k % 8, -3930395, -1528703, -3677745, -3041255, -1452451, 3475950, 2176455, -1585221)
    case 9 => Pick(k % 8, -1257611, 1939314, -4083598, -1000202, -3190144, -3157330, -3632928, 126922)
    case 10 => Pick(k % 8, 3412210, -983419, 2147896, 2715295, -2967645, -3693493, -411027, -2477047)
    case 11 => Pick(k % 8, -671102, -1228525, -22981, -1308169, -381987, 1349076, 1852771, -1430430)
    case 12 => Pick(k % 8, -3343383, 264944, 508951, 3097992, 44288, -1100098, 904516, 3958618)
    case 13 => Pick(k % 8, -3724342, -8578, 1653064, -3249728, 2389356, -210977, 759969, -1316856)
    case 14 => Pick(k % 8, 189548, -3553272, 3159746, -1851402, -2409325, -177440, 1315589, 1341330)
    case 15 => Pick(k % 8, 1285669, -1584928, -812732, -1439742, -3019102, -3881060, -3628969, 3839961)
    case 16 => Pick(k % 8, 2091667, 3407706, 2316500, 3817976, -3342478, 2244091, -2446433, -3562462)
    case 17 => Pick(k % 8, 266997, 2434439, -1235728, 3513181, -3520352, -3759364, -1197226, -3193378)
    case 18 => Pick(k % 8, 900702, 1859098, 909542, 819034, 495491, -1613174, -43260, -522500)
    case 19 => Pick(k % 8, -655327, -3122442, 2031748, 3207046, -3556995, -525098, -768622, -3595838)
    case 20 => Pick(k % 8, 342297, 286988, -2437823, 4108315, 3437287, -3342277, 1735879, 203044)
    case 21 => Pick(k % 8, 2842341, 2691481, -2590150, 1265009, 4055324, 1247620, 2486353, 1595974)
    case 22 => Pick(k % 8, -3767016, 1250494, 2635921, -3548272, -2994039, 1869119, 1903435, -1050970)
    case 23 => Pick(k % 8, -1333058, 1237275, -3318210, -1430225, -451100, 1312455, 3306115, -1962642)
    case 24 => Pick(k % 8, -1279661, 1917081, -2546312, -1374803, 1500165, 777191, 2235880, 3406031)
    case 25 => Pick(k % 8, -542412, -2831860, -1671176, -1846953, -2584293, -3724270, 594136, -3776993)
    case 26 => Pick(k % 8, -2013608, 2432395, 2454455, -164721, 1957272, 3369112, 185531, -1207385)
    case 27 => Pick(k % 8, -3183426, 162844, 1616392, 3014001, 810149, 1652634, -3694233, -1799107)
    case 28 => Pick(k % 8, -3038916, 3523897, 3866901, 269760, 2213111, -975884, 1717735, 472078)
    case 29 => Pick(k % 8, -426683, 1723600, -1803090, 1910376, -1667432, -1104333, -260646, -3833893)
    case 30 => Pick(k % 8, -2939036, -2235985, -420899, -2286327, 183443, -976891, 1612842, -3545687)
    case 31 => Pick(k % 8, -554416, 3919660, -48306, -1362209, 3937738, 1400424, -846154, 1976782)
    case _ => 0
  }

  /** 1753 raised to the weight of index bit s. */
  function StepRoot(s: nat): int {
    match s
    case 128 => 1753
    case 64 => 3073009
    case 32 => 3602218
    case 16 => 5010068
    case 8 => 7778734
    case 4 => 5178923
    case 2 => 3765607
    case 1 => 4808194
    case _ => 0
  }

  /** Setting bit s of an index multiplies the entry by a fixed root. */
  predicate TableStep(k: int, s: nat)
  {
    (Zeta(k) - Zeta(k - s) * StepRoot(s)) % Q == 0
  }

  lemma {:induction false} Table128(k: int)
    requires 128 < k < 160
    ensures TableStep(k, 128)
  {
  }

  lemma {:induction false} Table160(k: int)
    requires 160 <= k < 192
    ensures TableStep(k, 128)
  {
  }

  lemma {:induction false} Table192(k: int)
    requires 192 <= k < 224
    ensures TableStep(k, 128)
  {
  }

  lemma {:induction false} Table224(k: int)
    requires 224 <= k < 256
    ensures TableStep(k, 128)
  {
  }

  lemma {:induction false} Table64(k: int)
    requires 64 < k < 96
    ensures TableStep(k, 64)
  {
  }

  lemma {:induction false} Table96(k: int)
    requires 96 <= k < 128
    ensures TableStep(k, 64)
  {
  }

  lemma {:induction false} Table32(k: int)
    requires 32 < k < 64
    ensures TableStep(k, 32)
  {
  }

  lemma {:induction false} Table16(k: int)
    requires 16 < k < 32
    ensures TableStep(k, 16)
  {
  }

  lemma {:induction false} TableLow(k: int, s: nat)
    requires s in {8, 4, 2} && s < k < 2 * s
    ensures TableStep(k, s)
  {
  }

  lemma {:induction false} TableStepAt(k: int, s: nat)
    requires PowerOfTwo(s) && s <= 128 && s < k < 2 * s
    ensures TableStep(k, s)
  {
    SmallPowers(s);
    if s == 128 {
      if k < 160 { Table128(k); } else if k < 192 { Table160(k); } else if k < 224 { Table192(k); }
        else { Table224(k); }
    } else if s == 64 {
      if k < 96 { Table64(k); } else { Table96(k); }
    } else if s == 32 {
      Table32(k);
    } else if s == 16 {
      Table16(k);
    } else {
      TableLow(k, s);
    }
  }

  lemma {:induction false} SmallPowers(s: nat)
    requires PowerOfTwo(s) && s <= 128
    ensures s in {128, 64, 32, 16, 8, 4, 2, 1}
  {
    if s > 1 {
      SmallPowers(s / 2);
    }
  }

  /** Entry 2^i holds its own root. */
  lemma {:induction false} TablePowers(s: nat)
    requires s in {128, 64, 32, 16, 8, 4, 2, 1}
    ensures (Zeta(s) - R * StepRoot(s)) % Q == 0
  {
  }

  /** The step roots are successive squares of psi, and psi^256 = -1. */
  lemma {:induction false} StepRoots(s: nat)
    requires s in {128, 64, 32, 16, 8, 4, 2, 1}
    ensures Cong(Pow(PSI, BitWeight(s, 128, 1)), StepRoot(s), Q)
    decreases 128 - s
  {
    if s == 128 {
      assert Pow(PSI, 1) == PSI;
    } else {
      StepRoots(2 * s);
      assert BitWeight(s, 128, 1) == BitWeight(2 * s, 128, 1) + BitWeight(2 * s, 128, 1);
      PowDouble(PSI, BitWeight(2 * s, 128, 1), StepRoot(2 * s), StepRoot(s), Q);
    }
  }

  lemma {:induction false} PsiHasOrder512()
    ensures Cong(Pow(PSI, 256), -1, Q)
  {
    StepRoots(1);
    assert BitWeight(1, 128, 1) == 128;
    PowDouble(PSI, 128, StepRoot(1), -1, Q);
  }

  lemma {:induction false} StepCong(zk: int, zp: int, w: int, x: int, p: int)
    requires Cong(zk, zp * w, Q) && Cong(zp, R * x, Q) && Cong(p, w, Q)
    ensures Cong(zk, R * (x * p), Q)
  {
    CongMul(zp, R * x, w, p, Q);
    assert (R * x) * p == R * (x * p);
  }

  lemma {:induction false} TableStepCong(k: int, s: nat)
    requires PowerOfTwo(s) && s <= 128 && s < k < 2 * s
    ensures Cong(Zeta(k), Zeta(k - s) * StepRoot(s), Q)
  {
    TableStepAt(k, s);
    CongIntro(Zeta(k), Zeta(k - s) * StepRoot(s), Q, (Zeta(k) - Zeta(k - s) * StepRoot(s)) / Q);
  }

  /** Every table entry is the root at its node, times 2^32, modulo Q. */
  lemma {:induction false} TableIsRoots(k: nat)
    requires 1 <= k < 256
    ensures Cong(Zeta(k), R * NodeRoot(PSI, 128, k), Q)
  {
    var s := TopBit(k, 128);
    SmallPowers(s);
    if k == s {
      PowerOfTwoEntry(s);
    } else {
      var p := Pow(PSI, BitWeight(s, 128, 1));
      assert Cong(p, StepRoot(s), Q) by { StepRoots(s); }
      assert Cong(Zeta(k), Zeta(k - s) * StepRoot(s), Q) by { TableStepCong(k, s); }
      assert NodeRoot(PSI, 128, k) == NodeRoot(PSI, 128, k - s) * p by { NodeRootTopBit(PSI, 128, k, s); }
      TableIsRoots(k - s);
      StepCong(Zeta(k), Zeta(k - s), StepRoot(s), NodeRoot(PSI, 128, k - s), p);
    }
  }

  lemma {:induction false} PowerOfTwoEntry(s: nat)
    requires s in {128, 64, 32, 16, 8, 4, 2, 1}
    ensures Cong(Zeta(s), R * NodeRoot(PSI, 128, s), Q)
  {
    TablePowers(s);
    StepRoots(s);
    assert PowerOfTwo(s);
    BitRevTopBit(s, s, 128, 1);
    BitRevZero(128, 1);
    CongIntro(Zeta(s), R * StepRoot(s), Q, (Zeta(s) - R * StepRoot(s)) / Q);
    CongMul(R, R, Pow(PSI, BitWeight(s, 128, 1)), StepRoot(s), Q);
  }
}
