/** Modular reduction in the Kyber code. */
module KyberReduce {
  import opened ModArith
  import opened MachineInts
  import opened KyberParams

  const QINV := 62209     // 1/Q modulo 2^16
  const R := 0x1_0000     // the Montgomery factor
  const RINV := 169       // 1/R modulo Q

  /** a / 2^16 modulo Q; the product with QINV relies on wrap-around. */
  function MontgomeryReduce(a: int): int {
    (a - Wrap16(a * QINV) * Q) / R
  }

  lemma {:induction false} MontgomeryExact(a: int)
    ensures MontgomeryReduce(a) * R == a - Wrap16(a * QINV) * Q
  {
    var u := Wrap16(a * QINV);
    var j := (a * QINV + 0x8000) / R;
    assert u == a * QINV - j * R;
    assert QINV * Q == 1 + 3160 * R;
    assert a - u * Q == (j * Q - a * 3160) * R;
  }

  /** The reduced value times 2^16 is the input modulo Q, whatever the input. */
  lemma {:induction false} MontgomeryCong(a: int)
    ensures Cong(MontgomeryReduce(a), a * RINV, Q)
  {
    var r := MontgomeryReduce(a);
    MontgomeryExact(a);
    CongIntro(r * R, a, Q, -Wrap16(a * QINV));
    CongMul(r * R, a, RINV, RINV, Q);
    assert R * RINV == 1 + 3327 * Q;
    CongMul(r, r, R * RINV, 1, Q);
    assert (r * R) * RINV == r * (R * RINV);
  }

  /** On its documented input range the result is strictly between -Q and Q. */
  lemma {:induction false} MontgomeryBound(a: int)
    requires -0x8000 * Q <= a < 0x8000 * Q
    ensures -Q < MontgomeryReduce(a) < Q
  {
    MontgomeryExact(a);
  }

  /** The smaller the input, the closer the result is to half of Q. */
  lemma {:induction false} MontgomeryShrinks(a: int, b: int)
    requires -(b * R) <= a <= b * R
    ensures -1665 - b <= MontgomeryReduce(a) <= 1665 + b
  {
    MontgomeryExact(a);
  }

  /** a modulo Q by a fixed-point quotient. */
  function BarrettReduce(a: int): int {
    a - (20159 * a + 0x200_0000) / 0x400_0000 * Q
  }

  lemma {:induction false} BarrettCong(a: int)
    ensures Cong(BarrettReduce(a), a, Q)
  {
    CongIntro(BarrettReduce(a), a, Q, -((20159 * a + 0x200_0000) / 0x400_0000));
  }

  /**
    The same in 16-bit words. For inputs near the ends of the range the quotient times Q does not fit,
    and the subtraction wraps back.
   */
  function BarrettWord(a: int): (r: int)
    ensures InInt16(r)
  {
    var t := Wrap16((20159 * a + 0x200_0000) / 0x400_0000 * Q);
    Wrap16(a - t)
  }

  lemma {:induction false} BarrettWordExact(a: int)
    requires InInt16(a)
    ensures BarrettWord(a) == BarrettReduce(a)
  {
    BarrettCentred(a);
  }

  /** The product fits 16 bits exactly for inputs within 31625 of zero. */
  lemma {:induction false} BarrettFitsIff(a: int)
    requires InInt16(a)
    ensures InInt16((20159 * a + 0x200_0000) / 0x400_0000 * Q) <==> -31625 <= a <= 31625
  {
    var t := (20159 * a + 0x200_0000) / 0x400_0000;
    assert InInt16(t * Q) <==> -9 <= t <= 9;
  }

  /** An input for which it does not; the word arithmetic still gets the result right. */
  lemma {:induction false} BarrettOverflows()
    ensures !InInt16((20159 * 32767 + 0x200_0000) / 0x400_0000 * Q)
    ensures BarrettWord(32767) == 32767 - 10 * Q
  {
  }

  /** For every 16-bit input the result is the representative closest to zero. */
  lemma {:induction false} BarrettCentred(a: int)
    requires InInt16(a)
    ensures -1664 <= BarrettReduce(a) <= 1664
  {
    var t := (20159 * a + 0x200_0000) / 0x400_0000;
    var r := a - t * Q;
    assert -10 <= t <= 10;
    assert 20159 * Q == 0x400_0000 + 447;
    assert 20159 * r == 20159 * a - t * 0x400_0000 - 447 * t;
  }

  /** Two centred representatives of the same residue are equal, so Barrett reduction is canonical. */
  lemma {:induction false} BarrettCanonical(a: int, b: int)
    requires InInt16(a) && InInt16(b)
    ensures BarrettReduce(a) == BarrettReduce(b) <==> Cong(a, b, Q)
  {
    var r, s := BarrettReduce(a), BarrettReduce(b);
    BarrettCong(a);
    BarrettCong(b);
    BarrettCentred(a);
    BarrettCentred(b);
    if Cong(a, b, Q) {
      CongTrans(r, a, b, Q);
      CongTrans(r, b, s, Q);
      CongNear(r, s, Q);
    }
  }
}
