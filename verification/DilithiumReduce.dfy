/** Modular reduction in the Dilithium code. */
module DilithiumReduce {
  import opened ModArith
  import opened MachineInts
  import opened DilithiumParams

  const QINV := 58728449      // 1/Q modulo 2^32
  const R := 0x1_0000_0000    // the Montgomery factor
  const RINV := 8265825       // 1/R modulo Q

  /** a / 2^32 modulo Q; the product with QINV relies on wrap-around. */
  function MontgomeryReduce(a: int): int {
    var t := Wrap32(Wrap32(a) * QINV);
    (a - t * Q) / R
  }

  lemma {:induction false} MontgomeryExact(a: int)
    ensures MontgomeryReduce(a) * R == a - Wrap32(Wrap32(a) * QINV) * Q
  {
    var u := Wrap32(a);
    var t := Wrap32(u * QINV);
    var i, j := (a + 0x8000_0000) / R, (u * QINV + 0x8000_0000) / R;
    assert a == u + i * R;
    assert t == u * QINV - j * R;
    assert QINV * Q == 1 + 114592 * R;
    assert a - t * Q == (i - u * 114592 + j * Q) * R;
  }

  /** The reduced value times 2^32 is the input modulo Q, whatever the input. */
  lemma {:induction false} MontgomeryCong(a: int)
    ensures Cong(MontgomeryReduce(a) * R, a, Q)
    ensures Cong(MontgomeryReduce(a), a * RINV, Q)
  {
    var r := MontgomeryReduce(a);
    var t := Wrap32(Wrap32(a) * QINV);
    MontgomeryExact(a);
    CongIntro(r * R, a, Q, -t);
    CongMul(r * R, a, RINV, RINV, Q);
    assert R * RINV == 1 + 4236238847 * Q;
    CongMul(r, r, R * RINV, 1, Q);
    assert (r * R) * RINV == r * (R * RINV);
  }

  /** On its documented input range the result is strictly between -Q and Q. */
  lemma {:induction false} MontgomeryBound(a: int)
    requires -0x8000_0000 * Q <= a < 0x8000_0000 * Q
    ensures -Q < MontgomeryReduce(a) < Q
  {
    MontgomeryExact(a);
  }

  /** A representative close to zero. */
  function Reduce32(a: int): (r: int) {
    a - (a + 0x40_0000) / 0x80_0000 * Q
  }

  lemma {:induction false} Reduce32Spec(a: int)
    requires -0x8000_0000 <= a < 0x8000_0000 - 0x40_0000
    ensures Cong(Reduce32(a), a, Q)
    ensures -6283009 <= Reduce32(a) <= 6283008
  {
    var t := (a + 0x40_0000) / 0x80_0000;
    CongIntro(Reduce32(a), a, Q, -t);
  }

  lemma {:induction false} Reduce32Cong(a: int)
    ensures Cong(Reduce32(a), a, Q)
  {
    CongIntro(Reduce32(a), a, Q, -((a + 0x40_0000) / 0x80_0000));
  }

  /** Adds Q to a negative value. */
  function CaddQ(a: int): (r: int) {
    a + if a < 0 then Q else 0
  }
}
