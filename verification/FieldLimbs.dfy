/**
  Field elements of the Curve25519 code: ten signed limbs, alternately of 26 and 25 bits, standing for a
  number modulo 2^255 - 19. Products and carries are written as in the source.
 */
module FieldLimbs {
  import opened ModArith
  import opened BitPacking
  import opened PolyPacking
  import opened ScalarDigits
  import opened LimbBytes
  import opened CoefficientBounds
  import opened MachineInts

  datatype Fe = Fe(h0: int, h1: int, h2: int, h3: int, h4: int, h5: int, h6: int, h7: int, h8: int, h9: int)

  const TOP := 0x8000_0000_0000_0000_0000_0000_0000_0000_0000_0000_0000_0000_0000_0000_0000_0000    // 2^255
  const P := TOP - 19

  /** The number the limbs stand for. */
  function Val(f: Fe): int {
    f.h0 + 0x400_0000 * f.h1 + 0x8_0000_0000_0000 * f.h2 + 0x2000_0000_0000_0000_0000 * f.h3
    + 0x40_0000_0000_0000_0000_0000_0000 * f.h4 + 0x1_0000_0000_0000_0000_0000_0000_0000_0000 * f.h5
    + 0x200_0000_0000_0000_0000_0000_0000_0000_0000_0000 * f.h6
    + 0x8_0000_0000_0000_0000_0000_0000_0000_0000_0000_0000_0000 * f.h7
    + 0x1000_0000_0000_0000_0000_0000_0000_0000_0000_0000_0000_0000_0000 * f.h8
    + 0x40_0000_0000_0000_0000_0000_0000_0000_0000_0000_0000_0000_0000_0000_0000 * f.h9
  }

  /** The products of the source before any carry: what lies beyond 2^255 comes back times 19. */
  function Raw(f: Fe, g: Fe): Fe {
    Fe(f.h0 * g.h0 + (2 * f.h1) * (19 * g.h9) + f.h2 * (19 * g.h8) + (2 * f.h3) * (19 * g.h7) + f.h4 * (19 * g.h6)
      + (2 * f.h5) * (19 * g.h5) + f.h6 * (19 * g.h4) + (2 * f.h7) * (19 * g.h3) + f.h8 * (19 * g.h2)
      + (2 * f.h9) * (19 * g.h1),
       f.h0 * g.h1 + f.h1 * g.h0 + f.h2 * (19 * g.h9) + f.h3 * (19 * g.h8) + f.h4 * (19 * g.h7) + f.h5 * (19 * g.h6)
         + f.h6 * (19 * g.h5) + f.h7 * (19 * g.h4) + f.h8 * (19 * g.h3) + f.h9 * (19 * g.h2),
       f.h0 * g.h2 + (2 * f.h1) * g.h1 + f.h2 * g.h0 + (2 * f.h3) * (19 * g.h9) + f.h4 * (19 * g.h8)
         + (2 * f.h5) * (19 * g.h7) + f.h6 * (19 * g.h6) + (2 * f.h7) * (19 * g.h5) + f.h8 * (19 * g.h4)
         + (2 * f.h9) * (19 * g.h3),
       f.h0 * g.h3 + f.h1 * g.h2 + f.h2 * g.h1 + f.h3 * g.h0 + f.h4 * (19 * g.h9) + f.h5 * (19 * g.h8)
         + f.h6 * (19 * g.h7) + f.h7 * (19 * g.h6) + f.h8 * (19 * g.h5) + f.h9 * (19 * g.h4),
       f.h0 * g.h4 + (2 * f.h1) * g.h3 + f.h2 * g.h2 + (2 * f.h3) * g.h1 + f.h4 * g.h0 + (2 * f.h5) * (19 * g.h9)
         + f.h6 * (19 * g.h8) + (2 * f.h7) * (19 * g.h7) + f.h8 * (19 * g.h6) + (2 * f.h9) * (19 * g.h5),
       f.h0 * g.h5 + f.h1 * g.h4 + f.h2 * g.h3 + f.h3 * g.h2 + f.h4 * g.h1 + f.h5 * g.h0 + f.h6 * (19 * g.h9)
         + f.h7 * (19 * g.h8) + f.h8 * (19 * g.h7) + f.h9 * (19 * g.h6),
       f.h0 * g.h6 + (2 * f.h1) * g.h5 + f.h2 * g.h4 + (2 * f.h3) * g.h3 + f.h4 * g.h2 + (2 * f.h5) * g.h1
         + f.h6 * g.h0 + (2 * f.h7) * (19 * g.h9) + f.h8 * (19 * g.h8) + (2 * f.h9) * (19 * g.h7),
       f.h0 * g.h7 + f.h1 * g.h6 + f.h2 * g.h5 + f.h3 * g.h4 + f.h4 * g.h3 + f.h5 * g.h2 + f.h6 * g.h1 + f.h7 * g.h0
         + f.h8 * (19 * g.h9) + f.h9 * (19 * g.h8),
       f.h0 * g.h8 + (2 * f.h1) * g.h7 + f.h2 * g.h6 + (2 * f.h3) * g.h5 + f.h4 * g.h4 + (2 * f.h5) * g.h3
         + f.h6 * g.h2 + (2 * f.h7) * g.h1 + f.h8 * g.h0 + (2 * f.h9) * (19 * g.h9),
       f.h0 * g.h9 + f.h1 * g.h8 + f.h2 * g.h7 + f.h3 * g.h6 + f.h4 * g.h5 + f.h5 * g.h4 + f.h6 * g.h3 + f.h7 * g.h2
         + f.h8 * g.h1 + f.h9 * g.h0)
  }

  /** The products beyond 2^255. */
  function Over(f: Fe, g: Fe): int {
    Val(Fe((2 * f.h1) * g.h9 + f.h2 * g.h8 + (2 * f.h3) * g.h7 + f.h4 * g.h6 + (2 * f.h5) * g.h5 + f.h6 * g.h4
      + (2 * f.h7) * g.h3 + f.h8 * g.h2 + (2 * f.h9) * g.h1,
           f.h2 * g.h9 + f.h3 * g.h8 + f.h4 * g.h7 + f.h5 * g.h6 + f.h6 * g.h5 + f.h7 * g.h4 + f.h8 * g.h3
             + f.h9 * g.h2,
           (2 * f.h3) * g.h9 + f.h4 * g.h8 + (2 * f.h5) * g.h7 + f.h6 * g.h6 + (2 * f.h7) * g.h5 + f.h8 * g.h4
             + (2 * f.h9) * g.h3,
           f.h4 * g.h9 + f.h5 * g.h8 + f.h6 * g.h7 + f.h7 * g.h6 + f.h8 * g.h5 + f.h9 * g.h4,
           (2 * f.h5) * g.h9 + f.h6 * g.h8 + (2 * f.h7) * g.h7 + f.h8 * g.h6 + (2 * f.h9) * g.h5,
           f.h6 * g.h9 + f.h7 * g.h8 + f.h8 * g.h7 + f.h9 * g.h6,
           (2 * f.h7) * g.h9 + f.h8 * g.h8 + (2 * f.h9) * g.h7,
           f.h8 * g.h9 + f.h9 * g.h8,
           (2 * f.h9) * g.h9,
           0))
  }

  lemma {:induction false} RawValue(f: Fe, g: Fe)
    ensures Val(Raw(f, g)) == Val(f) * Val(g) - P * Over(f, g)
  {
  }

  // ----- carries

  function C26(x: int): int { (x + 0x200_0000) / 0x400_0000 }
  function C25(x: int): int { (x + 0x100_0000) / 0x200_0000 }

  /** Limbs within 1.65 * 2^26 and 1.65 * 2^25. */
  predicate Loose(f: Fe) {
    && -110729625 <= f.h0 <= 110729625 && -55364812 <= f.h1 <= 55364812 && -110729625 <= f.h2 <= 110729625
      && -55364812 <= f.h3 <= 55364812
    && -110729625 <= f.h4 <= 110729625 && -55364812 <= f.h5 <= 55364812 && -110729625 <= f.h6 <= 110729625
      && -55364812 <= f.h7 <= 55364812
    && -110729625 <= f.h8 <= 110729625 && -55364812 <= f.h9 <= 55364812
  }

  const WIDE := 0x2800_0000_0000_0000    // ten products of at most 2^58

  predicate Wide(h: Fe) {
    && -WIDE <= h.h0 <= WIDE && -WIDE <= h.h1 <= WIDE && -WIDE <= h.h2 <= WIDE && -WIDE <= h.h3 <= WIDE
      && -WIDE <= h.h4 <= WIDE
    && -WIDE <= h.h5 <= WIDE && -WIDE <= h.h6 <= WIDE && -WIDE <= h.h7 <= WIDE && -WIDE <= h.h8 <= WIDE
      && -WIDE <= h.h9 <= WIDE
  }

  predicate Left(x: int) { -110729625 <= x <= 110729625 }

  predicate Right(y: int) { -2103862875 <= y <= 2103862875 }

  lemma {:induction false} Term(x: int, y: int)
    requires Left(x) && Right(y)
    ensures -0x400_0000_0000_0000 <= x * y <= 0x400_0000_0000_0000
  {
    ProductBound(x, 110729625, y, 2103862875);
  }

  lemma {:induction false} Ten(x0: int, x1: int, x2: int, x3: int, x4: int, x5: int, x6: int, x7: int, x8: int, x9: int,
                               y0: int, y1: int, y2: int, y3: int, y4: int, y5: int, y6: int, y7: int, y8: int, y9: int)
    requires Left(x0) && Left(x1) && Left(x2) && Left(x3) && Left(x4) && Left(x5) && Left(x6) && Left(x7) && Left(x8)
      && Left(x9)
    requires Right(y0) && Right(y1) && Right(y2) && Right(y3) && Right(y4) && Right(y5) && Right(y6) && Right(y7)
      && Right(y8) && Right(y9)
    ensures -WIDE <= x0 * y0 + x1 * y1 + x2 * y2 + x3 * y3 + x4 * y4 + x5 * y5 + x6 * y6 + x7 * y7 + x8 * y8
      + x9 * y9 <= WIDE
  {
    Term(x0, y0);
    Term(x1, y1);
    Term(x2, y2);
    Term(x3, y3);
    Term(x4, y4);
    Term(x5, y5);
    Term(x6, y6);
    Term(x7, y7);
    Term(x8, y8);
    Term(x9, y9);
  }

  lemma {:induction false} RawWide(f: Fe, g: Fe)
    requires Loose(f) && Loose(g)
    ensures Wide(Raw(f, g))
  {
    Ten(f.h0, 2 * f.h1, f.h2, 2 * f.h3, f.h4, 2 * f.h5, f.h6, 2 * f.h7, f.h8, 2 * f.h9,
        g.h0, 19 * g.h9, 19 * g.h8, 19 * g.h7, 19 * g.h6, 19 * g.h5, 19 * g.h4, 19 * g.h3, 19 * g.h2, 19 * g.h1);
    Ten(f.h0, f.h1, f.h2, f.h3, f.h4, f.h5, f.h6, f.h7, f.h8, f.h9,
        g.h1, g.h0, 19 * g.h9, 19 * g.h8, 19 * g.h7, 19 * g.h6, 19 * g.h5, 19 * g.h4, 19 * g.h3, 19 * g.h2);
    Ten(f.h0, 2 * f.h1, f.h2, 2 * f.h3, f.h4, 2 * f.h5, f.h6, 2 * f.h7, f.h8, 2 * f.h9,
        g.h2, g.h1, g.h0, 19 * g.h9, 19 * g.h8, 19 * g.h7, 19 * g.h6, 19 * g.h5, 19 * g.h4, 19 * g.h3);
    Ten(f.h0, f.h1, f.h2, f.h3, f.h4, f.h5, f.h6, f.h7, f.h8, f.h9,
        g.h3, g.h2, g.h1, g.h0, 19 * g.h9, 19 * g.h8, 19 * g.h7, 19 * g.h6, 19 * g.h5, 19 * g.h4);
    Ten(f.h0, 2 * f.h1, f.h2, 2 * f.h3, f.h4, 2 * f.h5, f.h6, 2 * f.h7, f.h8, 2 * f.h9,
        g.h4, g.h3, g.h2, g.h1, g.h0, 19 * g.h9, 19 * g.h8, 19 * g.h7, 19 * g.h6, 19 * g.h5);
    Ten(f.h0, f.h1, f.h2, f.h3, f.h4, f.h5, f.h6, f.h7, f.h8, f.h9,
        g.h5, g.h4, g.h3, g.h2, g.h1, g.h0, 19 * g.h9, 19 * g.h8, 19 * g.h7, 19 * g.h6);
    Ten(f.h0, 2 * f.h1, f.h2, 2 * f.h3, f.h4, 2 * f.h5, f.h6, 2 * f.h7, f.h8, 2 * f.h9,
        g.h6, g.h5, g.h4, g.h3, g.h2, g.h1, g.h0, 19 * g.h9, 19 * g.h8, 19 * g.h7);
    Ten(f.h0, f.h1, f.h2, f.h3, f.h4, f.h5, f.h6, f.h7, f.h8, f.h9,
        g.h7, g.h6, g.h5, g.h4, g.h3, g.h2, g.h1, g.h0, 19 * g.h9, 19 * g.h8);
    Ten(f.h0, 2 * f.h1, f.h2, 2 * f.h3, f.h4, 2 * f.h5, f.h6, 2 * f.h7, f.h8, 2 * f.h9,
        g.h8, g.h7, g.h6, g.h5, g.h4, g.h3, g.h2, g.h1, g.h0, 19 * g.h9);
    Ten(f.h0, f.h1, f.h2, f.h3, f.h4, f.h5, f.h6, f.h7, f.h8, f.h9,
        g.h9, g.h8, g.h7, g.h6, g.h5, g.h4, g.h3, g.h2, g.h1, g.h0);
  }

  /** The carries after a multiplication, in the order of the source. */
  function Carried(h: Fe): Fe { LaterCarries(EarlierCarries(h)) }

  function EarlierCarries(h: Fe): Fe {
    var c := C26(h.h0); var h := h.(h1 := h.h1 + c, h0 := h.h0 - c * 0x400_0000);
    var c := C26(h.h4); var h := h.(h5 := h.h5 + c, h4 := h.h4 - c * 0x400_0000);
    var c := C25(h.h1); var h := h.(h2 := h.h2 + c, h1 := h.h1 - c * 0x200_0000);
    var c := C25(h.h5); var h := h.(h6 := h.h6 + c, h5 := h.h5 - c * 0x200_0000);
    var c := C26(h.h2); var h := h.(h3 := h.h3 + c, h2 := h.h2 - c * 0x400_0000);
    var c := C26(h.h6); var h := h.(h7 := h.h7 + c, h6 := h.h6 - c * 0x400_0000);
    h
  }

  function LaterCarries(h: Fe): Fe {
    var c := C25(h.h3); var h := h.(h4 := h.h4 + c, h3 := h.h3 - c * 0x200_0000);
    var c := C25(h.h7); var h := h.(h8 := h.h8 + c, h7 := h.h7 - c * 0x200_0000);
    var c := C26(h.h4); var h := h.(h5 := h.h5 + c, h4 := h.h4 - c * 0x400_0000);
    var c := C26(h.h8); var h := h.(h9 := h.h9 + c, h8 := h.h8 - c * 0x400_0000);
    var c := C25(h.h9); var h := h.(h0 := h.h0 + c * 19, h9 := h.h9 - c * 0x200_0000);
    var c := C26(h.h0); var h := h.(h1 := h.h1 + c, h0 := h.h0 - c * 0x400_0000);
    h
  }

  /** Limbs within 1.01 * 2^25 and 1.01 * 2^24. */
  predicate Tight(h: Fe) {
    && -0x204_0000 <= h.h0 <= 0x204_0000 && -0x102_0000 <= h.h1 <= 0x102_0000 && -0x204_0000 <= h.h2 <= 0x204_0000
      && -0x102_0000 <= h.h3 <= 0x102_0000
    && -0x204_0000 <= h.h4 <= 0x204_0000 && -0x102_0000 <= h.h5 <= 0x102_0000 && -0x204_0000 <= h.h6 <= 0x204_0000
      && -0x102_0000 <= h.h7 <= 0x102_0000
    && -0x204_0000 <= h.h8 <= 0x204_0000 && -0x102_0000 <= h.h9 <= 0x102_0000
  }

  /** Twice as far from zero as Wide. */
  predicate Vast(h: Fe) {
    && -2 * WIDE <= h.h0 <= 2 * WIDE && -2 * WIDE <= h.h1 <= 2 * WIDE && -2 * WIDE <= h.h2 <= 2 * WIDE
      && -2 * WIDE <= h.h3 <= 2 * WIDE
    && -2 * WIDE <= h.h4 <= 2 * WIDE && -2 * WIDE <= h.h5 <= 2 * WIDE && -2 * WIDE <= h.h6 <= 2 * WIDE
      && -2 * WIDE <= h.h7 <= 2 * WIDE
    && -2 * WIDE <= h.h8 <= 2 * WIDE && -2 * WIDE <= h.h9 <= 2 * WIDE
  }

  const MORE := 0x5100_0000_0000_0000    // 2 WIDE and a carry

  /** Half of the carries done. */
  predicate HalfCarried(h: Fe) {
    && -0x200_0000 <= h.h0 <= 0x200_0000 && -0x100_0000 <= h.h1 <= 0x100_0000 && -0x200_0000 <= h.h2 <= 0x200_0000
      && -MORE <= h.h3 <= MORE
    && -0x200_0000 <= h.h4 <= 0x200_0000 && -0x100_0000 <= h.h5 <= 0x100_0000 && -0x200_0000 <= h.h6 <= 0x200_0000
      && -MORE <= h.h7 <= MORE
    && -MORE <= h.h8 <= MORE && -MORE <= h.h9 <= MORE
  }

  lemma {:induction false} EarlierBounded(h: Fe)
    requires Vast(h)
    ensures HalfCarried(EarlierCarries(h))
  {
  }

  lemma {:induction false} LaterTight(h: Fe)
    requires HalfCarried(h)
    ensures Tight(LaterCarries(h))
  {
  }

  /** From products of any loose elements, even doubled, the carries make a tight one. */
  lemma {:induction false} CarriedTight(h: Fe)
    requires Vast(h)
    ensures Tight(Carried(h))
  {
    EarlierBounded(h);
    LaterTight(EarlierCarries(h));
  }

  /** How much the carry out of the top limb takes away. */
  lemma {:induction false} CarriedValue(h: Fe)
    ensures Cong(Val(Carried(h)), Val(h), P)
  {
    CarriedDifference(h);
    DifferenceCong(Val(Carried(h)), Val(h));
  }

  lemma {:induction false} DifferenceCong(x: int, y: int)
    requires (x - y) % P == 0
    ensures Cong(x, y, P)
  {
    CongIntro(x, y, P, (x - y) / P);
  }

  lemma {:induction false} CarriedDifference(h: Fe)
    ensures (Val(Carried(h)) - Val(h)) % P == 0
  {
    EarlierValue(h);
    LaterDifference(EarlierCarries(h));
  }

  lemma {:induction false} EarlierValue(h: Fe)
    ensures Val(EarlierCarries(h)) == Val(h)
  {
  }

  lemma {:induction false} LaterDifference(h: Fe)
    ensures (Val(LaterCarries(h)) - Val(h)) % P == 0
  {
  }

  /** Multiplication. */
  function Mul(f: Fe, g: Fe): Fe { Carried(Raw(f, g)) }

  lemma {:induction false} ProductCong(x: int, raw: int, y: int, over: int)
    requires Cong(x, raw, P) && raw == y - P * over
    ensures Cong(x, y, P)
  {
    CongIntro(raw, y, P, -over);
    CongTrans(x, raw, y, P);
  }

  /** The product of two elements, whatever their limbs. */
  lemma {:induction false} MulValue(f: Fe, g: Fe, h: Fe)
    requires h == Raw(f, g)
    ensures Cong(Val(Carried(h)), Val(f) * Val(g), P)
  {
    RawValue(f, g);
    CarriedValue(h);
    ProductCong(Val(Carried(h)), Val(h), Val(f) * Val(g), Over(f, g));
  }

  function Doubled(h: Fe): Fe {
    Fe(h.h0 + h.h0, h.h1 + h.h1, h.h2 + h.h2, h.h3 + h.h3, h.h4 + h.h4, h.h5 + h.h5, h.h6 + h.h6, h.h7 + h.h7,
       h.h8 + h.h8, h.h9 + h.h9)
  }

  lemma {:induction false} WideIsVast(h: Fe)
    requires Wide(h)
    ensures Vast(h) && Vast(Doubled(h))
  {
  }

  /**
    For loose elements the sums of products stay within 10 * 2^58, and the result is tight and stands for the
    product.
   */
  lemma {:induction false} MulExact(f: Fe, g: Fe)
    requires Loose(f) && Loose(g)
    ensures Wide(Raw(f, g)) && Tight(Mul(f, g)) && Cong(Val(Mul(f, g)), Val(f) * Val(g), P)
  {
    RawWide(f, g);
    WideIsVast(Raw(f, g));
    CarriedTight(Raw(f, g));
    MulValue(f, g, Raw(f, g));
  }

  /** The factors that the source multiplies beforehand still fit 32 bits. */
  lemma {:induction false} FactorsFit(f: Fe)
    requires Loose(f)
    ensures InInt32(19 * f.h1) && InInt32(19 * f.h2) && InInt32(19 * f.h3) && InInt32(19 * f.h4) && InInt32(19 * f.h5)
    ensures InInt32(19 * f.h6) && InInt32(19 * f.h7) && InInt32(19 * f.h8) && InInt32(19 * f.h9)
    ensures InInt32(38 * f.h5) && InInt32(38 * f.h7) && InInt32(38 * f.h9)
  {
  }

  // ----- squares

  /** The products of the source's squaring, in which equal terms are taken together. */
  function RawSquare(f: Fe): Fe {
    Fe(f.h0 * f.h0 + (2 * f.h1) * (38 * f.h9) + (2 * f.h2) * (19 * f.h8) + (2 * f.h3) * (38 * f.h7)
      + (2 * f.h4) * (19 * f.h6) + f.h5 * (38 * f.h5),
       (2 * f.h0) * f.h1 + f.h2 * (38 * f.h9) + (2 * f.h3) * (19 * f.h8) + f.h4 * (38 * f.h7)
         + (2 * f.h5) * (19 * f.h6),
       (2 * f.h0) * f.h2 + (2 * f.h1) * f.h1 + (2 * f.h3) * (38 * f.h9) + (2 * f.h4) * (19 * f.h8)
         + (2 * f.h5) * (38 * f.h7) + f.h6 * (19 * f.h6),
       (2 * f.h0) * f.h3 + (2 * f.h1) * f.h2 + f.h4 * (38 * f.h9) + (2 * f.h5) * (19 * f.h8) + f.h6 * (38 * f.h7),
       (2 * f.h0) * f.h4 + (2 * f.h1) * (2 * f.h3) + f.h2 * f.h2 + (2 * f.h5) * (38 * f.h9) + (2 * f.h6) * (19 * f.h8)
         + f.h7 * (38 * f.h7),
       (2 * f.h0) * f.h5 + (2 * f.h1) * f.h4 + (2 * f.h2) * f.h3 + f.h6 * (38 * f.h9) + (2 * f.h7) * (19 * f.h8),
       (2 * f.h0) * f.h6 + (2 * f.h1) * (2 * f.h5) + (2 * f.h2) * f.h4 + (2 * f.h3) * f.h3 + (2 * f.h7) * (38 * f.h9)
         + f.h8 * (19 * f.h8),
       (2 * f.h0) * f.h7 + (2 * f.h1) * f.h6 + (2 * f.h2) * f.h5 + (2 * f.h3) * f.h4 + f.h8 * (38 * f.h9),
       (2 * f.h0) * f.h8 + (2 * f.h1) * (2 * f.h7) + (2 * f.h2) * f.h6 + (2 * f.h3) * (2 * f.h5) + f.h4 * f.h4
         + f.h9 * (38 * f.h9),
       (2 * f.h0) * f.h9 + (2 * f.h1) * f.h8 + (2 * f.h2) * f.h7 + (2 * f.h3) * f.h6 + (2 * f.h4) * f.h5)
  }

  lemma {:induction false} SquareLimb0(f: Fe)
    ensures RawSquare(f).h0 == Raw(f, f).h0
  {
  }

  lemma {:induction false} SquareLimb1(f: Fe)
    ensures RawSquare(f).h1 == Raw(f, f).h1
  {
  }

  lemma {:induction false} SquareLimb2(f: Fe)
    ensures RawSquare(f).h2 == Raw(f, f).h2
  {
  }

  lemma {:induction false} SquareLimb3(f: Fe)
    ensures RawSquare(f).h3 == Raw(f, f).h3
  {
  }

  lemma {:induction false} SquareLimb4(f: Fe)
    ensures RawSquare(f).h4 == Raw(f, f).h4
  {
  }

  lemma {:induction false} SquareLimb5(f: Fe)
    ensures RawSquare(f).h5 == Raw(f, f).h5
  {
  }

  lemma {:induction false} SquareLimb6(f: Fe)
    ensures RawSquare(f).h6 == Raw(f, f).h6
  {
  }

  lemma {:induction false} SquareLimb7(f: Fe)
    ensures RawSquare(f).h7 == Raw(f, f).h7
  {
  }

  lemma {:induction false} SquareLimb8(f: Fe)
    ensures RawSquare(f).h8 == Raw(f, f).h8
  {
  }

  lemma {:induction false} SquareLimb9(f: Fe)
    ensures RawSquare(f).h9 == Raw(f, f).h9
  {
  }

  /** They are the products of a multiplication with itself. */
  lemma {:induction false} RawSquareIsRaw(f: Fe)
    ensures RawSquare(f) == Raw(f, f)
  {
    SquareLimb0(f);
    SquareLimb1(f);
    SquareLimb2(f);
    SquareLimb3(f);
    SquareLimb4(f);
    SquareLimb5(f);
    SquareLimb6(f);
    SquareLimb7(f);
    SquareLimb8(f);
    SquareLimb9(f);
  }

  function Square(f: Fe): Fe { Carried(RawSquare(f)) }

  /** Twice the square, doubled before the carries. */
  function Square2(f: Fe): Fe { Carried(Doubled(RawSquare(f))) }

  /** Squaring is multiplication with itself. */
  lemma {:induction false} SquareIsMul(f: Fe)
    ensures Square(f) == Mul(f, f)
  {
    RawSquareIsRaw(f);
  }

  lemma {:induction false} SquareExact(f: Fe)
    requires Loose(f)
    ensures Wide(RawSquare(f)) && Tight(Square(f)) && Cong(Val(Square(f)), Val(f) * Val(f), P)
  {
    RawSquareIsRaw(f);
    MulExact(f, f);
  }

  /** Twice the square: the doubled sums stay within 20 * 2^58. */
  lemma {:induction false} Square2Exact(f: Fe)
    requires Loose(f)
    ensures Vast(Doubled(RawSquare(f))) && Tight(Square2(f)) && Cong(Val(Square2(f)), 2 * (Val(f) * Val(f)), P)
  {
    RawSquareIsRaw(f);
    RawWide(f, f);
    WideIsVast(Raw(f, f));
    CarriedTight(Doubled(Raw(f, f)));
    Square2Value(f, Raw(f, f));
  }

  lemma {:induction false} Square2Value(f: Fe, h: Fe)
    requires h == Raw(f, f)
    ensures Cong(Val(Carried(Doubled(h))), 2 * (Val(f) * Val(f)), P)
  {
    RawValue(f, f);
    DoubledValue(h);
    CarriedValue(Doubled(h));
    DoubledProduct(Val(Carried(Doubled(h))), Val(h), Val(f) * Val(f), Over(f, f));
  }

  lemma {:induction false} DoubledProduct(x: int, raw: int, y: int, over: int)
    requires Cong(x, 2 * raw, P) && raw == y - P * over
    ensures Cong(x, 2 * y, P)
  {
    CongIntro(2 * raw, 2 * y, P, -2 * over);
    CongTrans(x, 2 * raw, 2 * y, P);
  }

  lemma {:induction false} DoubledValue(h: Fe)
    ensures Val(Doubled(h)) == 2 * Val(h)
  {
  }

  /** The carries after loading, and after multiplying by a small number: first the odd limbs, then the even ones. */
  function CarriedApart(h: Fe): Fe { EvenCarries(OddCarries(h)) }

  function OddCarries(h: Fe): Fe {
    var c := C25(h.h9); var h := h.(h0 := h.h0 + c * 19, h9 := h.h9 - c * 0x200_0000);
    var c := C25(h.h1); var h := h.(h2 := h.h2 + c, h1 := h.h1 - c * 0x200_0000);
    var c := C25(h.h3); var h := h.(h4 := h.h4 + c, h3 := h.h3 - c * 0x200_0000);
    var c := C25(h.h5); var h := h.(h6 := h.h6 + c, h5 := h.h5 - c * 0x200_0000);
    var c := C25(h.h7); var h := h.(h8 := h.h8 + c, h7 := h.h7 - c * 0x200_0000);
    h
  }

  function EvenCarries(h: Fe): Fe {
    var c := C26(h.h0); var h := h.(h1 := h.h1 + c, h0 := h.h0 - c * 0x400_0000);
    var c := C26(h.h2); var h := h.(h3 := h.h3 + c, h2 := h.h2 - c * 0x400_0000);
    var c := C26(h.h4); var h := h.(h5 := h.h5 + c, h4 := h.h4 - c * 0x400_0000);
    var c := C26(h.h6); var h := h.(h7 := h.h7 + c, h6 := h.h6 - c * 0x400_0000);
    var c := C26(h.h8); var h := h.(h9 := h.h9 + c, h8 := h.h8 - c * 0x400_0000);
    h
  }

  lemma {:induction false} ApartDifference(h: Fe)
    ensures (Val(CarriedApart(h)) - Val(h)) % P == 0
  {
    OddDifference(h);
    EvenValue(OddCarries(h));
  }

  lemma {:induction false} OddDifference(h: Fe)
    ensures (Val(OddCarries(h)) - Val(h)) % P == 0
  {
  }

  lemma {:induction false} EvenValue(h: Fe)
    ensures Val(EvenCarries(h)) == Val(h)
  {
  }

  lemma {:induction false} ApartValue(h: Fe)
    ensures Cong(Val(CarriedApart(h)), Val(h), P)
  {
    ApartDifference(h);
    DifferenceCong(Val(CarriedApart(h)), Val(h));
  }

  /** Limbs within 2^44: those of a loose element times 121666, say. */
  predicate Medium(h: Fe) {
    var m := 0x1000_0000_0000;
    && -m <= h.h0 <= m && -m <= h.h1 <= m && -m <= h.h2 <= m && -m <= h.h3 <= m && -m <= h.h4 <= m
    && -m <= h.h5 <= m && -m <= h.h6 <= m && -m <= h.h7 <= m && -m <= h.h8 <= m && -m <= h.h9 <= m
  }

  /** Limbs within 1.1 * 2^25 and 1.1 * 2^24. */
  predicate Firm(h: Fe) {
    && -36909875 <= h.h0 <= 36909875 && -18454937 <= h.h1 <= 18454937 && -36909875 <= h.h2 <= 36909875
      && -18454937 <= h.h3 <= 18454937
    && -36909875 <= h.h4 <= 36909875 && -18454937 <= h.h5 <= 18454937 && -36909875 <= h.h6 <= 36909875
      && -18454937 <= h.h7 <= 18454937
    && -36909875 <= h.h8 <= 36909875 && -18454937 <= h.h9 <= 18454937
  }

  lemma {:induction false} FirmIsLoose(f: Fe)
    requires Firm(f)
    ensures Loose(f)
  {
  }

  lemma {:induction false} ApartFirm(h: Fe)
    requires Medium(h)
    ensures Firm(CarriedApart(h))
  {
    OddBounded(h);
    EvenFirm(OddCarries(h));
  }

  /** The odd limbs are done; the even ones have taken their carries. */
  predicate OddDone(h: Fe) {
    var m := 0x1001_0000_0000;
    && -m <= h.h0 <= m && -m <= h.h2 <= m && -m <= h.h4 <= m && -m <= h.h6 <= m && -m <= h.h8 <= m
    && -0x100_0000 <= h.h1 <= 0x100_0000 && -0x100_0000 <= h.h3 <= 0x100_0000 && -0x100_0000 <= h.h5 <= 0x100_0000
    && -0x100_0000 <= h.h7 <= 0x100_0000 && -0x100_0000 <= h.h9 <= 0x100_0000
  }

  lemma {:induction false} OddBounded(h: Fe)
    requires Medium(h)
    ensures OddDone(OddCarries(h))
  {
  }

  lemma {:induction false} EvenFirm(h: Fe)
    requires OddDone(h)
    ensures Firm(EvenCarries(h))
  {
  }

  function Scaled(h: Fe, n: int): Fe {
    Fe(h.h0 * n, h.h1 * n, h.h2 * n, h.h3 * n, h.h4 * n, h.h5 * n, h.h6 * n, h.h7 * n, h.h8 * n, h.h9 * n)
  }

  function Mul32(f: Fe, n: int): Fe { CarriedApart(Scaled(f, n)) }

  lemma {:induction false} ScaledValue(f: Fe, n: int)
    ensures Val(Scaled(f, n)) == Val(f) * n
  {
  }

  /** A factor up to the ladder's 121666: the result is firm and stands for the product. */
  lemma {:induction false} Mul32Exact(f: Fe, n: int)
    requires 0 <= n <= 121666 && Loose(f)
    ensures Medium(Scaled(f, n)) && Firm(Mul32(f, n)) && Cong(Val(Mul32(f, n)), Val(f) * n, P)
  {
    ScaledMedium(f, n);
    ApartFirm(Scaled(f, n));
    Mul32Value(f, n, Scaled(f, n));
  }

  lemma {:induction false} ScaledMedium(f: Fe, n: int)
    requires 0 <= n <= 121666 && Loose(f)
    ensures Medium(Scaled(f, n))
  {
    ProductBound(f.h0, 110729625, n, 121666);
    ProductBound(f.h1, 110729625, n, 121666);
    ProductBound(f.h2, 110729625, n, 121666);
    ProductBound(f.h3, 110729625, n, 121666);
    ProductBound(f.h4, 110729625, n, 121666);
    ProductBound(f.h5, 110729625, n, 121666);
    ProductBound(f.h6, 110729625, n, 121666);
    ProductBound(f.h7, 110729625, n, 121666);
    ProductBound(f.h8, 110729625, n, 121666);
    ProductBound(f.h9, 110729625, n, 121666);
  }

  lemma {:induction false} Mul32Value(f: Fe, n: int, h: Fe)
    requires h == Scaled(f, n)
    ensures Cong(Val(CarriedApart(h)), Val(f) * n, P)
  {
    ApartValue(h);
    ScaledValue(f, n);
  }

  /** The limbs of 32 bytes before any carry; the highest bit is ignored. */
  function Loaded(s: seq<int>): Fe
    requires |s| == 32
  {
    Fe(Load4(s, 0), Load3(s, 4) * 0x40, Load3(s, 7) * 0x20, Load3(s, 10) * 8, Load3(s, 13) * 4,
       Load4(s, 16), Load3(s, 20) * 0x80, Load3(s, 23) * 0x20, Load3(s, 26) * 0x10, Load3(s, 29) % 0x80_0000 * 4)
  }

  function FromBytes(s: seq<int>): Fe
    requires |s| == 32
  {
    CarriedApart(Loaded(s))
  }

  /** The low 255 bits. */
  function Low255(s: seq<int>): int
    requires Bytes(s, 32)
  {
    Value(s) % TOP
  }

  lemma {:induction false} LoadedMedium(s: seq<int>)
    requires Bytes(s, 32)
    ensures Medium(Loaded(s))
  {
  }

  /** Loading cuts the bytes without gaps or overlaps. */
  lemma {:induction false} LoadsValue(s: seq<int>)
    requires Bytes(s, 32)
    ensures Value(s) == Load4(s, 0) + 0x1_0000_0000 * UpperLoads(s)
  {
    ValueThree(s, 0);
    ValueStep(s, 3);
    ValueThree(s, 4);
    ValueThree(s, 7);
    ValueThree(s, 10);
    ValueThree(s, 13);
    UpperHalf(s);
    assert s[0..] == s;
  }

  function UpperLoads(s: seq<int>): int
    requires |s| == 32
  {
    Load3(s, 4) + 0x100_0000 * Load3(s, 7) + 0x1_0000_0000_0000 * Load3(s, 10)
      + 0x100_0000_0000_0000_0000 * Load3(s, 13)
    + 0x1_0000_0000_0000_0000_0000_0000 * UpperHalfLoads(s)
  }

  function UpperHalfLoads(s: seq<int>): int
    requires |s| == 32
  {
    Load4(s, 16) + 0x1_0000_0000 * Load3(s, 20) + 0x100_0000_0000_0000 * Load3(s, 23)
      + 0x1_0000_0000_0000_0000_0000 * Load3(s, 26)
    + 0x100_0000_0000_0000_0000_0000_0000 * Load3(s, 29)
  }

  lemma {:induction false} UpperHalf(s: seq<int>)
    requires Bytes(s, 32)
    ensures Value(s[16..]) == UpperHalfLoads(s)
  {
    ValueThree(s, 16);
    ValueStep(s, 19);
    ValueThree(s, 20);
    ValueThree(s, 23);
    ValueThree(s, 26);
    ValueThree(s, 29);
    assert s[32..] == [];
  }

  lemma {:induction false} LoadedValue(s: seq<int>)
    requires Bytes(s, 32)
    ensures Val(Loaded(s)) == Low255(s)
  {
    LoadsValue(s);
    LowPart(Val(Loaded(s)), Load3(s, 29) / 0x80_0000, Value(s), s);
  }

  lemma {:induction false} LowPart(v: int, k: int, x: int, s: seq<int>)
    requires Bytes(s, 32) && v == Val(Loaded(s)) && x == v + k * TOP
    ensures x % TOP == v
  {
    LoadedRange(s);
    DivModUnique(x, TOP, k, v);
  }

  lemma {:induction false} LoadedRange(s: seq<int>)
    requires Bytes(s, 32)
    ensures 0 <= Val(Loaded(s)) < TOP
  {
  }

  lemma {:induction false} FromBytesExact(s: seq<int>)
    requires Bytes(s, 32)
    ensures Firm(FromBytes(s)) && Cong(Val(FromBytes(s)), Low255(s), P)
  {
    LoadedMedium(s);
    LoadedValue(s);
    ApartFirm(Loaded(s));
    ApartValue(Loaded(s));
  }

  // ----- the canonical representative

  /** Carries floors from limb to limb, the limbs taken alternately as 26 and 25 bits wide. */
  function CarryThrough(limbs: seq<int>, q: int): int
    decreases |limbs|
  {
    if limbs == [] then q
    else CarryThrough(limbs[1..], (limbs[0] + q) / if |limbs| % 2 == 0 then 0x400_0000 else 0x200_0000)
  }

  /** The quotient by P that the source computes with shifts only. */
  function QuotientOf(h: Fe): int {
    CarryThrough([h.h0, h.h1, h.h2, h.h3, h.h4, h.h5, h.h6, h.h7, h.h8, h.h9], (19 * h.h9 + 0x100_0000) / 0x200_0000)
  }

  /** Two of the shifts. */
  function CarryTwo(a: int, b: int, q: int): int { (b + (a + q) / 0x400_0000) / 0x200_0000 }

  /** The shifts one after the other. */
  function QuotientSteps(h: Fe): int {
    CarryTwo(h.h8, h.h9, CarryTwo(h.h6, h.h7, CarryTwo(h.h4, h.h5,
      CarryTwo(h.h2, h.h3, CarryTwo(h.h0, h.h1, (19 * h.h9 + 0x100_0000) / 0x200_0000)))))
  }

  lemma {:induction false} TwoLimbs(a: int, b: int, rest: seq<int>, q: int)
    requires |rest| % 2 == 0
    ensures CarryThrough([a, b] + rest, q) == CarryThrough(rest, CarryTwo(a, b, q))
  {
    assert ([a, b] + rest)[1..] == [b] + rest && ([b] + rest)[1..] == rest;
  }

  lemma {:induction false} TenLimbs(h0: int, h1: int, h2: int, h3: int, h4: int, h5: int, h6: int, h7: int, h8: int,
      h9: int, q: int)
    ensures CarryThrough([h0, h1, h2, h3, h4, h5, h6, h7, h8, h9], q)
         == CarryTwo(h8, h9, CarryTwo(h6, h7, CarryTwo(h4, h5, CarryTwo(h2, h3, CarryTwo(h0, h1, q)))))
  {
    var q2 := CarryTwo(h2, h3, CarryTwo(h0, h1, q));
    TwoLimbs(h0, h1, [h2, h3, h4, h5, h6, h7, h8, h9], q);
    TwoLimbs(h2, h3, [h4, h5, h6, h7, h8, h9], CarryTwo(h0, h1, q));
    SixLimbs(h4, h5, h6, h7, h8, h9, q2);
    assert [h0, h1, h2, h3, h4, h5, h6, h7, h8, h9] == [h0, h1] + [h2, h3, h4, h5, h6, h7, h8, h9];
    assert [h2, h3, h4, h5, h6, h7, h8, h9] == [h2, h3] + [h4, h5, h6, h7, h8, h9];
  }

  lemma {:induction false} SixLimbs(h4: int, h5: int, h6: int, h7: int, h8: int, h9: int, q: int)
    ensures CarryThrough([h4, h5, h6, h7, h8, h9], q) == CarryTwo(h8, h9, CarryTwo(h6, h7, CarryTwo(h4, h5, q)))
  {
    var q4 := CarryTwo(h6, h7, CarryTwo(h4, h5, q));
    TwoLimbs(h4, h5, [h6, h7, h8, h9], q);
    TwoLimbs(h6, h7, [h8, h9], CarryTwo(h4, h5, q));
    TwoLimbs(h8, h9, [], q4);
    assert [h4, h5, h6, h7, h8, h9] == [h4, h5] + [h6, h7, h8, h9];
    assert [h6, h7, h8, h9] == [h6, h7] + [h8, h9];
    assert [h8, h9] == [h8, h9] + [];
  }

  lemma {:induction false} QuotientIsSteps(h: Fe)
    ensures QuotientOf(h) == QuotientSteps(h)
  {
    TenLimbs(h.h0, h.h1, h.h2, h.h3, h.h4, h.h5, h.h6, h.h7, h.h8, h.h9, (19 * h.h9 + 0x100_0000) / 0x200_0000);
  }

  /** The limbs carried without rounding, the last carry being dropped. */
  function FloorCarried(h: Fe): Fe {
    var c := h.h0 / 0x400_0000; var h := h.(h1 := h.h1 + c, h0 := h.h0 - c * 0x400_0000);
    var c := h.h1 / 0x200_0000; var h := h.(h2 := h.h2 + c, h1 := h.h1 - c * 0x200_0000);
    var c := h.h2 / 0x400_0000; var h := h.(h3 := h.h3 + c, h2 := h.h2 - c * 0x400_0000);
    var c := h.h3 / 0x200_0000; var h := h.(h4 := h.h4 + c, h3 := h.h3 - c * 0x200_0000);
    var c := h.h4 / 0x400_0000; var h := h.(h5 := h.h5 + c, h4 := h.h4 - c * 0x400_0000);
    var c := h.h5 / 0x200_0000; var h := h.(h6 := h.h6 + c, h5 := h.h5 - c * 0x200_0000);
    var c := h.h6 / 0x400_0000; var h := h.(h7 := h.h7 + c, h6 := h.h6 - c * 0x400_0000);
    var c := h.h7 / 0x200_0000; var h := h.(h8 := h.h8 + c, h7 := h.h7 - c * 0x200_0000);
    var c := h.h8 / 0x400_0000; var h := h.(h9 := h.h9 + c, h8 := h.h8 - c * 0x400_0000);
    var c := h.h9 / 0x200_0000;
    h.(h9 := h.h9 - c * 0x200_0000)
  }

  function Canonical(f: Fe): Fe { FloorCarried(f.(h0 := f.h0 + 19 * QuotientOf(f))) }

  /** The quotient leaves a remainder of 255 bits, the first term included. */
  lemma {:induction false} QuotientRemainder(h: Fe)
    ensures 0 <= Val(h) + (19 * h.h9 + 0x100_0000) / 0x200_0000 - TOP * QuotientSteps(h) < TOP
  {
  }

  /** More than what the nine lower limbs can hold. */
  const LOWER_BOUND :=
    0x80_0000_0000_0000_0000_0000_0000_0000_0000_0000_0000_0000_0000_0000_0000    // 2^231

  /**
    The source's claim on the quotient, for all limbs within 1.65 * 2^26 and 1.65 * 2^25; the source asks
    for 1.1 * 2^26 and 1.1 * 2^25.
   */
  lemma {:induction false} QuotientExact(h: Fe)
    requires Loose(h)
    ensures 0 <= Val(h) - QuotientOf(h) * P < P
  {
    var t := (19 * h.h9 + 0x100_0000) / 0x200_0000;
    var low := Val(h) - 0x40_0000_0000_0000_0000_0000_0000_0000_0000_0000_0000_0000_0000_0000_0000 * h.h9;
    QuotientRemainder(h);
    QuotientIsSteps(h);
    LowBounded(h);
    QuotientClaim(Val(h), h.h9, low, t, QuotientOf(h));
  }

  lemma {:induction false} LowBounded(h: Fe)
    requires Loose(h)
    ensures var low := Val(h) - 0x40_0000_0000_0000_0000_0000_0000_0000_0000_0000_0000_0000_0000_0000_0000 * h.h9;
      -LOWER_BOUND < low < LOWER_BOUND
  {
  }

  lemma {:induction false} QuotientClaim(v: int, top: int, low: int, t: int, q: int)
    requires v == 0x40_0000_0000_0000_0000_0000_0000_0000_0000_0000_0000_0000_0000_0000_0000 * top + low
    requires -LOWER_BOUND < low < LOWER_BOUND
    requires -55364812 <= top <= 55364812 && t == (19 * top + 0x100_0000) / 0x200_0000
    requires 0 <= v + t - TOP * q < TOP
    ensures 0 <= v - q * P < P
  {
    var r := v + t - TOP * q;
    var u := t - 19 * q;
    assert 0x200_0000 * t <= 19 * top + 0x100_0000 < 0x200_0000 * t + 0x200_0000;
    assert TOP * u <= 19 * r - 19 * t - 19 * low + TOP / 2;
    assert TOP * u > 19 * r - 19 * t - 19 * low - TOP / 2;
    assert v - q * P == r - u;
  }

  /** The limbs end inside their widths and hold the unique representative in [0, P). */
  lemma {:induction false} CanonicalExact(h: Fe)
    requires Loose(h)
    ensures ValueIs(Canonical(h), Val(h) % P)
  {
    QuotientExact(h);
    CanonicalAt(h, QuotientOf(h), Canonical(h), Val(h) % P);
  }

  lemma {:induction false} CanonicalAt(h: Fe, q: int, c: Fe, v: int)
    requires 0 <= Val(h) - q * P < P && c == FloorCarried(h.(h0 := h.h0 + 19 * q)) && v == Val(h) % P
    ensures ValueIs(c, v)
  {
    CanonicalFrom(h, q);
  }

  /** What an element stands for. */
  predicate ValueIs(f: Fe, v: int) { Val(f) == v }

  lemma {:induction false} CanonicalFrom(h: Fe, q: int)
    requires 0 <= Val(h) - q * P < P
    ensures ValueIs(FloorCarried(h.(h0 := h.h0 + 19 * q)), Val(h) % P)
  {
    var g := h.(h0 := h.h0 + 19 * q);
    DroppedCarry(g);
    FloorLimbs(g);
    LimbsBelowTop(FloorCarried(g));
    Shifted(h, q);
    RemainderOf(Val(FloorCarried(g)), Val(h), q);
  }

  lemma {:induction false} Shifted(h: Fe, q: int)
    ensures Val(h.(h0 := h.h0 + 19 * q)) == Val(h) + 19 * q
  {
  }

  lemma {:induction false} RemainderOf(x: int, v: int, q: int)
    requires 0 <= x < TOP && (x - (v + 19 * q)) % TOP == 0 && 0 <= v - q * P < P
    ensures x == v % P
  {
    DivModUnique(v, P, q, v - q * P);
    assert (v - q * P) - (v + 19 * q) == -q * TOP;
    CongIntro(v - q * P, v + 19 * q, TOP, -q);
    DifferenceTop(x, v + 19 * q);
    CongNear(x, v - q * P, TOP);
  }

  lemma {:induction false} DifferenceTop(x: int, y: int)
    requires (x - y) % TOP == 0
    ensures Cong(x, y, TOP)
  {
    CongIntro(x, y, TOP, (x - y) / TOP);
  }

  lemma {:induction false} DroppedCarry(h: Fe)
    ensures (Val(FloorCarried(h)) - Val(h)) % TOP == 0
  {
  }

  /** Every limb inside its width. */
  predicate Narrow(h: Fe) {
    && 0 <= h.h0 < 0x400_0000 && 0 <= h.h1 < 0x200_0000 && 0 <= h.h2 < 0x400_0000 && 0 <= h.h3 < 0x200_0000
      && 0 <= h.h4 < 0x400_0000
    && 0 <= h.h5 < 0x200_0000 && 0 <= h.h6 < 0x400_0000 && 0 <= h.h7 < 0x200_0000 && 0 <= h.h8 < 0x400_0000
      && 0 <= h.h9 < 0x200_0000
  }

  lemma {:induction false} FloorLimbs(h: Fe)
    ensures Narrow(FloorCarried(h))
  {
  }

  lemma {:induction false} LimbsBelowTop(h: Fe)
    requires Narrow(h)
    ensures 0 <= Val(h) < TOP
  {
  }

  // ----- bytes

  /** The encoding of an element: its canonical limbs, stored with shifts and ors. */
  function Encode(f: Fe): (b: seq<int>)
    ensures Bytes(b, 32)
  {
    FloorLimbs(f.(h0 := f.h0 + 19 * QuotientOf(f)));
    StoreFe(Canonical(f))
  }

  function StoreFe(c: Fe): (b: seq<int>)
    requires Narrow(c)
    ensures Bytes(b, 32)
  {
    StoreLow(c.h0, c.h1, c.h2, c.h3, c.h4) + StoreHigh(c.h5, c.h6, c.h7, c.h8, c.h9)
  }

  /** Sixteen bytes as a number. */
  function Bytes16(s: seq<int>): int
    requires |s| == 16
  {
    s[0] + 0x100 * s[1] + 0x1_0000 * s[2]
    + 0x100_0000 * (s[3] + 0x100 * s[4] + 0x1_0000 * s[5])
    + 0x1_0000_0000_0000 * (s[6] + 0x100 * s[7] + 0x1_0000 * s[8])
    + 0x100_0000_0000_0000_0000 * (s[9] + 0x100 * s[10] + 0x1_0000 * s[11])
    + 0x1_0000_0000_0000_0000_0000_0000 * (s[12] + 0x100 * s[13] + 0x1_0000 * s[14])
    + 0x100_0000_0000_0000_0000_0000_0000_0000 * s[15]
  }

  const POW128 := 0x1_0000_0000_0000_0000_0000_0000_0000_0000    // 2^128

  lemma {:induction false} SixteenBytes(low: seq<int>, high: seq<int>)
    requires Below(low, 256) && |low| == 16 && Below(high, 256)
    ensures Value(low + high) == Bytes16(low) + POW128 * Value(high)
  {
    var s := low + high;
    assert s[16..] == high;
    ValueSixteen(s);
    assert forall j :: 0 <= j < 16 ==> s[j] == low[j];
  }

  lemma {:induction false} ValueSixteen(s: seq<int>)
    requires Below(s, 256) && |s| >= 16
    ensures Value(s) == Load3(s, 0) + 0x100_0000 * Load3(s, 3) + 0x1_0000_0000_0000 * Load3(s, 6)
      + 0x100_0000_0000_0000_0000 * Load3(s, 9) + 0x1_0000_0000_0000_0000_0000_0000 * Load3(s, 12)
      + 0x100_0000_0000_0000_0000_0000_0000_0000 * s[15] + POW128 * Value(s[16..])
  {
    assert s[0..] == s;
    ValueNine(s, 0);
    ValueSeven(s);
  }

  lemma {:induction false} ValueSeven(s: seq<int>)
    requires Below(s, 256) && |s| >= 16
    ensures Value(s[9..]) == Load3(s, 9) + 0x100_0000 * Load3(s, 12) + 0x1_0000_0000_0000 * s[15]
      + 0x100_0000_0000_0000 * Value(s[16..])
  {
    ValueThree(s, 9);
    ValueThree(s, 12);
    ValueStep(s, 15);
  }

  lemma {:induction false} ValueNine(s: seq<int>, i: nat)
    requires Below(s, 256) && i + 9 <= |s|
    ensures Value(s[i..]) == Load3(s, i) + 0x100_0000 * Load3(s, i + 3) + 0x1_0000_0000_0000 * Load3(s, i + 6)
      + 0x100_0000_0000_0000_0000 * Value(s[i + 9..])
  {
    ValueThree(s, i);
    ValueThree(s, i + 3);
    ValueThree(s, i + 6);
  }

  /** The halves of an element as numbers. */
  function Lower(c: Fe): int {
    c.h0 + 0x400_0000 * c.h1 + 0x8_0000_0000_0000 * c.h2 + 0x2000_0000_0000_0000_0000 * c.h3
      + 0x40_0000_0000_0000_0000_0000_0000 * c.h4
  }

  function Upper(c: Fe): int {
    c.h5 + 0x200_0000 * c.h6 + 0x8_0000_0000_0000 * c.h7 + 0x1000_0000_0000_0000_0000 * c.h8
      + 0x40_0000_0000_0000_0000_0000_0000 * c.h9
  }

  lemma {:induction false} StoredLower(c: Fe)
    requires Narrow(c)
    ensures Bytes16(StoreLow(c.h0, c.h1, c.h2, c.h3, c.h4)) == Lower(c)
  {
    StoreLowValue(c.h0, c.h1, c.h2, c.h3, c.h4);
  }

  lemma {:induction false} StoredUpper(c: Fe)
    requires Narrow(c)
    ensures Bytes16(StoreHigh(c.h5, c.h6, c.h7, c.h8, c.h9)) == Upper(c)
  {
    StoreHighValue(c.h5, c.h6, c.h7, c.h8, c.h9);
  }

  /** The bytes hold the number that the canonical limbs stand for. */
  lemma {:induction false} StoredValue(c: Fe)
    requires Narrow(c)
    ensures Value(StoreFe(c)) == Val(c)
  {
    var low, high := StoreLow(c.h0, c.h1, c.h2, c.h3, c.h4), StoreHigh(c.h5, c.h6, c.h7, c.h8, c.h9);
    StoredLower(c);
    StoredUpper(c);
    HalvesJoined(c, low, high, Bytes16(low), Bytes16(high));
  }

  lemma {:induction false} HalvesJoined(c: Fe, low: seq<int>, high: seq<int>, x: int, y: int)
    requires Bytes(low, 16) && Bytes(high, 16) && x == Bytes16(low) == Lower(c) && y == Bytes16(high) == Upper(c)
    ensures Value(low + high) == Val(c)
  {
    SixteenBytes(low, high);
    SixteenBytes(high, []);
    assert high + [] == high;
  }

  lemma {:induction false} EncodeIs(f: Fe, x: nat)
    requires ValueIs(Canonical(f), x)
    ensures Encode(f) == ToBytes(x, 32)
  {
    var c := Canonical(f);
    FloorLimbs(f.(h0 := f.h0 + 19 * QuotientOf(f)));
    StoredValue(c);
    ToBytesOfValue(Encode(f));
  }

  /** The encoding writes the unique representative in [0, P), least significant byte first. */
  lemma {:induction false} EncodeExact(f: Fe)
    requires Loose(f)
    ensures Encode(f) == ToBytes(Val(f) % P, 32)
  {
    CanonicalExact(f);
    EncodeIs(f, Val(f) % P);
  }

  /** Encoding what was decoded reduces the low 255 bits modulo P. */
  lemma {:induction false} EncodeDecoded(s: seq<int>)
    requires Bytes(s, 32)
    ensures Encode(FromBytes(s)) == ToBytes(Low255(s) % P, 32)
  {
    FromBytesExact(s);
    FirmIsLoose(FromBytes(s));
    EncodeExact(FromBytes(s));
    CongMod(Val(FromBytes(s)), Low255(s));
  }

  lemma {:induction false} CongMod(x: int, y: int)
    requires Cong(x, y, P)
    ensures x % P == y % P
  {
  }

  /** Equal residues have equal encodings. */
  lemma {:induction false} EncodeCanonical(f: Fe, g: Fe)
    requires Loose(f) && Loose(g) && Cong(Val(f), Val(g), P)
    ensures Encode(f) == Encode(g)
  {
    EncodeExact(f);
    EncodeExact(g);
    CongMod(Val(f), Val(g));
  }
}
