/**
  The field operations stay inside their machine words: the single products, the sums on the way, the carries
  and what is multiplied back. Products and sums are 64 bits wide, the final reduction 32.
 */
module FieldWidths {
  import opened ModArith
  import opened MachineInts
  import opened CoefficientBounds
  import opened BitPacking
  import opened PolyPacking
  import opened FieldLimbs

  // ----- products and the sums of products

  /** The factors of each product of a multiplication, limb by limb, in the order in which they are added. */
  function Products(f: Fe, g: Fe): (rows: seq<seq<(int, int)>>)
    ensures |rows| == 10
  {
    [
      [(f.h0, g.h0), (2 * f.h1, 19 * g.h9), (f.h2, 19 * g.h8), (2 * f.h3, 19 * g.h7), (f.h4, 19 * g.h6),
       (2 * f.h5, 19 * g.h5), (f.h6, 19 * g.h4), (2 * f.h7, 19 * g.h3), (f.h8, 19 * g.h2), (2 * f.h9, 19 * g.h1)],
      [(f.h0, g.h1), (f.h1, g.h0), (f.h2, 19 * g.h9), (f.h3, 19 * g.h8), (f.h4, 19 * g.h7), (f.h5, 19 * g.h6),
       (f.h6, 19 * g.h5), (f.h7, 19 * g.h4), (f.h8, 19 * g.h3), (f.h9, 19 * g.h2)],
      [(f.h0, g.h2), (2 * f.h1, g.h1), (f.h2, g.h0), (2 * f.h3, 19 * g.h9), (f.h4, 19 * g.h8), (2 * f.h5, 19 * g.h7),
       (f.h6, 19 * g.h6), (2 * f.h7, 19 * g.h5), (f.h8, 19 * g.h4), (2 * f.h9, 19 * g.h3)],
      [(f.h0, g.h3), (f.h1, g.h2), (f.h2, g.h1), (f.h3, g.h0), (f.h4, 19 * g.h9), (f.h5, 19 * g.h8),
       (f.h6, 19 * g.h7), (f.h7, 19 * g.h6), (f.h8, 19 * g.h5), (f.h9, 19 * g.h4)],
      [(f.h0, g.h4), (2 * f.h1, g.h3), (f.h2, g.h2), (2 * f.h3, g.h1), (f.h4, g.h0), (2 * f.h5, 19 * g.h9),
       (f.h6, 19 * g.h8), (2 * f.h7, 19 * g.h7), (f.h8, 19 * g.h6), (2 * f.h9, 19 * g.h5)],
      [(f.h0, g.h5), (f.h1, g.h4), (f.h2, g.h3), (f.h3, g.h2), (f.h4, g.h1), (f.h5, g.h0), (f.h6, 19 * g.h9),
       (f.h7, 19 * g.h8), (f.h8, 19 * g.h7), (f.h9, 19 * g.h6)],
      [(f.h0, g.h6), (2 * f.h1, g.h5), (f.h2, g.h4), (2 * f.h3, g.h3), (f.h4, g.h2), (2 * f.h5, g.h1), (f.h6, g.h0),
       (2 * f.h7, 19 * g.h9), (f.h8, 19 * g.h8), (2 * f.h9, 19 * g.h7)],
      [(f.h0, g.h7), (f.h1, g.h6), (f.h2, g.h5), (f.h3, g.h4), (f.h4, g.h3), (f.h5, g.h2), (f.h6, g.h1),
       (f.h7, g.h0), (f.h8, 19 * g.h9), (f.h9, 19 * g.h8)],
      [(f.h0, g.h8), (2 * f.h1, g.h7), (f.h2, g.h6), (2 * f.h3, g.h5), (f.h4, g.h4), (2 * f.h5, g.h3), (f.h6, g.h2),
       (2 * f.h7, g.h1), (f.h8, g.h0), (2 * f.h9, 19 * g.h9)],
      [(f.h0, g.h9), (f.h1, g.h8), (f.h2, g.h7), (f.h3, g.h6), (f.h4, g.h5), (f.h5, g.h4), (f.h6, g.h3),
       (f.h7, g.h2), (f.h8, g.h1), (f.h9, g.h0)]
    ]
  }

  /** The same for a square. */
  function SquareProducts(f: Fe): (rows: seq<seq<(int, int)>>)
    ensures |rows| == 10
  {
    [
      [(f.h0, f.h0), (2 * f.h1, 38 * f.h9), (2 * f.h2, 19 * f.h8), (2 * f.h3, 38 * f.h7), (2 * f.h4, 19 * f.h6),
       (f.h5, 38 * f.h5)],
      [(2 * f.h0, f.h1), (f.h2, 38 * f.h9), (2 * f.h3, 19 * f.h8), (f.h4, 38 * f.h7), (2 * f.h5, 19 * f.h6)],
      [(2 * f.h0, f.h2), (2 * f.h1, f.h1), (2 * f.h3, 38 * f.h9), (2 * f.h4, 19 * f.h8), (2 * f.h5, 38 * f.h7),
       (f.h6, 19 * f.h6)],
      [(2 * f.h0, f.h3), (2 * f.h1, f.h2), (f.h4, 38 * f.h9), (2 * f.h5, 19 * f.h8), (f.h6, 38 * f.h7)],
      [(2 * f.h0, f.h4), (2 * f.h1, 2 * f.h3), (f.h2, f.h2), (2 * f.h5, 38 * f.h9), (2 * f.h6, 19 * f.h8),
       (f.h7, 38 * f.h7)],
      [(2 * f.h0, f.h5), (2 * f.h1, f.h4), (2 * f.h2, f.h3), (f.h6, 38 * f.h9), (2 * f.h7, 19 * f.h8)],
      [(2 * f.h0, f.h6), (2 * f.h1, 2 * f.h5), (2 * f.h2, f.h4), (2 * f.h3, f.h3), (2 * f.h7, 38 * f.h9),
       (f.h8, 19 * f.h8)],
      [(2 * f.h0, f.h7), (2 * f.h1, f.h6), (2 * f.h2, f.h5), (2 * f.h3, f.h4), (f.h8, 38 * f.h9)],
      [(2 * f.h0, f.h8), (2 * f.h1, 2 * f.h7), (2 * f.h2, f.h6), (2 * f.h3, 2 * f.h5), (f.h4, f.h4), (f.h9, 38 * f.h9)],
      [(2 * f.h0, f.h9), (2 * f.h1, f.h8), (2 * f.h2, f.h7), (2 * f.h3, f.h6), (2 * f.h4, f.h5)]
    ]
  }


  /** The sum after the first n products of a row. */
  function SumAfter(row: seq<(int, int)>, n: nat): int
    requires n <= |row|
    decreases n, |row|
  {
    if n == 0 then 0 else SumAfter(row, n - 1) + row[n - 1].0 * row[n - 1].1
  }

  /** Every product of a row and every sum on the way is a 64-bit integer. */
  predicate RowFits(row: seq<(int, int)>) {
    forall n :: 0 <= n < |row| ==> InInt64(row[n].0 * row[n].1) && InInt64(SumAfter(row, n + 1))
  }

  /** All rows fit, and add up to the limbs of h. */
  predicate RowsFit(rows: seq<seq<(int, int)>>, h: Fe) {
    && |rows| == 10
    && (forall i :: 0 <= i < 10 ==> RowFits(rows[i]))
    && Total(rows[0]) == h.h0 && Total(rows[1]) == h.h1 && Total(rows[2]) == h.h2 && Total(rows[3]) == h.h3
    && Total(rows[4]) == h.h4 && Total(rows[5]) == h.h5 && Total(rows[6]) == h.h6 && Total(rows[7]) == h.h7
    && Total(rows[8]) == h.h8 && Total(rows[9]) == h.h9
  }

  function Total(row: seq<(int, int)>): int { SumAfter(row, |row|) }

  const PRODUCT := 0x800_0000_0000_0000    // 2^59

  predicate Factors(xy: (int, int)) {
    -221459250 <= xy.0 <= 221459250 && -2103862875 <= xy.1 <= 2103862875
  }

  predicate FactorRow(row: seq<(int, int)>) {
    |row| <= 10 && forall n :: 0 <= n < |row| ==> Factors(row[n])
  }

  lemma {:induction false} FactorsWithin(xy: (int, int))
    requires Factors(xy)
    ensures -PRODUCT <= xy.0 * xy.1 <= PRODUCT
  {
    ProductBound(xy.0, 221459250, xy.1, 2103862875);
  }

  lemma {:induction false} SumWithin(row: seq<(int, int)>, n: nat)
    requires FactorRow(row) && n <= |row|
    ensures -(n * PRODUCT) <= SumAfter(row, n) <= n * PRODUCT
    decreases n
  {
    if n > 0 {
      SumWithin(row, n - 1);
      FactorsWithin(row[n - 1]);
    }
  }

  lemma {:induction false} FactorRowFits(row: seq<(int, int)>)
    requires FactorRow(row)
    ensures RowFits(row)
  {
    forall n | 0 <= n < |row| ensures InInt64(row[n].0 * row[n].1) && InInt64(SumAfter(row, n + 1)) {
      FactorsWithin(row[n]);
      SumWithin(row, n + 1);
    }
  }

  lemma {:induction false} TenProducts(p: seq<(int, int)>)
    requires |p| == 10
    ensures Total(p) == p[0].0 * p[0].1 + p[1].0 * p[1].1 + p[2].0 * p[2].1 + p[3].0 * p[3].1
      + p[4].0 * p[4].1 + p[5].0 * p[5].1 + p[6].0 * p[6].1 + p[7].0 * p[7].1 + p[8].0 * p[8].1 + p[9].0 * p[9].1
  {
    assert SumAfter(p, 1) == SumAfter(p, 0) + p[0].0 * p[0].1;
    assert SumAfter(p, 2) == SumAfter(p, 1) + p[1].0 * p[1].1;
    assert SumAfter(p, 3) == SumAfter(p, 2) + p[2].0 * p[2].1;
    assert SumAfter(p, 4) == SumAfter(p, 3) + p[3].0 * p[3].1;
    assert SumAfter(p, 5) == SumAfter(p, 4) + p[4].0 * p[4].1;
    assert SumAfter(p, 6) == SumAfter(p, 5) + p[5].0 * p[5].1;
    assert SumAfter(p, 7) == SumAfter(p, 6) + p[6].0 * p[6].1;
    assert SumAfter(p, 8) == SumAfter(p, 7) + p[7].0 * p[7].1;
    assert SumAfter(p, 9) == SumAfter(p, 8) + p[8].0 * p[8].1;
    assert SumAfter(p, 10) == SumAfter(p, 9) + p[9].0 * p[9].1;
  }

  lemma {:induction false} SixProducts(p: seq<(int, int)>)
    requires |p| == 6
    ensures Total(p) == p[0].0 * p[0].1 + p[1].0 * p[1].1 + p[2].0 * p[2].1 + p[3].0 * p[3].1
      + p[4].0 * p[4].1 + p[5].0 * p[5].1
  {
    assert SumAfter(p, 1) == SumAfter(p, 0) + p[0].0 * p[0].1;
    assert SumAfter(p, 2) == SumAfter(p, 1) + p[1].0 * p[1].1;
    assert SumAfter(p, 3) == SumAfter(p, 2) + p[2].0 * p[2].1;
    assert SumAfter(p, 4) == SumAfter(p, 3) + p[3].0 * p[3].1;
    assert SumAfter(p, 5) == SumAfter(p, 4) + p[4].0 * p[4].1;
    assert SumAfter(p, 6) == SumAfter(p, 5) + p[5].0 * p[5].1;
  }

  lemma {:induction false} FiveProducts(p: seq<(int, int)>)
    requires |p| == 5
    ensures Total(p) == p[0].0 * p[0].1 + p[1].0 * p[1].1 + p[2].0 * p[2].1 + p[3].0 * p[3].1
      + p[4].0 * p[4].1
  {
    assert SumAfter(p, 1) == SumAfter(p, 0) + p[0].0 * p[0].1;
    assert SumAfter(p, 2) == SumAfter(p, 1) + p[1].0 * p[1].1;
    assert SumAfter(p, 3) == SumAfter(p, 2) + p[2].0 * p[2].1;
    assert SumAfter(p, 4) == SumAfter(p, 3) + p[3].0 * p[3].1;
    assert SumAfter(p, 5) == SumAfter(p, 4) + p[4].0 * p[4].1;
  }

  lemma {:induction false} ProductsRanged(f: Fe, g: Fe)
    requires Loose(f) && Loose(g)
    ensures forall i :: 0 <= i < 10 ==> FactorRow(Products(f, g)[i])
  {
  }

  lemma {:induction false} ProductTotal0(f: Fe, g: Fe)
    ensures Total(Products(f, g)[0]) == Raw(f, g).h0
  {
    TenProducts(Products(f, g)[0]);
  }

  lemma {:induction false} ProductTotal1(f: Fe, g: Fe)
    ensures Total(Products(f, g)[1]) == Raw(f, g).h1
  {
    TenProducts(Products(f, g)[1]);
  }

  lemma {:induction false} ProductTotal2(f: Fe, g: Fe)
    ensures Total(Products(f, g)[2]) == Raw(f, g).h2
  {
    TenProducts(Products(f, g)[2]);
  }

  lemma {:induction false} ProductTotal3(f: Fe, g: Fe)
    ensures Total(Products(f, g)[3]) == Raw(f, g).h3
  {
    TenProducts(Products(f, g)[3]);
  }

  lemma {:induction false} ProductTotal4(f: Fe, g: Fe)
    ensures Total(Products(f, g)[4]) == Raw(f, g).h4
  {
    TenProducts(Products(f, g)[4]);
  }

  lemma {:induction false} ProductTotal5(f: Fe, g: Fe)
    ensures Total(Products(f, g)[5]) == Raw(f, g).h5
  {
    TenProducts(Products(f, g)[5]);
  }

  lemma {:induction false} ProductTotal6(f: Fe, g: Fe)
    ensures Total(Products(f, g)[6]) == Raw(f, g).h6
  {
    TenProducts(Products(f, g)[6]);
  }

  lemma {:induction false} ProductTotal7(f: Fe, g: Fe)
    ensures Total(Products(f, g)[7]) == Raw(f, g).h7
  {
    TenProducts(Products(f, g)[7]);
  }

  lemma {:induction false} ProductTotal8(f: Fe, g: Fe)
    ensures Total(Products(f, g)[8]) == Raw(f, g).h8
  {
    TenProducts(Products(f, g)[8]);
  }

  lemma {:induction false} ProductTotal9(f: Fe, g: Fe)
    ensures Total(Products(f, g)[9]) == Raw(f, g).h9
  {
    TenProducts(Products(f, g)[9]);
  }

  /** No product of a multiplication and no sum on the way leaves 64 bits; the sums are the limbs before the carries. */
  lemma {:induction false} MulProductsFit(f: Fe, g: Fe)
    requires Loose(f) && Loose(g)
    ensures RowsFit(Products(f, g), Raw(f, g))
  {
    ProductsRanged(f, g);
    RowsRanged(Products(f, g));
    ProductTotal0(f, g); ProductTotal1(f, g); ProductTotal2(f, g); ProductTotal3(f, g); ProductTotal4(f, g);
    ProductTotal5(f, g); ProductTotal6(f, g); ProductTotal7(f, g); ProductTotal8(f, g); ProductTotal9(f, g);
  }

  predicate FactorRows(rows: seq<seq<(int, int)>>) {
    |rows| == 10 && forall i :: 0 <= i < 10 ==> FactorRow(rows[i])
  }

  lemma {:induction false} RowsRanged(rows: seq<seq<(int, int)>>)
    requires FactorRows(rows)
    ensures forall i :: 0 <= i < 10 ==> RowFits(rows[i])
  {
    forall i | 0 <= i < 10 ensures RowFits(rows[i]) {
      FactorRowFits(rows[i]);
    }
  }

  lemma {:induction false} SquareRanged(f: Fe)
    requires Loose(f)
    ensures FactorRows(SquareProducts(f))
  {
  }

  lemma {:induction false} SquareTotal0(f: Fe)
    ensures Total(SquareProducts(f)[0]) == RawSquare(f).h0
  {
    SixProducts(SquareProducts(f)[0]);
  }

  lemma {:induction false} SquareTotal1(f: Fe)
    ensures Total(SquareProducts(f)[1]) == RawSquare(f).h1
  {
    FiveProducts(SquareProducts(f)[1]);
  }

  lemma {:induction false} SquareTotal2(f: Fe)
    ensures Total(SquareProducts(f)[2]) == RawSquare(f).h2
  {
    SixProducts(SquareProducts(f)[2]);
  }

  lemma {:induction false} SquareTotal3(f: Fe)
    ensures Total(SquareProducts(f)[3]) == RawSquare(f).h3
  {
    FiveProducts(SquareProducts(f)[3]);
  }

  lemma {:induction false} SquareTotal4(f: Fe)
    ensures Total(SquareProducts(f)[4]) == RawSquare(f).h4
  {
    SixProducts(SquareProducts(f)[4]);
  }

  lemma {:induction false} SquareTotal5(f: Fe)
    ensures Total(SquareProducts(f)[5]) == RawSquare(f).h5
  {
    FiveProducts(SquareProducts(f)[5]);
  }

  lemma {:induction false} SquareTotal6(f: Fe)
    ensures Total(SquareProducts(f)[6]) == RawSquare(f).h6
  {
    SixProducts(SquareProducts(f)[6]);
  }

  lemma {:induction false} SquareTotal7(f: Fe)
    ensures Total(SquareProducts(f)[7]) == RawSquare(f).h7
  {
    FiveProducts(SquareProducts(f)[7]);
  }

  lemma {:induction false} SquareTotal8(f: Fe)
    ensures Total(SquareProducts(f)[8]) == RawSquare(f).h8
  {
    SixProducts(SquareProducts(f)[8]);
  }

  lemma {:induction false} SquareTotal9(f: Fe)
    ensures Total(SquareProducts(f)[9]) == RawSquare(f).h9
  {
    FiveProducts(SquareProducts(f)[9]);
  }

  /** The same for a square, and for the sums doubled. */
  lemma {:induction false} SquareProductsFit(f: Fe)
    requires Loose(f)
    ensures RowsFit(SquareProducts(f), RawSquare(f))
  {
    SquareRanged(f);
    RowsRanged(SquareProducts(f));
    SquareTotal0(f); SquareTotal1(f); SquareTotal2(f); SquareTotal3(f); SquareTotal4(f);
    SquareTotal5(f); SquareTotal6(f); SquareTotal7(f); SquareTotal8(f); SquareTotal9(f);
  }

  // ----- carries

  /**
    A rounded carry out of x into next: the constant added, the carry times its factor, the limb that takes it,
    what is shifted back and what is left.
   */
  predicate CarryFits(x: int, half: nat, next: int, factor: nat)
    requires half > 0
  {
    var c := (x + half) / (2 * half);
    && InInt64(x + half) && InInt64(c * factor) && InInt64(next + c * factor)
    && InInt64(c * (2 * half)) && InInt64(x - c * (2 * half))
  }

  const H26: nat := 0x200_0000    // half of 2^26
  const H25: nat := 0x100_0000

  predicate EarlierFit(h: Fe) {
    var c := C26(h.h0); var h1 := h.(h1 := h.h1 + c, h0 := h.h0 - c * 0x400_0000);
    var c := C26(h1.h4); var h2 := h1.(h5 := h1.h5 + c, h4 := h1.h4 - c * 0x400_0000);
    var c := C25(h2.h1); var h3 := h2.(h2 := h2.h2 + c, h1 := h2.h1 - c * 0x200_0000);
    var c := C25(h3.h5); var h4 := h3.(h6 := h3.h6 + c, h5 := h3.h5 - c * 0x200_0000);
    var c := C26(h4.h2); var h5 := h4.(h3 := h4.h3 + c, h2 := h4.h2 - c * 0x400_0000);
    && CarryFits(h.h0, H26, h.h1, 1) && CarryFits(h1.h4, H26, h1.h5, 1) && CarryFits(h2.h1, H25, h2.h2, 1)
    && CarryFits(h3.h5, H25, h3.h6, 1) && CarryFits(h4.h2, H26, h4.h3, 1) && CarryFits(h5.h6, H26, h5.h7, 1)
  }

  predicate LaterFit(h: Fe) {
    var c := C25(h.h3); var h1 := h.(h4 := h.h4 + c, h3 := h.h3 - c * 0x200_0000);
    var c := C25(h1.h7); var h2 := h1.(h8 := h1.h8 + c, h7 := h1.h7 - c * 0x200_0000);
    var c := C26(h2.h4); var h3 := h2.(h5 := h2.h5 + c, h4 := h2.h4 - c * 0x400_0000);
    var c := C26(h3.h8); var h4 := h3.(h9 := h3.h9 + c, h8 := h3.h8 - c * 0x400_0000);
    var c := C25(h4.h9); var h5 := h4.(h0 := h4.h0 + c * 19, h9 := h4.h9 - c * 0x200_0000);
    && CarryFits(h.h3, H25, h.h4, 1) && CarryFits(h1.h7, H25, h1.h8, 1) && CarryFits(h2.h4, H26, h2.h5, 1)
    && CarryFits(h3.h8, H26, h3.h9, 1) && CarryFits(h4.h9, H25, h4.h0, 19) && CarryFits(h5.h0, H26, h5.h1, 1)
  }

  predicate OddFit(h: Fe) {
    var c := C25(h.h9); var h1 := h.(h0 := h.h0 + c * 19, h9 := h.h9 - c * 0x200_0000);
    var c := C25(h1.h1); var h2 := h1.(h2 := h1.h2 + c, h1 := h1.h1 - c * 0x200_0000);
    var c := C25(h2.h3); var h3 := h2.(h4 := h2.h4 + c, h3 := h2.h3 - c * 0x200_0000);
    var c := C25(h3.h5); var h4 := h3.(h6 := h3.h6 + c, h5 := h3.h5 - c * 0x200_0000);
    && CarryFits(h.h9, H25, h.h0, 19) && CarryFits(h1.h1, H25, h1.h2, 1) && CarryFits(h2.h3, H25, h2.h4, 1)
    && CarryFits(h3.h5, H25, h3.h6, 1) && CarryFits(h4.h7, H25, h4.h8, 1)
  }

  predicate EvenFit(h: Fe) {
    var c := C26(h.h0); var h1 := h.(h1 := h.h1 + c, h0 := h.h0 - c * 0x400_0000);
    var c := C26(h1.h2); var h2 := h1.(h3 := h1.h3 + c, h2 := h1.h2 - c * 0x400_0000);
    var c := C26(h2.h4); var h3 := h2.(h5 := h2.h5 + c, h4 := h2.h4 - c * 0x400_0000);
    var c := C26(h3.h6); var h4 := h3.(h7 := h3.h7 + c, h6 := h3.h6 - c * 0x400_0000);
    && CarryFits(h.h0, H26, h.h1, 1) && CarryFits(h1.h2, H26, h1.h3, 1) && CarryFits(h2.h4, H26, h2.h5, 1)
    && CarryFits(h3.h6, H26, h3.h7, 1) && CarryFits(h4.h8, H26, h4.h9, 1)
  }

  /** The carries after a multiplication, and those after loading and after a small factor. */
  predicate CarriedFit(h: Fe) { EarlierFit(h) && LaterFit(EarlierCarries(h)) }

  predicate ApartFit(h: Fe) { OddFit(h) && EvenFit(OddCarries(h)) }

  const ROOM := 0x7000_0000_0000_0000    // seven eighths of the 64-bit range

  lemma {:induction false} CarryInside(x: int, half: nat, next: int, factor: nat)
    requires (half == H26 || half == H25) && (factor == 1 || factor == 19)
    requires -ROOM <= x <= ROOM && -ROOM <= next <= ROOM
    ensures CarryFits(x, half, next, factor)
  {
  }

  /** Carries from a over b and c into d. */
  predicate ThreeFit(a: int, b: int, c: int, d: int) {
    && CarryFits(a, H26, b, 1) && CarryFits(b + C26(a), H25, c, 1) && CarryFits(c + C25(b + C26(a)), H26, d, 1)
  }

  lemma {:induction false} ThreeInside(a: int, b: int, c: int, d: int)
    requires -2 * WIDE <= a <= 2 * WIDE && -2 * WIDE <= b <= 2 * WIDE && -2 * WIDE <= c <= 2 * WIDE
      && -2 * WIDE <= d <= 2 * WIDE
    ensures ThreeFit(a, b, c, d)
  {
    CarryInside(a, H26, b, 1);
    CarryInside(b + C26(a), H25, c, 1);
    CarryInside(c + C25(b + C26(a)), H26, d, 1);
  }

  lemma {:induction false} EarlierInside(h: Fe)
    requires Vast(h)
    ensures EarlierFit(h)
  {
    ThreeInside(h.h0, h.h1, h.h2, h.h3);
    ThreeInside(h.h4, h.h5, h.h6, h.h7);
  }

  /** Carries from a and b into c, and from d over e and f into g and on into the next limb. */
  predicate LowerFit(a: int, b: int, c: int) {
    CarryFits(a, H25, b, 1) && CarryFits(b + C25(a), H26, c, 1)
  }

  predicate UpperFit(d: int, e: int, f: int, g: int, n: int) {
    && CarryFits(d, H25, e, 1) && CarryFits(e + C25(d), H26, f, 1)
    && CarryFits(f + C26(e + C25(d)), H25, g, 19) && CarryFits(g + 19 * C25(f + C26(e + C25(d))), H26, n, 1)
  }

  lemma {:induction false} LowerInside(a: int, b: int, c: int)
    requires -MORE <= a <= MORE && -0x200_0000 <= b <= 0x200_0000 && -0x100_0000 <= c <= 0x100_0000
    ensures LowerFit(a, b, c)
  {
    CarryInside(a, H25, b, 1);
    CarryInside(b + C25(a), H26, c, 1);
  }

  lemma {:induction false} UpperInside(d: int, e: int, f: int, g: int, n: int)
    requires -MORE <= d <= MORE && -MORE <= e <= MORE && -MORE <= f <= MORE
    requires -0x200_0000 <= g <= 0x200_0000 && -0x100_0000 <= n <= 0x100_0000
    ensures UpperFit(d, e, f, g, n)
  {
    CarryInside(d, H25, e, 1);
    CarryInside(e + C25(d), H26, f, 1);
    CarryInside(f + C26(e + C25(d)), H25, g, 19);
    CarryInside(g + 19 * C25(f + C26(e + C25(d))), H26, n, 1);
  }

  lemma {:induction false} LaterInside(h: Fe)
    requires HalfCarried(h)
    ensures LaterFit(h)
  {
    LowerInside(h.h3, h.h4, h.h5);
    UpperInside(h.h7, h.h8, h.h9, h.h0, h.h1);
  }

  lemma {:induction false} CarriedInside(h: Fe)
    requires Vast(h)
    ensures CarriedFit(h)
  {
    EarlierBounded(h);
    EarlierInside(h);
    LaterInside(EarlierCarries(h));
  }

  lemma {:induction false} OddInside(h: Fe)
    requires Medium(h)
    ensures OddFit(h)
  {
  }

  lemma {:induction false} EvenInside(h: Fe)
    requires OddDone(h)
    ensures EvenFit(h)
  {
  }

  lemma {:induction false} ApartInside(h: Fe)
    requires Medium(h)
    ensures ApartFit(h)
  {
    OddBounded(h);
    OddInside(h);
    EvenInside(OddCarries(h));
  }

  // ----- the operations

  /** A multiplication, its carries included, and limbs that fit 32 bits at the end. */
  lemma {:induction false} MulStaysInside(f: Fe, g: Fe, h: Fe)
    requires Loose(f) && Loose(g) && h == Raw(f, g)
    ensures RowsFit(Products(f, g), h) && CarriedFit(h) && Narrowed(Carried(h))
  {
    MulProductsFit(f, g);
    RawWide(f, g);
    WideIsVast(h);
    TightCarries(h);
  }

  predicate Narrowed(h: Fe) {
    && InInt32(h.h0) && InInt32(h.h1) && InInt32(h.h2) && InInt32(h.h3) && InInt32(h.h4)
    && InInt32(h.h5) && InInt32(h.h6) && InInt32(h.h7) && InInt32(h.h8) && InInt32(h.h9)
  }

  lemma {:induction false} TightCarries(h: Fe)
    requires Vast(h)
    ensures CarriedFit(h) && Narrowed(Carried(h))
  {
    CarriedInside(h);
    CarriedTight(h);
    TightNarrowed(Carried(h));
  }

  lemma {:induction false} TightNarrowed(h: Fe)
    requires Tight(h)
    ensures Narrowed(h)
  {
  }

  lemma {:induction false} SquareStaysInside(f: Fe, h: Fe)
    requires Loose(f) && h == RawSquare(f)
    ensures RowsFit(SquareProducts(f), h) && CarriedFit(h) && Narrowed(Carried(h))
  {
    SquareProductsFit(f);
    SquareWide(f);
    WideIsVast(h);
    TightCarries(h);
  }

  lemma {:induction false} SquareWide(f: Fe)
    requires Loose(f)
    ensures Wide(RawSquare(f))
  {
    RawSquareIsRaw(f);
    RawWide(f, f);
  }

  predicate InInt64s(h: Fe) {
    && InInt64(h.h0) && InInt64(h.h1) && InInt64(h.h2) && InInt64(h.h3) && InInt64(h.h4)
    && InInt64(h.h5) && InInt64(h.h6) && InInt64(h.h7) && InInt64(h.h8) && InInt64(h.h9)
  }

  /** The doubled square. */
  lemma {:induction false} Square2StaysInside(f: Fe, h: Fe)
    requires Loose(f) && h == RawSquare(f)
    ensures RowsFit(SquareProducts(f), h) && InInt64s(Doubled(h))
    ensures CarriedFit(Doubled(h)) && Narrowed(Carried(Doubled(h)))
  {
    SquareProductsFit(f);
    SquareWide(f);
    WideIsVast(h);
    VastFits(Doubled(h));
    TightCarries(Doubled(h));
  }

  lemma {:induction false} VastFits(h: Fe)
    requires Vast(h)
    ensures InInt64s(h)
  {
  }

  /** A small factor. */
  lemma {:induction false} Mul32StaysInside(f: Fe, n: int)
    requires 0 <= n <= 121666 && Loose(f)
    ensures InInt64s(Scaled(f, n)) && ApartFit(Scaled(f, n)) && Narrowed(Mul32(f, n))
  {
    Mul32Exact(f, n);
    MediumInside(Scaled(f, n));
  }

  lemma {:induction false} MediumInside(h: Fe)
    requires Medium(h)
    ensures InInt64s(h) && ApartFit(h) && Narrowed(CarriedApart(h))
  {
    ApartInside(h);
    ApartFirm(h);
    FirmNarrowed(CarriedApart(h));
  }

  lemma {:induction false} FirmNarrowed(h: Fe)
    requires Firm(h)
    ensures Narrowed(h)
  {
  }

  /** Loading 32 bytes. */
  lemma {:induction false} FromBytesStaysInside(s: seq<int>)
    requires Bytes(s, 32)
    ensures InInt64s(Loaded(s)) && ApartFit(Loaded(s)) && Narrowed(FromBytes(s))
  {
    LoadedMedium(s);
    MediumInside(Loaded(s));
  }

  // ----- the final reduction, in 32 bits

  function Limbs(h: Fe): (s: seq<int>)
    ensures |s| == 10
  {
    [h.h0, h.h1, h.h2, h.h3, h.h4, h.h5, h.h6, h.h7, h.h8, h.h9]
  }

  /** A carry q goes through the limbs: the limb that takes it, what is shifted back, and what is left. */
  predicate ThroughFits(limbs: seq<int>, q: int)
    decreases |limbs|
  {
    limbs == []
    || (var width := if |limbs| % 2 == 0 then 0x400_0000 else 0x200_0000;
        var c := (limbs[0] + q) / width;
        && InInt32(limbs[0] + q) && InInt32(c * width) && InInt32(limbs[0] + q - c * width)
        && ThroughFits(limbs[1..], c))
  }

  lemma {:induction false} ThroughInside(limbs: seq<int>, q: int)
    requires (forall i :: 0 <= i < |limbs| ==> -120000000 <= limbs[i] <= 120000000) && -64 <= q <= 64
    ensures ThroughFits(limbs, q) && -64 <= CarryThrough(limbs, q) <= 64
    decreases |limbs|
  {
    if limbs != [] {
      ThroughInside(limbs[1..], (limbs[0] + q) / if |limbs| % 2 == 0 then 0x400_0000 else 0x200_0000);
    }
  }

  /** The reduction: the first term, the shifts that compute the quotient, its multiple and the carries. */
  predicate CanonicalFits(h: Fe) {
    var q := QuotientOf(h);
    && InInt32(19 * h.h9) && InInt32(19 * h.h9 + 0x100_0000)
    && ThroughFits(Limbs(h), (19 * h.h9 + 0x100_0000) / 0x200_0000)
    && InInt32(19 * q) && ThroughFits(Limbs(h.(h0 := h.h0 + 19 * q)), 0)
  }

  lemma {:induction false} CanonicalStaysInside(h: Fe)
    requires Loose(h)
    ensures CanonicalFits(h)
  {
    ThroughInside(Limbs(h), (19 * h.h9 + 0x100_0000) / 0x200_0000);
    ThroughInside(Limbs(h.(h0 := h.h0 + 19 * QuotientOf(h))), 0);
  }

  // ----- the first term of the quotient, computed as an unsigned long

  /** The first term where unsigned long has the given number of values: a logical shift, stored in 32 bits. */
  function FirstTerm(top: int, range: int): int
    requires range > 0
  {
    Wrap32((19 * top + 0x100_0000) % range / 0x200_0000)
  }

  const LONG64 := 0x1_0000_0000_0000_0000
  const LONG32 := 0x1_0000_0000

  /** With 64 bits the detour through unsigned numbers changes nothing. */
  lemma {:induction false} FirstTermOf64(top: int)
    requires -55364812 <= top <= 55364812
    ensures FirstTerm(top, LONG64) == (19 * top + 0x100_0000) / 0x200_0000
  {
  }

  /** With 32 bits a negative sum comes out 128 too large. */
  lemma {:induction false} FirstTermOf32(top: int)
    requires -55364812 <= top <= 55364812
    ensures FirstTerm(top, LONG32)
         == (19 * top + 0x100_0000) / 0x200_0000 + if 19 * top + 0x100_0000 < 0 then 128 else 0
  {
  }

  /** The quotient and the reduced limbs when the shifts start with t. */
  function QuotientFrom(h: Fe, t: int): int { CarryThrough(Limbs(h), t) }

  function CanonicalFromTerm(h: Fe, t: int): Fe { FloorCarried(h.(h0 := h.h0 + 19 * QuotientFrom(h, t))) }

  lemma {:induction false} QuotientFromExact(h: Fe, t: int, v: int, q: int)
    requires v == Val(h) && q == QuotientFrom(h, t)
    ensures 0 <= v + t - TOP * q < TOP
  {
    TenLimbs(h.h0, h.h1, h.h2, h.h3, h.h4, h.h5, h.h6, h.h7, h.h8, h.h9, t);
    ShiftsExact(h, t);
  }

  lemma {:induction false} ShiftsExact(h: Fe, t: int)
    ensures 0 <= Val(h) + t - TOP * CarryTwo(h.h8, h.h9, CarryTwo(h.h6, h.h7, CarryTwo(h.h4, h.h5,
      CarryTwo(h.h2, h.h3, CarryTwo(h.h0, h.h1, t))))) < TOP
  {
  }

  lemma {:induction false} RangeSplit(v: int, t: int, k: int, q: int, q': int)
    requires 0 <= v + t - TOP * q < TOP && 0 <= v + (t + k) - TOP * q' < TOP && 0 <= k < TOP
    ensures q' == q <==> (v + t) % TOP < TOP - k
    ensures q' == q || q' == q + 1
  {
    DivModUnique(v + t, TOP, q, v + t - TOP * q);
  }

  /** One too many in the quotient gives another number. */
  lemma {:induction false} OneTooMany(h: Fe, q: int, c: Fe, v: int)
    requires 0 <= Val(h) - q * P < P && c == FloorCarried(h.(h0 := h.h0 + 19 * (q + 1))) && v == Val(h) % P
    ensures !ValueIs(c, v)
  {
    var g := h.(h0 := h.h0 + 19 * (q + 1));
    DroppedCarry(g);
    Shifted(h, q + 1);
    DivModUnique(Val(h), P, q, Val(h) - q * P);
    NotThat(Val(c), Val(h), q);
  }

  lemma {:induction false} NotThat(x: int, v: int, q: int)
    requires (x - (v + 19 * (q + 1))) % TOP == 0
    ensures x != v - q * P
  {
    if x == v - q * P {
      assert x - (v + 19 * (q + 1)) == -q * TOP - 19;
      DivModUnique(-q * TOP - 19, TOP, -q - 1, TOP - 19);
    }
  }

  /** The quotient or one more: the first gives the representative, the second does not. */
  lemma {:induction false} OneOrTheOther(h: Fe, q: int, q': int, c: Fe, v: int)
    requires 0 <= Val(h) - q * P < P && (q' == q || q' == q + 1)
    requires c == FloorCarried(h.(h0 := h.h0 + 19 * q')) && v == Val(h) % P
    ensures ValueIs(c, v) <==> q' == q
  {
    if q' == q {
      CanonicalAt(h, q, c, v);
    } else {
      OneTooMany(h, q, c, v);
    }
  }

  lemma {:induction false} LateTerm(h: Fe, t: int, k: int, v: int, q: int, q': int)
    requires t == (19 * h.h9 + 0x100_0000) / 0x200_0000 && 0 <= k < TOP && Loose(h)
    requires v == Val(h) && q == QuotientFrom(h, t) && q' == QuotientFrom(h, t + k)
    ensures 0 <= v - q * P < P && (q' == q || q' == q + 1) && (q' == q <==> (v + t) % TOP < TOP - k)
  {
    QuotientFromExact(h, t, v, q);
    QuotientFromExact(h, t + k, v, q');
    RangeSplit(v, t, k, q, q');
    QuotientExact(h);
  }

  /** Starting k too high is right exactly while it does not change the quotient. */
  lemma {:induction false} LateExactly(h: Fe, t: int, k: int, c: Fe, v: int)
    requires t == (19 * h.h9 + 0x100_0000) / 0x200_0000 && 0 <= k < TOP && Loose(h)
    requires c == CanonicalFromTerm(h, t + k) && v == Val(h)
    ensures ValueIs(c, v % P) <==> (v + t) % TOP < TOP - k
  {
    var q := QuotientFrom(h, t);
    var q' := QuotientFrom(h, t + k);
    LateTerm(h, t, k, v, q, q');
    OneOrTheOther(h, q, q', c, v % P);
  }

  /** Whether the limbs come out right where unsigned long has 32 bits, exactly. */
  lemma {:induction false} ShortLongExactly(h: Fe, t: int, c: Fe, v: int)
    requires Loose(h) && t == (19 * h.h9 + 0x100_0000) / 0x200_0000
    requires c == CanonicalFromTerm(h, FirstTerm(h.h9, LONG32)) && v == Val(h)
    ensures ValueIs(c, v % P) <==> t >= 0 || (v + t) % TOP < TOP - 128
  {
    FirstTermOf32(h.h9);
    ShortLongAt(h, t, FirstTerm(h.h9, LONG32), c, v);
  }

  lemma {:induction false} ShortLongAt(h: Fe, t: int, first: int, c: Fe, v: int)
    requires Loose(h) && t == (19 * h.h9 + 0x100_0000) / 0x200_0000 && first == if t < 0 then t + 128 else t
    requires c == CanonicalFromTerm(h, first) && v == Val(h)
    ensures ValueIs(c, v % P) <==> t >= 0 || (v + t) % TOP < TOP - 128
  {
    LateExactly(h, t, if t < 0 then 128 else 0, c, v);
  }

  /** They do for limbs within 1.1 * 2^25 and 1.1 * 2^24. */
  lemma {:induction false} ShortLongFirm(h: Fe, c: Fe, v: int)
    requires Firm(h) && c == CanonicalFromTerm(h, FirstTerm(h.h9, LONG32)) && v == Val(h)
    ensures ValueIs(c, v % P)
  {
    var t := (19 * h.h9 + 0x100_0000) / 0x200_0000;
    FirmIsLoose(h);
    ShortLongExactly(h, t, c, v);
    if t < 0 {
      FirmRange(h, v, t);
    }
  }

  lemma {:induction false} FirmRange(h: Fe, v: int, t: int)
    requires Firm(h) && v == Val(h) && t == (19 * h.h9 + 0x100_0000) / 0x200_0000 < 0
    ensures (v + t) % TOP < TOP - 128
  {
    DivModUnique(v + t, TOP, -1, v + t + TOP);
  }

  /** They do not for limbs of this value, such as those of MissedLimbs, which the source's bounds admit. */
  lemma {:induction false} ShortLongMissed(h: Fe, c: Fe, v: int)
    requires Loose(h) && h.h9 == -0x200_0000 && v == Val(h) == -TOP - 60
    requires c == CanonicalFromTerm(h, FirstTerm(h.h9, LONG32))
    ensures !ValueIs(c, v % P)
  {
    MissedRange(v);
    ShortLongExactly(h, -19, c, v);
  }

  lemma {:induction false} MissedLimbs(h: Fe)
    requires h == Fe(-60, 0, 0, 0, 0, 0, 0, 0, 0, -0x200_0000)
    ensures Loose(h) && Val(h) == -TOP - 60
  {
  }

  lemma {:induction false} MissedRange(v: int)
    requires v == -TOP - 60
    ensures (v - 19) % TOP >= TOP - 128
  {
    DivModUnique(v - 19, TOP, -2, TOP - 79);
  }
}
