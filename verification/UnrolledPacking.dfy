/**
  The unrolled lines of the source that pack values into bytes and take them out again. A line gathers pieces
  of neighbouring elements, each shifted into place, by or; for every width in use the lines are written down
  as the source has them, and shown to regroup the bits as the packing with a width parameter does.
 */
module UnrolledPacking {
  import opened ModArith
  import opened PolyRing
  import opened BitXor
  import opened BitPacking
  import opened PolyPacking
  import opened LimbBytes

  /** Element i, shifted to the left or to the right. */
  datatype Piece = Left(i: nat, t: nat) | Right(i: nat, t: nat)

  /** The pieces of one element written, cut to its width by a cast or a mask, or left whole. */
  datatype Line = Cut(pieces: seq<Piece>) | Whole(pieces: seq<Piece>)

  /** 3 bits: secrets of at most 2. */
  const PACK3: seq<Line> := [
    Cut([Right(0, 0), Left(1, 3), Left(2, 6)]), Cut([Right(2, 2), Left(3, 1), Left(4, 4), Left(5, 7)]),
    Cut([Right(5, 1), Left(6, 2), Left(7, 5)])
  ]

  /** 4 bits: secrets of at most 4, and the high bits of two modes. */
  const PACK4: seq<Line> := [
    Cut([Right(0, 0), Left(1, 4)])
  ]

  /** 5 bits: the compressed message polynomial of the larger levels. */
  const PACK5: seq<Line> := [
    Cut([Right(0, 0), Left(1, 5)]), Cut([Right(1, 3), Left(2, 2), Left(3, 7)]), Cut([Right(3, 1), Left(4, 4)]),
    Cut([Right(4, 4), Left(5, 1), Left(6, 6)]), Cut([Right(6, 2), Left(7, 3)])
  ]

  /** 6 bits: high bits. */
  const PACK6: seq<Line> := [
    Cut([Right(0, 0), Left(1, 6)]), Cut([Right(1, 2), Left(2, 4)]), Cut([Right(2, 4), Left(3, 2)])
  ]

  /** 10 bits: the public polynomials, and compressed vectors of the smaller levels. */
  const PACK10: seq<Line> := [
    Cut([Right(0, 0)]), Cut([Right(0, 8), Left(1, 2)]), Cut([Right(1, 6), Left(2, 4)]),
    Cut([Right(2, 4), Left(3, 6)]), Cut([Right(3, 2)])
  ]

  /** 11 bits: compressed vectors of the larger levels. */
  const PACK11: seq<Line> := [
    Cut([Right(0, 0)]), Cut([Right(0, 8), Left(1, 3)]), Cut([Right(1, 5), Left(2, 6)]), Cut([Right(2, 2)]),
    Cut([Right(2, 10), Left(3, 1)]), Cut([Right(3, 7), Left(4, 4)]), Cut([Right(4, 4), Left(5, 7)]),
    Cut([Right(5, 1)]), Cut([Right(5, 9), Left(6, 2)]), Cut([Right(6, 6), Left(7, 5)]), Cut([Right(7, 3)])
  ]

  /** 12 bits: whole coefficients. */
  const PACK12: seq<Line> := [
    Cut([Right(0, 0)]), Cut([Right(0, 8), Left(1, 4)]), Cut([Right(1, 4)])
  ]

  /** 13 bits: the dropped low parts. */
  const PACK13: seq<Line> := [
    Cut([Right(0, 0)]), Cut([Right(0, 8), Left(1, 5)]), Cut([Right(1, 3)]), Cut([Right(1, 11), Left(2, 2)]),
    Cut([Right(2, 6), Left(3, 7)]), Cut([Right(3, 1)]), Cut([Right(3, 9), Left(4, 4)]), Cut([Right(4, 4)]),
    Cut([Right(4, 12), Left(5, 1)]), Cut([Right(5, 7), Left(6, 6)]), Cut([Right(6, 2)]),
    Cut([Right(6, 10), Left(7, 3)]), Cut([Right(7, 5)])
  ]

  /** 18 bits: responses. */
  const PACK18: seq<Line> := [
    Cut([Right(0, 0)]), Cut([Right(0, 8)]), Cut([Right(0, 16), Left(1, 2)]), Cut([Right(1, 6)]),
    Cut([Right(1, 14), Left(2, 4)]), Cut([Right(2, 4)]), Cut([Right(2, 12), Left(3, 6)]), Cut([Right(3, 2)]),
    Cut([Right(3, 10)])
  ]

  /** 20 bits: responses of the larger modes. */
  const PACK20: seq<Line> := [
    Cut([Right(0, 0)]), Cut([Right(0, 8)]), Cut([Right(0, 16), Left(1, 4)]), Cut([Right(1, 4)]), Cut([Right(1, 12)])
  ]

  /** 4 bits, eight values at a time: the compressed message polynomial of the smaller levels. */
  const PACK4BY8: seq<Line> := [
    Cut([Right(0, 0), Left(1, 4)]), Cut([Right(2, 0), Left(3, 4)]), Cut([Right(4, 0), Left(5, 4)]),
    Cut([Right(6, 0), Left(7, 4)])
  ]

  /** Back to values of 3 bits. */
  const UNPACK3: seq<Line> := [
    Cut([Right(0, 0)]), Cut([Right(0, 3)]), Cut([Right(0, 6), Left(1, 2)]), Cut([Right(1, 1)]), Cut([Right(1, 4)]),
    Cut([Right(1, 7), Left(2, 1)]), Cut([Right(2, 2)]), Cut([Right(2, 5)])
  ]

  /** Back to values of 4 bits. */
  const UNPACK4: seq<Line> := [
    Cut([Right(0, 0)]), Whole([Right(0, 4)])
  ]

  /** Back to values of 5 bits. */
  const UNPACK5: seq<Line> := [
    Cut([Right(0, 0)]), Cut([Right(0, 5), Left(1, 3)]), Cut([Right(1, 2)]), Cut([Right(1, 7), Left(2, 1)]),
    Cut([Right(2, 4), Left(3, 4)]), Cut([Right(3, 1)]), Cut([Right(3, 6), Left(4, 2)]), Cut([Right(4, 3)])
  ]

  /** Back to values of 10 bits. */
  const UNPACK10: seq<Line> := [
    Cut([Right(0, 0), Left(1, 8)]), Cut([Right(1, 2), Left(2, 6)]), Cut([Right(2, 4), Left(3, 4)]),
    Cut([Right(3, 6), Left(4, 2)])
  ]

  /** Back to values of 11 bits. */
  const UNPACK11: seq<Line> := [
    Cut([Right(0, 0), Left(1, 8)]), Cut([Right(1, 3), Left(2, 5)]), Cut([Right(2, 6), Left(3, 2), Left(4, 10)]),
    Cut([Right(4, 1), Left(5, 7)]), Cut([Right(5, 4), Left(6, 4)]), Cut([Right(6, 7), Left(7, 1), Left(8, 9)]),
    Cut([Right(8, 2), Left(9, 6)]), Cut([Right(9, 5), Left(10, 3)])
  ]

  /** Back to values of 12 bits. */
  const UNPACK12: seq<Line> := [
    Cut([Right(0, 0), Left(1, 8)]), Cut([Right(1, 4), Left(2, 4)])
  ]

  /** Back to values of 13 bits. */
  const UNPACK13: seq<Line> := [
    Cut([Right(0, 0), Left(1, 8)]), Cut([Right(1, 5), Left(2, 3), Left(3, 11)]), Cut([Right(3, 2), Left(4, 6)]),
    Cut([Right(4, 7), Left(5, 1), Left(6, 9)]), Cut([Right(6, 4), Left(7, 4), Left(8, 12)]),
    Cut([Right(8, 1), Left(9, 7)]), Cut([Right(9, 6), Left(10, 2), Left(11, 10)]), Cut([Right(11, 3), Left(12, 5)])
  ]

  /** Back to values of 18 bits. */
  const UNPACK18: seq<Line> := [
    Cut([Right(0, 0), Left(1, 8), Left(2, 16)]), Cut([Right(2, 2), Left(3, 6), Left(4, 14)]),
    Cut([Right(4, 4), Left(5, 4), Left(6, 12)]), Cut([Right(6, 6), Left(7, 2), Left(8, 10)])
  ]

  /** Back to values of 20 bits. */
  const UNPACK20: seq<Line> := [
    Cut([Right(0, 0), Left(1, 8), Left(2, 16)]), Whole([Right(2, 4), Left(3, 4), Left(4, 12)])
  ]


  // ----- what a line computes

  function Dropped(x: nat, t: nat): nat {
    if t == 0 then x else Dropped(x / 2, t - 1)
  }

  function Moved(x: nat, p: Piece): nat {
    if p.Left? then BitXor.Shifted(x, p.t) else Dropped(x, p.t)
  }

  predicate InRange(v: seq<int>, pieces: seq<Piece>) {
    && (forall i :: 0 <= i < |v| ==> v[i] >= 0)
    && forall j :: 0 <= j < |pieces| ==> pieces[j].i < |v|
  }

  /** The pieces from piece j on, joined by or. */
  function Gathered(v: seq<int>, pieces: seq<Piece>, j: nat): nat
    requires InRange(v, pieces)
    decreases |pieces| - j
  {
    if j >= |pieces| then 0 else Or(Moved(v[pieces[j].i], pieces[j]), Gathered(v, pieces, j + 1))
  }

  /** The element of d bits that a line writes. */
  function Written(d: nat, v: seq<int>, line: Line): nat
    requires InRange(v, line.pieces)
  {
    var x := Gathered(v, line.pieces, 0);
    if line.Cut? then x % Pow2(d) else x
  }

  predicate AllInRange(v: seq<int>, lines: seq<Line>) {
    forall k :: 0 <= k < |lines| ==> InRange(v, lines[k].pieces)
  }

  function Unrolled(d: nat, v: seq<int>, lines: seq<Line>): (w: seq<int>)
    requires AllInRange(v, lines)
    ensures |w| == |lines|
  {
    seq(|lines|, k requires 0 <= k < |lines| => Written(d, v, lines[k]))
  }

  // ----- the bits of a line

  lemma {:induction false} OrBit(a: nat, b: nat, i: nat)
    ensures Bit(Or(a, b), i) == if Bit(a, i) == 1 || Bit(b, i) == 1 then 1 else 0
    decreases i
  {
    OrHalf(a, b);
    if i > 0 {
      OrBit(a / 2, b / 2, i - 1);
    }
  }

  lemma {:induction false} OrHalf(a: nat, b: nat)
    ensures Or(a, b) / 2 == Or(a / 2, b / 2) && Or(a, b) % 2 == if a % 2 == 1 || b % 2 == 1 then 1 else 0
  {
  }

  lemma {:induction false} ShiftedBit(x: nat, t: nat, b: nat)
    ensures Bit(BitXor.Shifted(x, t), b) == if b < t then 0 else Bit(x, b - t)
    decreases t
  {
    if t > 0 && b > 0 {
      ShiftedBit(x, t - 1, b - 1);
    }
  }

  lemma {:induction false} DroppedBit(x: nat, t: nat, b: nat)
    ensures Bit(Dropped(x, t), b) == Bit(x, b + t)
    decreases t
  {
    if t > 0 {
      DroppedBit(x / 2, t - 1, b);
    }
  }

  lemma {:induction false} BeyondWidth(x: nat, e: nat, c: nat)
    requires x < Pow2(e) && e <= c
    ensures Bit(x, c) == 0
    decreases e
  {
    if e == 0 {
      BitOfZero(c);
    } else {
      BeyondWidth(x / 2, e - 1, c - 1);
    }
  }

  lemma {:induction false} LowBit(x: nat, d: nat, b: nat)
    requires b < d
    ensures Bit(x % Pow2(d), b) == Bit(x, b)
    decreases d
  {
    var h, r := x / 2, x % 2;
    HalfOfRemainder(x, Pow2(d - 1));
    if b > 0 {
      LowBit(h, d - 1, b - 1);
    }
  }

  lemma {:induction false} HalfOfRemainder(x: nat, p: nat)
    requires p > 0
    ensures x % (2 * p) / 2 == x / 2 % p && x % (2 * p) % 2 == x % 2
  {
    var h := x / 2;
    DivModUnique(x, 2 * p, h / p, 2 * (h % p) + x % 2);
  }

  // ----- lines that regroup elements of e bits into elements of d bits

  /** Piece p takes an element that starts at bit `from` to one that starts at bit `to`. */
  predicate Placed(from: nat, to: nat, p: Piece) {
    if p.Left? then from == to + p.t else to == from + p.t
  }

  /**
    From piece j on, the pieces are those of the elements from i on that meet the d bits from bit `to` on, in order
    and in place; element i starts at bit `from`.
   */
  predicate PiecesRight(e: nat, d: nat, i: nat, from: nat, to: nat, pieces: seq<Piece>, j: nat)
    decreases |pieces| - j
  {
    && j < |pieces| && pieces[j].i == i && Placed(from, to, pieces[j]) && to < from + e && from < to + d
    && if from + e < to + d then PiecesRight(e, d, i + 1, from + e, to, pieces, j + 1) else j + 1 == |pieces|
  }

  /** Without a cut, every piece must end inside the d bits. */
  predicate PiecesInside(e: nat, d: nat, from: nat, to: nat, pieces: seq<Piece>, j: nat)
    decreases |pieces| - j
  {
    j >= |pieces| || (from + e <= to + d && PiecesInside(e, d, from + e, to, pieces, j + 1))
  }

  predicate LineRight(e: nat, d: nat, k: nat, line: Line) {
    && line.pieces != []
    && var i := line.pieces[0].i;
    && e * i <= d * k && PiecesRight(e, d, i, e * i, d * k, line.pieces, 0)
    && (line.Cut? || PiecesInside(e, d, e * i, d * k, line.pieces, 0))
  }

  predicate LinesFrom(e: nat, d: nat, lines: seq<Line>, k: nat)
    decreases |lines| - k
  {
    k >= |lines| || (LineRight(e, d, k, lines[k]) && LinesFrom(e, d, lines, k + 1))
  }

  /** The lines for a group of n elements. */
  predicate LinesRight(e: nat, d: nat, n: nat, lines: seq<Line>) {
    e > 0 && d > 0 && n > 0 && e * n == d * |lines| && LinesFrom(e, d, lines, 0)
  }

  lemma {:induction false} LineAt(e: nat, d: nat, lines: seq<Line>, k: nat, l: nat)
    requires LinesFrom(e, d, lines, k) && k <= l < |lines|
    ensures LineRight(e, d, l, lines[l])
    decreases l - k
  {
    if k < l {
      LineAt(e, d, lines, k + 1, l);
    }
  }

  lemma {:induction false} MovedBit(e: nat, from: nat, to: nat, x: nat, p: Piece, b: nat)
    requires Placed(from, to, p) && x < Pow2(e)
    ensures Bit(Moved(x, p), b) == if from <= to + b < from + e then Bit(x, to + b - from) else 0
  {
    if p.Left? {
      ShiftedBit(x, p.t, b);
    } else {
      DroppedBit(x, p.t, b);
    }
    if from + e <= to + b {
      BeyondWidth(x, e, to + b - from);
    }
  }

  /** Bit b of a line comes from bit c of the one element i that holds it, unless that element comes earlier. */
  lemma {:induction false} GatheredBit(e: nat, d: nat, first: nat, from: nat, to: nat, v: seq<int>,
      pieces: seq<Piece>, j: nat, b: nat, i: nat, c: nat)
    requires Below(v, Pow2(e)) && InRange(v, pieces) && PiecesRight(e, d, first, from, to, pieces, j)
    requires i < |v| && c < e && b < d && from == e * first && to + b == e * i + c
    ensures Bit(Gathered(v, pieces, j), b) == if first <= i then Bit(v[i], c) else 0
    decreases |pieces| - j
  {
    var p := pieces[j];
    MovedBit(e, from, to, v[p.i], p, b);
    OrBit(Moved(v[p.i], p), Gathered(v, pieces, j + 1), b);
    OneElement(e, first, i, c);
    if from + e < to + d {
      assert from + e == e * (first + 1);
      GatheredBit(e, d, first + 1, from + e, to, v, pieces, j + 1, b, i, c);
    } else {
      BitOfZero(b);
    }
  }

  lemma {:induction false} OneElement(e: nat, first: nat, i: nat, c: nat)
    requires c < e
    ensures e * first <= e * i + c < e * first + e <==> i == first
    ensures i > first ==> e * i + c >= e * first + e
  {
    if i < first {
      MulMono(i + 1, first, e);
    } else if i > first {
      MulMono(first + 1, i, e);
    }
  }

  lemma {:induction false} GatheredSmall(e: nat, d: nat, first: nat, from: nat, to: nat, v: seq<int>,
      pieces: seq<Piece>, j: nat)
    requires Below(v, Pow2(e)) && InRange(v, pieces) && PiecesRight(e, d, first, from, to, pieces, j)
    requires PiecesInside(e, d, from, to, pieces, j)
    ensures Gathered(v, pieces, j) < Pow2(d)
    decreases |pieces| - j
  {
    var p := pieces[j];
    MovedSmall(e, d, v[p.i], p);
    if from + e < to + d {
      GatheredSmall(e, d, first + 1, from + e, to, v, pieces, j + 1);
    }
    OrBelow(Moved(v[p.i], p), Gathered(v, pieces, j + 1), d);
  }

  lemma {:induction false} MovedSmall(e: nat, d: nat, x: nat, p: Piece)
    requires x < Pow2(e) && if p.Left? then e + p.t <= d else e - p.t <= d
    ensures Moved(x, p) < Pow2(d)
    decreases p.t
  {
    if p.t == 0 {
      PowMono(e, d);
    } else if p.Left? {
      MovedSmall(e, d - 1, x, Left(p.i, p.t - 1));
    } else if e > 0 {
      MovedSmall(e - 1, d, x / 2, Right(p.i, p.t - 1));
    } else {
      DroppedZero(p.t);
    }
  }

  lemma {:induction false} DroppedZero(t: nat)
    ensures Dropped(0, t) == 0
  {
    if t > 0 {
      DroppedZero(t - 1);
    }
  }

  lemma {:induction false} OrBelow(a: nat, b: nat, d: nat)
    requires a < Pow2(d) && b < Pow2(d)
    ensures Or(a, b) < Pow2(d)
    decreases d
  {
    if d > 0 {
      OrBelow(a / 2, b / 2, d - 1);
      OrHalf(a, b);
    }
  }

  /** Bit b of what a line writes is bit d k + b of the stream. */
  lemma {:induction false} WrittenBit(e: nat, d: nat, k: nat, v: seq<int>, line: Line, b: nat)
    requires e > 0 && d > 0 && Below(v, Pow2(e)) && InRange(v, line.pieces) && LineRight(e, d, k, line)
    requires b < d && d * k + b < e * |v|
    ensures Bit(Written(d, v, line), b) == Stream(e, v)[d * k + b]
  {
    var p := d * k + b;
    var i, c, first := p / e, p % e, line.pieces[0].i;
    QuotientBelow(p, e, |v|);
    WrittenFrom(e, d, first, e * first, d * k, v, line, b, i, c);
    StreamBit(e, v, i, c, p);
  }

  lemma {:induction false} StreamBit(e: nat, v: seq<int>, i: nat, c: nat, p: nat)
    requires Below(v, Pow2(e)) && c < e && i < |v| && p == e * i + c
    ensures p < |Stream(e, v)| && Stream(e, v)[p] == Bit(v[i], c)
  {
    StreamAt(e, v, i, c);
    PlaceIs(e, i, c);
  }

  lemma {:induction false} WrittenFrom(e: nat, d: nat, first: nat, from: nat, to: nat, v: seq<int>, line: Line, b: nat,
      i: nat, c: nat)
    requires Below(v, Pow2(e)) && InRange(v, line.pieces) && PiecesRight(e, d, first, from, to, line.pieces, 0)
    requires i < |v| && c < e && b < d && from == e * first <= to && to + b == e * i + c
    ensures Bit(Written(d, v, line), b) == Bit(v[i], c)
  {
    Between(e, first, i, c, to + b);
    GatheredBit(e, d, first, from, to, v, line.pieces, 0, b, i, c);
    LowBit(Gathered(v, line.pieces, 0), d, b);
  }

  lemma {:induction false} QuotientBelow(x: nat, e: nat, n: nat)
    requires e > 0 && x < e * n
    ensures x / e < n && x == e * (x / e) + x % e
  {
    if x / e >= n {
      MulMono(n, x / e, e);
    }
  }

  lemma {:induction false} Between(e: nat, i: nat, j: nat, c: nat, x: nat)
    requires c < e && e * i <= x && x == e * j + c
    ensures i <= j
  {
    if i > j {
      MulMono(j + 1, i, e);
    }
  }

  lemma {:induction false} WrittenSmall(e: nat, d: nat, k: nat, v: seq<int>, line: Line)
    requires e > 0 && d > 0 && Below(v, Pow2(e)) && InRange(v, line.pieces) && LineRight(e, d, k, line)
    ensures Written(d, v, line) < Pow2(d)
  {
    if line.Whole? {
      var i := line.pieces[0].i;
      GatheredSmall(e, d, i, e * i, d * k, v, line.pieces, 0);
    }
  }

  /** A group of lines regroups the bits of its elements. */
  lemma {:induction false} UnrolledIs(e: nat, d: nat, v: seq<int>, lines: seq<Line>)
    requires LinesRight(e, d, |v|, lines) && Below(v, Pow2(e)) && AllInRange(v, lines)
    ensures Unrolled(d, v, lines) == Regroup(d, Stream(e, v))
  {
    var w := Regroup(d, Stream(e, v));
    StreamRegroup(d, |lines|, Stream(e, v));
    forall k | 0 <= k < |lines| ensures Unrolled(d, v, lines)[k] == w[k] {
      LineAt(e, d, lines, 0, k);
      forall b | 0 <= b < d ensures Bit(Written(d, v, lines[k]), b) == Bit(w[k], b) {
        StreamAt(d, w, k, b);
        PlaceIs(d, k, b);
        WrittenBit(e, d, k, v, lines[k], b);
      }
      WrittenSmall(e, d, k, v, lines[k]);
      SameBits(Written(d, v, lines[k]), w[k], d);
    }
  }

  // ----- the lines of the source do so

  lemma {:induction false} PackLines3()
    ensures LinesRight(3, 8, 8, PACK3)
  {
  }

  lemma {:induction false} UnpackLines3()
    ensures LinesRight(8, 3, 3, UNPACK3)
  {
  }

  lemma {:induction false} PackLines4()
    ensures LinesRight(4, 8, 2, PACK4)
  {
  }

  lemma {:induction false} PackLines4By8()
    ensures LinesRight(4, 8, 8, PACK4BY8)
  {
  }

  lemma {:induction false} UnpackLines4()
    ensures LinesRight(8, 4, 1, UNPACK4)
  {
  }

  lemma {:induction false} PackLines5()
    ensures LinesRight(5, 8, 8, PACK5)
  {
  }

  lemma {:induction false} UnpackLines5()
    ensures LinesRight(8, 5, 5, UNPACK5)
  {
  }

  lemma {:induction false} PackLines6()
    ensures LinesRight(6, 8, 4, PACK6)
  {
  }

  lemma {:induction false} PackLines10()
    ensures LinesRight(10, 8, 4, PACK10)
  {
  }

  lemma {:induction false} UnpackLines10()
    ensures LinesRight(8, 10, 5, UNPACK10)
  {
  }

  lemma {:induction false} PackLines11()
    ensures LinesRight(11, 8, 8, PACK11)
  {
  }

  lemma {:induction false} UnpackLines11()
    ensures LinesRight(8, 11, 11, UNPACK11)
  {
  }

  lemma {:induction false} PackLines12()
    ensures LinesRight(12, 8, 2, PACK12)
  {
  }

  lemma {:induction false} UnpackLines12()
    ensures LinesRight(8, 12, 3, UNPACK12)
  {
  }

  lemma {:induction false} PackLines13()
    ensures LinesRight(13, 8, 8, PACK13)
  {
  }

  lemma {:induction false} UnpackLines13()
    ensures LinesRight(8, 13, 13, UNPACK13)
  {
  }

  lemma {:induction false} PackLines18()
    ensures LinesRight(18, 8, 4, PACK18)
  {
  }

  lemma {:induction false} UnpackLines18()
    ensures LinesRight(8, 18, 9, UNPACK18)
  {
  }

  lemma {:induction false} PackLines20()
    ensures LinesRight(20, 8, 2, PACK20)
  {
  }

  lemma {:induction false} UnpackLines20()
    ensures LinesRight(8, 20, 5, UNPACK20)
  {
  }

  // ----- the loops over groups

  lemma {:induction false} PiecesInRange(e: nat, d: nat, i: nat, from: nat, to: nat, pieces: seq<Piece>, j: nat,
      l: nat, n: nat)
    requires PiecesRight(e, d, i, from, to, pieces, j) && j <= l < |pieces| && from == e * i && to + d <= e * n
    ensures pieces[l].i < n
    decreases |pieces| - j
  {
    if j < l {
      assert from + e == e * (i + 1);
      PiecesInRange(e, d, i + 1, from + e, to, pieces, j + 1, l, n);
    } else if i >= n {
      MulMono(n, i, e);
    }
  }

  lemma {:induction false} LineInRange(e: nat, d: nat, n: nat, k: nat, count: nat, line: Line, l: nat)
    requires LineRight(e, d, k, line) && k < count && e * n == d * count && l < |line.pieces|
    ensures line.pieces[l].i < n
  {
    var i := line.pieces[0].i;
    MulMono(k + 1, count, d);
    PiecesInRange(e, d, i, e * i, d * k, line.pieces, 0, l, n);
  }

  lemma {:induction false} GroupInRange(e: nat, d: nat, n: nat, v: seq<int>, lines: seq<Line>)
    requires LinesRight(e, d, n, lines) && Below(v, Pow2(e)) && |v| == n
    ensures AllInRange(v, lines)
  {
    forall k | 0 <= k < |lines| ensures InRange(v, lines[k].pieces) {
      LineAt(e, d, lines, 0, k);
      forall l | 0 <= l < |lines[k].pieces| ensures lines[k].pieces[l].i < n {
        LineInRange(e, d, n, k, |lines|, lines[k], l);
      }
    }
  }

  lemma {:induction false} StreamJoin(e: nat, a: seq<int>, b: seq<int>)
    requires (forall i :: 0 <= i < |a| ==> a[i] >= 0) && forall i :: 0 <= i < |b| ==> b[i] >= 0
    ensures Stream(e, a + b) == Stream(e, a) + Stream(e, b)
  {
    if a == [] {
      assert a + b == b;
    } else {
      assert (a + b)[1..] == a[1..] + b;
      StreamJoin(e, a[1..], b);
    }
  }

  lemma {:induction false} RegroupJoin(d: nat, m: nat, s: seq<int>, t: seq<int>)
    requires d > 0 && Below(s, 2) && Below(t, 2) && |s| == d * m
    ensures Regroup(d, s + t) == Regroup(d, s) + Regroup(d, t)
    decreases m
  {
    if m == 0 {
      assert s + t == t;
    } else {
      assert d * m == d * (m - 1) + d;
      assert (s + t)[..d] == s[..d] && (s + t)[d..] == s[d..] + t;
      RegroupJoin(d, m - 1, s[d..], t);
    }
  }

  lemma {:induction false} Grouped(e: nat, n: nat, d: nat, m: nat, i: nat)
    requires e * n == d * m
    ensures e * (n * i) == d * (m * i)
  {
    assert e * (n * i) == (e * n) * i == (d * m) * i == d * (m * i);
  }

  /** One more group. */
  lemma {:induction false} NextGroup(e: nat, d: nat, n: nat, a: seq<int>, g: seq<int>, i: nat, lines: seq<Line>)
    requires LinesRight(e, d, n, lines) && Below(a, Pow2(e)) && Below(g, Pow2(e)) && |a| == n * i && |g| == n
    ensures AllInRange(g, lines)
    ensures Regroup(d, Stream(e, a + g)) == Regroup(d, Stream(e, a)) + Unrolled(d, g, lines)
  {
    GroupInRange(e, d, n, g, lines);
    UnrolledIs(e, d, g, lines);
    Grouped(e, n, d, |lines|, i);
    GroupsJoined(e, d, a, g, |lines| * i);
  }

  lemma {:induction false} GroupsJoined(e: nat, d: nat, a: seq<int>, g: seq<int>, m: nat)
    requires d > 0 && Below(a, Pow2(e)) && Below(g, Pow2(e)) && e * |a| == d * m
    ensures Regroup(d, Stream(e, a + g)) == Regroup(d, Stream(e, a)) + Regroup(d, Stream(e, g))
  {
    StreamJoin(e, a, g);
    RegroupJoin(d, m, Stream(e, a), Stream(e, g));
  }

  /** The groups before group i are done. */
  ghost predicate GroupsDone(e: nat, d: nat, v: seq<int>, at: nat, w: seq<int>) {
    d > 0 && at <= |v| && Below(v[..at], Pow2(e)) && w == Regroup(d, Stream(e, v[..at]))
  }

  lemma {:induction false} GroupDone(e: nat, d: nat, n: nat, lines: seq<Line>, v: seq<int>, at: nat, i: nat,
      w: seq<int>)
    requires LinesRight(e, d, n, lines) && Below(v, Pow2(e)) && at == n * i && at + n <= |v|
      && GroupsDone(e, d, v, at, w)
    ensures AllInRange(v[at..at + n], lines) && GroupsDone(e, d, v, at + n, w + Unrolled(d, v[at..at + n], lines))
  {
    NextGroup(e, d, n, v[..at], v[at..at + n], i, lines);
    assert v[..at] + v[at..at + n] == v[..at + n];
  }

  /** The loop of the source: the same lines for one group of n elements after the other. */
  method RunGroups(e: nat, d: nat, n: nat, lines: seq<Line>, v: seq<int>) returns (w: seq<int>)
    requires LinesRight(e, d, n, lines) && Below(v, Pow2(e)) && |v| % n == 0
    ensures w == Regroup(d, Stream(e, v))
  {
    w := [];
    var at := 0;
    for i := 0 to |v| / n
      invariant at == n * i && GroupsDone(e, d, v, at, w)
    {
      GroupFits(n, i, |v|);
      GroupDone(e, d, n, lines, v, at, i, w);
      w := w + Unrolled(d, v[at..at + n], lines);
      at := at + n;
    }
    GroupFits(n, |v| / n, |v|);
    assert v[..at] == v;
  }

  lemma {:induction false} GroupFits(n: nat, i: nat, length: nat)
    requires n > 0 && length % n == 0 && i <= length / n
    ensures n * i <= length && n * (i + 1) == n * i + n && (i < length / n ==> n * i + n <= length)
      && (i == length / n ==> n * i == length)
  {
    MulMono(i, length / n, n);
    if i < length / n {
      MulMono(i + 1, length / n, n);
    }
  }

  // ----- polynomials and vectors

  /** How the source groups the elements of a polynomial: n elements, and the lines for them. */
  datatype Groups = Groups(n: nat, lines: seq<Line>)

  predicate Pack8(d: nat, g: Groups) { LinesRight(d, 8, g.n, g.lines) && LENGTH % g.n == 0 }

  predicate Unpack8(d: nat, g: Groups) { LinesRight(8, d, g.n, g.lines) && 32 * d % g.n == 0 }

  method WritePoly(l: Layout, g: Groups, a: Poly) returns (b: seq<int>)
    requires Fits(l, a) && Pack8(l.d, g)
    ensures b == PackPoly(l, a)
  {
    b := RunGroups(l.d, 8, g.n, g.lines, Coded(l, a));
  }

  method ReadPoly(l: Layout, g: Groups, b: seq<int>) returns (a: Poly)
    requires l.d > 0 && Bytes(b, 32 * l.d) && Unpack8(l.d, g)
    ensures a == UnpackPoly(l, b)
  {
    assert Pow2(8) == 256;
    var v := RunGroups(8, l.d, g.n, g.lines, b);
    a := Coded(l, v);
  }

  /** What is written, and what is left to write. */
  ghost predicate WrittenUpTo(l: Layout, b: seq<int>, rest: seq<Poly>, all: seq<int>) {
    AllFit(l, rest) && b + PackVec(l, rest) == all
  }

  lemma {:induction false} WrittenNext(l: Layout, b: seq<int>, rest: seq<Poly>, all: seq<int>, p: seq<int>)
    requires WrittenUpTo(l, b, rest, all) && rest != [] && p == PackPoly(l, rest[0])
    ensures WrittenUpTo(l, b + p, rest[1..], all)
  {
    JoinThree(b, p, PackVec(l, rest[1..]));
  }

  lemma {:induction false} JoinThree(a: seq<int>, b: seq<int>, c: seq<int>)
    ensures a + (b + c) == a + b + c
  {
  }

  method WriteVec(l: Layout, g: Groups, v: seq<Poly>) returns (b: seq<int>)
    requires AllFit(l, v) && Pack8(l.d, g)
    ensures b == PackVec(l, v)
  {
    b := [];
    ghost var all := PackVec(l, v);
    assert v[0..] == v;
    for i := 0 to |v|
      invariant WrittenUpTo(l, b, v[i..], all)
    {
      var p := WritePoly(l, g, v[i]);
      WrittenNext(l, b, v[i..], all, p);
      assert v[i..][1..] == v[i + 1..];
      b := b + p;
    }
  }

  /** What is read, and the bytes of the m polynomials that are left. */
  ghost predicate ReadUpTo(l: Layout, m: nat, v: seq<Poly>, rest: seq<int>, all: seq<Poly>) {
    l.d > 0 && Bytes(rest, VecSize(l, m)) && v + UnpackVec(l, m, rest) == all
  }

  lemma {:induction false} ReadNext(l: Layout, m: nat, v: seq<Poly>, rest: seq<int>, all: seq<Poly>)
    requires m > 0 && ReadUpTo(l, m, v, rest, all)
    ensures 32 * l.d <= |rest| && Bytes(rest[..32 * l.d], 32 * l.d)
    ensures ReadUpTo(l, m - 1, v + [UnpackPoly(l, rest[..32 * l.d])], rest[32 * l.d..], all)
  {
    AppendFirst(v, UnpackPoly(l, rest[..32 * l.d]), UnpackVec(l, m - 1, rest[32 * l.d..]));
  }

  lemma {:induction false} AppendFirst(v: seq<Poly>, a: Poly, w: seq<Poly>)
    ensures v + ([a] + w) == v + [a] + w
  {
  }

  method ReadVec(l: Layout, g: Groups, n: nat, b: seq<int>) returns (v: seq<Poly>)
    requires l.d > 0 && Bytes(b, VecSize(l, n)) && Unpack8(l.d, g)
    ensures v == UnpackVec(l, n, b)
  {
    v := [];
    var rest := b;
    ghost var all := UnpackVec(l, n, b);
    for i := 0 to n
      invariant ReadUpTo(l, n - i, v, rest, all)
    {
      ReadNext(l, n - i, v, rest, all);
      var a := ReadPoly(l, g, rest[..32 * l.d]);
      v := v + [a];
      rest := rest[32 * l.d..];
    }
  }
}
