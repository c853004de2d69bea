/**
 Sums over rectangles of a grid, directly and by an integral image.
 */
module BoxSums {
  import opened Ranking

  /** The columns lo up to hi of row r. */
  ghost function RowSum(f: (int, int) -> real, r: int, lo: int, hi: int): real
    decreases hi - lo
  {
    if hi <= lo then 0.0 else RowSum(f, r, lo, hi - 1) + f(r, hi - 1)
  }

  /** The rows top up to bottom, columns lo up to hi. */
  ghost function BoxSum(f: (int, int) -> real, top: int, bottom: int, lo: int, hi: int): real
    decreases bottom - top
  {
    if bottom <= top then 0.0 else BoxSum(f, top, bottom - 1, lo, hi) + RowSum(f, bottom - 1, lo, hi)
  }

  lemma {:induction false} RowSplits(f: (int, int) -> real, r: int, lo: int, mid: int, hi: int)
    requires lo <= mid <= hi
    ensures RowSum(f, r, lo, hi) == RowSum(f, r, lo, mid) + RowSum(f, r, mid, hi)
    decreases hi - mid
  {
    if mid < hi {
      RowSplits(f, r, lo, mid, hi - 1);
    }
  }

  lemma {:induction false} BoxSplitsColumns(f: (int, int) -> real, top: int, bottom: int, lo: int, mid: int, hi: int)
    requires lo <= mid <= hi
    ensures BoxSum(f, top, bottom, lo, hi) == BoxSum(f, top, bottom, lo, mid) + BoxSum(f, top, bottom, mid, hi)
    decreases bottom - top
  {
    if top < bottom {
      BoxSplitsColumns(f, top, bottom - 1, lo, mid, hi);
      RowSplits(f, bottom - 1, lo, mid, hi);
    }
  }

  lemma {:induction false} BoxSplitsRows(f: (int, int) -> real, top: int, mid: int, bottom: int, lo: int, hi: int)
    requires top <= mid <= bottom
    ensures BoxSum(f, top, bottom, lo, hi) == BoxSum(f, top, mid, lo, hi) + BoxSum(f, mid, bottom, lo, hi)
    decreases bottom - mid
  {
    if mid < bottom {
      BoxSplitsRows(f, top, mid, bottom - 1, lo, hi);
    }
  }

  lemma {:induction false} RowsAgree(f: (int, int) -> real, g: (int, int) -> real, r: int, lo: int, hi: int)
    requires forall c | lo <= c < hi :: f(r, c) == g(r, c)
    ensures RowSum(f, r, lo, hi) == RowSum(g, r, lo, hi)
    decreases hi - lo
  {
    if lo < hi {
      RowsAgree(f, g, r, lo, hi - 1);
    }
  }

  lemma {:induction false} BoxesAgree(f: (int, int) -> real, g: (int, int) -> real,
                                      top: int, bottom: int, lo: int, hi: int)
    requires forall r, c | top <= r < bottom && lo <= c < hi :: f(r, c) == g(r, c)
    ensures BoxSum(f, top, bottom, lo, hi) == BoxSum(g, top, bottom, lo, hi)
    decreases bottom - top
  {
    if top < bottom {
      BoxesAgree(f, g, top, bottom - 1, lo, hi);
      RowsAgree(f, g, bottom - 1, lo, hi);
    }
  }

  lemma {:induction false} RowVanishes(f: (int, int) -> real, r: int, lo: int, hi: int)
    requires forall c | lo <= c < hi :: f(r, c) == 0.0
    ensures RowSum(f, r, lo, hi) == 0.0
    decreases hi - lo
  {
    if lo < hi {
      RowVanishes(f, r, lo, hi - 1);
    }
  }

  lemma {:induction false} BoxVanishes(f: (int, int) -> real, top: int, bottom: int, lo: int, hi: int)
    requires forall r, c | top <= r < bottom && lo <= c < hi :: f(r, c) == 0.0
    ensures BoxSum(f, top, bottom, lo, hi) == 0.0
    decreases bottom - top
  {
    if top < bottom {
      BoxVanishes(f, top, bottom - 1, lo, hi);
      RowVanishes(f, bottom - 1, lo, hi);
    }
  }

  // ---------------------------------------------------------------------------------------------
  // A ring: an outer box without an inner one.

  datatype Box = Box(top: int, bottom: int, lo: int, hi: int)

  predicate Inside(r: int, c: int, b: Box) {
    b.top <= r < b.bottom && b.lo <= c < b.hi
  }

  predicate Contains(outer: Box, inner: Box) {
    && outer.top <= inner.top <= inner.bottom <= outer.bottom
    && outer.lo <= inner.lo <= inner.hi <= outer.hi
  }

  ghost function SumOf(f: (int, int) -> real, b: Box): real {
    BoxSum(f, b.top, b.bottom, b.lo, b.hi)
  }

  /** The cells of the ring keep their value, those of the inner box count nothing. */
  ghost function RingSum(f: (int, int) -> real, outer: Box, inner: Box): real {
    SumOf((r: int, c: int) => if Inside(r, c, inner) then 0.0 else f(r, c), outer)
  }

  /** Any sum over the outer box is the sum over its five parts. */
  lemma FiveParts(f: (int, int) -> real, outer: Box, inner: Box)
    requires Contains(outer, inner)
    ensures SumOf(f, outer)
            == BoxSum(f, outer.top, inner.top, outer.lo, outer.hi)
               + BoxSum(f, inner.bottom, outer.bottom, outer.lo, outer.hi)
               + BoxSum(f, inner.top, inner.bottom, outer.lo, inner.lo)
               + BoxSum(f, inner.top, inner.bottom, inner.hi, outer.hi)
               + SumOf(f, inner)
  {
    BoxSplitsRows(f, outer.top, inner.top, outer.bottom, outer.lo, outer.hi);
    BoxSplitsRows(f, inner.top, inner.bottom, outer.bottom, outer.lo, outer.hi);
    BoxSplitsColumns(f, inner.top, inner.bottom, outer.lo, inner.lo, outer.hi);
    BoxSplitsColumns(f, inner.top, inner.bottom, inner.lo, inner.hi, outer.hi);
  }

  /** Outer minus inner is the sum over exactly the ring. */
  lemma OuterMinusInner(f: (int, int) -> real, outer: Box, inner: Box)
    requires Contains(outer, inner)
    ensures SumOf(f, outer) - SumOf(f, inner) == RingSum(f, outer, inner)
  {
    var g := (r: int, c: int) => if Inside(r, c, inner) then 0.0 else f(r, c);
    FiveParts(f, outer, inner);
    FiveParts(g, outer, inner);
    BoxesAgree(f, g, outer.top, inner.top, outer.lo, outer.hi);
    BoxesAgree(f, g, inner.bottom, outer.bottom, outer.lo, outer.hi);
    BoxesAgree(f, g, inner.top, inner.bottom, outer.lo, inner.lo);
    BoxesAgree(f, g, inner.top, inner.bottom, inner.hi, outer.hi);
    forall r, c | inner.top <= r < inner.bottom && inner.lo <= c < inner.hi
      ensures g(r, c) == 0.0
    {
      assert Inside(r, c, inner);
    }
    BoxVanishes(g, inner.top, inner.bottom, inner.lo, inner.hi);
  }

  // ---------------------------------------------------------------------------------------------
  // The integral image.

  /** Entry (r, c) is the sum of everything above and to the left. */
  ghost predicate IsIntegral(f: (int, int) -> real, height: nat, width: nat, integral: seq<real>) {
    && height > 0 && width > 0 && |integral| == height * width
    && forall i | 0 <= i < |integral| :: integral[i] == BoxSum(f, 0, Row(i, width), 0, Column(i, width))
  }

  lemma IntegralAt(f: (int, int) -> real, height: nat, width: nat, integral: seq<real>, r: nat, c: nat)
    requires IsIntegral(f, height, width, integral) && r < height && c < width
    ensures Flat(r, c, width) < |integral| && integral[Flat(r, c, width)] == BoxSum(f, 0, r, 0, c)
  {
    FlatInside(r, c, height, width);
    FlatIs(Flat(r, c, width), r, c, width);
    hide Flat, Row, Column;
  }

  /** `rect_sum`, with inclusive corners: four look-ups give the direct sum. */
  method RectSum(ghost f: (int, int) -> real, height: nat, width: nat, integral: seq<real>,
                 top: nat, left: nat, bottom: nat, right: nat) returns (sum: real)
    requires IsIntegral(f, height, width, integral)
    requires top <= bottom < height - 1 && left <= right < width - 1
    ensures sum == BoxSum(f, top, bottom + 1, left, right + 1)
  {
    hide IsIntegral, Flat, BoxSum;
    var b, r := bottom + 1, right + 1;
    IntegralAt(f, height, width, integral, b, r);
    IntegralAt(f, height, width, integral, top, r);
    IntegralAt(f, height, width, integral, b, left);
    IntegralAt(f, height, width, integral, top, left);
    sum := integral[Flat(b, r, width)] - integral[Flat(top, r, width)]
         - integral[Flat(b, left, width)] + integral[Flat(top, left, width)];
    BoxSplitsRows(f, 0, top, b, 0, r);
    BoxSplitsRows(f, 0, top, b, 0, left);
    BoxSplitsColumns(f, top, b, 0, left, r);
  }

  /** Row `row + 1` of the image, given row `row`. */
  ghost predicate IntegralTo(f: (int, int) -> real, height: nat, width: nat, integral: seq<real>, row: int, col: int) {
    && height > 0 && width > 0 && |integral| == height * width
    && forall i | 0 <= i < |integral| ::
         integral[i] == if Row(i, width) <= row || (Row(i, width) == row + 1 && Column(i, width) <= col)
                        then BoxSum(f, 0, Row(i, width), 0, Column(i, width)) else 0.0
  }

  lemma {:induction false} EmptyColumns(f: (int, int) -> real, top: int, bottom: int, lo: int)
    ensures BoxSum(f, top, bottom, lo, lo) == 0.0
    decreases bottom - top
  {
    if top < bottom {
      EmptyColumns(f, top, bottom - 1, lo);
    }
  }

  lemma IntegralStarts(f: (int, int) -> real, height: nat, width: nat, integral: seq<real>)
    requires height > 0 && width > 0 && |integral| == height * width
    requires forall i | 0 <= i < |integral| :: integral[i] == 0.0
    ensures IntegralTo(f, height, width, integral, 0, 0)
  {
    forall i | 0 <= i < |integral| && Row(i, width) <= 1 && (Row(i, width) == 0 || Column(i, width) <= 0)
      ensures BoxSum(f, 0, Row(i, width), 0, Column(i, width)) == 0.0
    {
      EmptyColumns(f, 0, Row(i, width), 0);
    }
  }

  lemma NextRow(f: (int, int) -> real, height: nat, width: nat, integral: seq<real>, row: nat)
    requires IntegralTo(f, height, width, integral, row, width - 1)
    ensures IntegralTo(f, height, width, integral, row + 1, 0)
  {
    hide Row, BoxSum;
    forall i | 0 <= i < |integral| && Row(i, width) == row + 2 && Column(i, width) == 0
      ensures BoxSum(f, 0, Row(i, width), 0, Column(i, width)) == 0.0
    {
      EmptyColumns(f, 0, row + 2, 0);
    }
  }

  lemma NextEntry(f: (int, int) -> real, height: nat, width: nat, integral: seq<real>, row: nat, col: nat, accum: real)
    requires IntegralTo(f, height, width, integral, row, col) && row < height - 1 && col < width - 1
    requires accum == RowSum(f, row, 0, col + 1)
    ensures Flat(row + 1, col + 1, width) < |integral| && Flat(row, col + 1, width) < |integral|
    ensures IntegralTo(f, height, width,
              integral[Flat(row + 1, col + 1, width) := integral[Flat(row, col + 1, width)] + accum], row, col + 1)
  {
    var at, above := Flat(row + 1, col + 1, width), Flat(row, col + 1, width);
    FlatInside(row + 1, col + 1, height, width);
    FlatInside(row, col + 1, height, width);
    FlatIs(above, row, col + 1, width);
    forall i | 0 <= i < |integral|
      ensures i == at <==> Row(i, width) == row + 1 && Column(i, width) == col + 1
    {
      FlatIs(i, row + 1, col + 1, width);
    }
    assert BoxSum(f, 0, row + 1, 0, col + 1) == BoxSum(f, 0, row, 0, col + 1) + RowSum(f, row, 0, col + 1);
    hide Flat, Row, Column, BoxSum, RowSum;
  }

  method BuildIntegral(f: (int, int) -> real, rows: nat, cols: nat) returns (integral: seq<real>)
    ensures IsIntegral(f, rows + 1, cols + 1, integral)
  {
    var height, width := rows + 1, cols + 1;
    hide Flat, Row, Column, BoxSum, IntegralTo;
    integral := seq(height * width, _ => 0.0);
    IntegralStarts(f, height, width, integral);
    for row := 0 to rows
      invariant IntegralTo(f, height, width, integral, row, 0)
    {
      var accum := 0.0;
      for col := 0 to cols
        invariant accum == RowSum(f, row, 0, col)
        invariant IntegralTo(f, height, width, integral, row, col)
      {
        accum := accum + f(row, col);
        NextEntry(f, height, width, integral, row, col, accum);
        integral := integral[Flat(row + 1, col + 1, width) := integral[Flat(row, col + 1, width)] + accum];
      }
      NextRow(f, height, width, integral, row);
    }
    IntegralDone(f, height, width, integral);
  }

  lemma IntegralDone(f: (int, int) -> real, height: nat, width: nat, integral: seq<real>)
    requires IntegralTo(f, height, width, integral, height - 1, 0)
    ensures IsIntegral(f, height, width, integral)
  {
    forall i | 0 <= i < |integral|
      ensures Row(i, width) <= height - 1
    {
      RowInside(i, height, width);
    }
  }

  lemma {:induction false} FlatRow(f: (int, int) -> real, level: real, r: int, lo: int, hi: int)
    requires lo <= hi && forall x, y :: f(x, y) == level
    ensures RowSum(f, r, lo, hi) == (hi - lo) as real * level
    decreases hi - lo
  {
    if lo < hi {
      FlatRow(f, level, r, lo, hi - 1);
    }
  }

  lemma {:induction false} FlatBox(f: (int, int) -> real, level: real, top: int, bottom: int, lo: int, hi: int)
    requires top <= bottom && lo <= hi && forall x, y :: f(x, y) == level
    ensures BoxSum(f, top, bottom, lo, hi) == ((bottom - top) * (hi - lo)) as real * level
    decreases bottom - top
  {
    if top < bottom {
      FlatBox(f, level, top, bottom - 1, lo, hi);
      FlatRow(f, level, bottom - 1, lo, hi);
      assert (bottom - top) * (hi - lo) == (bottom - 1 - top) * (hi - lo) + (hi - lo);
    }
  }

  function Area(b: Box): int {
    (b.bottom - b.top) * (b.hi - b.lo)
  }

  lemma SumOfFlat(f: (int, int) -> real, level: real, b: Box)
    requires b.top <= b.bottom && b.lo <= b.hi
    requires forall r, c | b.top <= r < b.bottom && b.lo <= c < b.hi :: f(r, c) == level
    ensures SumOf(f, b) == Area(b) as real * level
  {
    var g := (r: int, c: int) => level;
    BoxesAgree(f, g, b.top, b.bottom, b.lo, b.hi);
    FlatBox(g, level, b.top, b.bottom, b.lo, b.hi);
    hide BoxSum;
  }

  /** The sum over a ring of a grid that is at one level in the outer box: the number of cells times the level. */
  lemma RingOfFlat(f: (int, int) -> real, level: real, outer: Box, inner: Box)
    requires Contains(outer, inner)
    requires forall r, c | outer.top <= r < outer.bottom && outer.lo <= c < outer.hi :: f(r, c) == level
    ensures RingSum(f, outer, inner) == (Area(outer) - Area(inner)) as real * level
  {
    hide RingSum, SumOf, Area;
    OuterMinusInner(f, outer, inner);
    SumOfFlat(f, level, outer);
    SumOfFlat(f, level, inner);
    Difference(Area(outer), Area(inner), level);
  }

  lemma Difference(a: int, b: int, level: real)
    ensures a as real * level - b as real * level == (a - b) as real * level
  {
  }
}
