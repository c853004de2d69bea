/**
 What the two detectors share, and `run_ca_cfar_2d_full` on an integral image. Arithmetic is exact, and
 the map holds both the level in dB and the power of each cell.
 */
module Cfar {
  import opened Ranking
  import opened Sorting
  import opened BoxSums
  import opened Integers

  const EPS := 0.000_000_000_001

  /** `alpha` is the linear threshold factor. */
  datatype Params = Params(
    trainDoppler: int,
    trainRange: int,
    guardDoppler: int,
    guardRange: int,
    alpha: real,
    minPowerDb: real,
    minRangeBin: int,
    dcExclusion: int,
    maxPoints: int,
    rankPercent: real,
    suppressDoppler: int,
    suppressRange: int)

  datatype PowerMap = PowerMap(rows: nat, cols: nat, db: seq<real>, power: seq<real>)
  {
    predicate Valid() {
      |db| == rows * cols && |power| == rows * cols
    }
  }

  datatype Cell = Cell(row: nat, col: nat)

  function Guard(p: Params): (nat, nat) {
    (NonNegative(p.guardDoppler), NonNegative(p.guardRange))
  }

  function Outer(p: Params): (nat, nat) {
    (NonNegative(p.trainDoppler) + Guard(p).0, NonNegative(p.trainRange) + Guard(p).1)
  }

  predicate InMap(m: PowerMap, r: int, c: int) {
    0 <= r < m.rows && 0 <= c < m.cols
  }

  function PowerAt(m: PowerMap, r: int, c: int): real {
    if m.Valid() && InMap(m, r, c) then
      FlatInside(r, c, m.rows, m.cols);
      m.power[Flat(r, c, m.cols)]
    else 0.0
  }

  function LevelAt(m: PowerMap, cell: Cell): real {
    if m.Valid() && InMap(m, cell.row, cell.col) then
      FlatInside(cell.row, cell.col, m.rows, m.cols);
      m.db[Flat(cell.row, cell.col, m.cols)]
    else 0.0
  }

  function KeyOf(m: PowerMap): Cell -> Level {
    cell => Db(LevelAt(m, cell))
  }

  /** The map is larger than the training window. */
  predicate HasRoom(m: PowerMap, p: Params) {
    m.rows > 2 * Outer(p).0 && m.cols > 2 * Outer(p).1
  }

  /** The cells that are tested at all. */
  predicate IsTested(m: PowerMap, p: Params, cell: Cell) {
    && Outer(p).0 <= cell.row < m.rows - Outer(p).0
    && Outer(p).1 <= cell.col < m.cols - Outer(p).1
    && !(p.minRangeBin > 0 && cell.col < p.minRangeBin)
    && !(p.dcExclusion > 0 && Abs(cell.row - m.rows / 2) <= p.dcExclusion)
  }

  /** Power and level of a cell stand in the map row by row. */
  lemma MapEntries(m: PowerMap, row: nat, col: nat)
    requires m.Valid() && row < m.rows && col < m.cols
    ensures row * m.cols + col < |m.power| == |m.db|
    ensures PowerAt(m, row, col) == m.power[row * m.cols + col]
    ensures LevelAt(m, Cell(row, col)) == m.db[row * m.cols + col]
  {
    FlatInside(row, col, m.rows, m.cols);
  }

  /** The whole training window of the cell lies in the map. */
  ghost predicate WindowInMap(m: PowerMap, p: Params, cell: Cell) {
    var h := Larger(0, p.trainDoppler) + Larger(0, p.guardDoppler);
    var w := Larger(0, p.trainRange) + Larger(0, p.guardRange);
    forall r, c | cell.row - h <= r <= cell.row + h && cell.col - w <= c <= cell.col + w :: InMap(m, r, c)
  }

  lemma WindowIs(m: PowerMap, p: Params, cell: Cell)
    ensures WindowInMap(m, p, cell) <==>
            && Outer(p).0 <= cell.row < m.rows - Outer(p).0
            && Outer(p).1 <= cell.col < m.cols - Outer(p).1
    ensures forall r, c :: InMap(m, r, c) <==> 0 <= r < m.rows && 0 <= c < m.cols
  {
    var (h, w) := Outer(p);
    assert (h, w) == (Larger(0, p.trainDoppler) + Larger(0, p.guardDoppler),
                      Larger(0, p.trainRange) + Larger(0, p.guardRange));
    if WindowInMap(m, p, cell) {
      assert InMap(m, cell.row - h, cell.col - w) && InMap(m, cell.row + h, cell.col + w);
    }
  }

  /**
   A cell is tested exactly if its whole training window lies in the map, and it is neither among the first
   range bins nor near the middle row, as far as these are excluded.
   */
  lemma TestedIff(m: PowerMap, p: Params, cell: Cell)
    ensures IsTested(m, p, cell) <==>
            && WindowInMap(m, p, cell)
            && cell.col >= p.minRangeBin
            && (p.dcExclusion > 0 ==>
                  cell.row < m.rows / 2 - p.dcExclusion || cell.row > m.rows / 2 + p.dcExclusion)
  {
    WindowIs(m, p, cell);
    hide WindowInMap;
  }

  /** There is room exactly if some cell has its window in the map. */
  lemma RoomIff(m: PowerMap, p: Params)
    ensures HasRoom(m, p) <==> exists cell :: WindowInMap(m, p, cell)
  {
    WindowIs(m, p, Cell(Outer(p).0, Outer(p).1));
    hide WindowInMap;
    forall cell | WindowInMap(m, p, cell)
      ensures HasRoom(m, p)
    {
      WindowIs(m, p, cell);
    }
  }

  function Around(cell: Cell, h: (nat, nat)): Box {
    Box(cell.row - h.0, cell.row + h.0 + 1, cell.col - h.1, cell.col + h.1 + 1)
  }

  /** How many of n hits are shown: all, or as many as asked for, but at least one. */
  function ShownCount(p: Params, n: nat): (k: nat)
    ensures k <= n
    ensures p.maxPoints >= 1 ==> k <= p.maxPoints && (k < n ==> k == p.maxPoints)
    ensures p.maxPoints < 1 ==> k <= 1 && (k < n ==> k == 1)
  {
    var limit := if p.maxPoints < 1 then 1 else p.maxPoints;
    if n > limit then limit else n
  }

  // ---------------------------------------------------------------------------------------------
  // CA-CFAR.

  function TrainingCells(p: Params): (n: nat)
    ensures n >= 1
  {
    var outer := (2 * Outer(p).0 + 1) * (2 * Outer(p).1 + 1);
    var guard := (2 * Guard(p).0 + 1) * (2 * Guard(p).1 + 1);
    if outer - guard < 1 then 1 else outer - guard
  }

  /** The mean power over exactly the training ring of the cell. */
  ghost function RingMean(m: PowerMap, p: Params, cell: Cell): real {
    RingSum((r: int, c: int) => PowerAt(m, r, c), Around(cell, Outer(p)), Around(cell, Guard(p)))
    / TrainingCells(p) as real
  }

  ghost predicate CaDetects(m: PowerMap, p: Params, cell: Cell) {
    && IsTested(m, p, cell)
    && RingMean(m, p, cell) > EPS
    && LevelAt(m, cell) >= p.minPowerDb
    && PowerAt(m, cell.row, cell.col) > p.alpha * RingMean(m, p, cell)
  }

  /** The ring has as many cells as the source divides by, unless it is empty. */
  lemma TrainingCellsAre(p: Params, cell: Cell)
    ensures var count := RingSum((r: int, c: int) => 1.0, Around(cell, Outer(p)), Around(cell, Guard(p)));
            TrainingCells(p) as real == if count < 1.0 then 1.0 else count
  {
    RingOfFlat((r: int, c: int) => 1.0, 1.0, Around(cell, Outer(p)), Around(cell, Guard(p)));
    hide RingSum;
  }

  lemma AreasGrow(a: nat, b: nat, c: nat, d: nat)
    requires c <= a && d <= b && (c < a || d < b)
    ensures (2 * a + 1) * (2 * b + 1) - (2 * c + 1) * (2 * d + 1) >= 1
  {
    assert (2 * a + 1) * (2 * b + 1) - (2 * c + 1) * (2 * d + 1)
        == (2 * a + 1) * (2 * (b - d)) + (2 * (a - c)) * (2 * d + 1);
    ProductAtLeast(2 * a + 1, 2 * (b - d));
    ProductAtLeast(2 * d + 1, 2 * (a - c));
  }

  lemma ProductAtLeast(x: nat, y: nat)
    requires x >= 1
    ensures x * y >= y
  {
    assert x * y == (x - 1) * y + y;
  }

  lemma Quotient(count: int, level: real, n: nat)
    requires n >= 1 && count == n
    ensures count as real * level / n as real == level
  {
  }

  /** Where all of the outer box is at one level, the noise estimate is that level. */
  lemma MeanOfFlat(m: PowerMap, p: Params, cell: Cell, level: real)
    requires forall r, c | cell.row - Outer(p).0 <= r <= cell.row + Outer(p).0
                           && cell.col - Outer(p).1 <= c <= cell.col + Outer(p).1 :: PowerAt(m, r, c) == level
    requires Outer(p).0 > Guard(p).0 || Outer(p).1 > Guard(p).1
    ensures RingMean(m, p, cell) == level
  {
    hide PowerAt, RingSum;
    RingOfFlat((r: int, c: int) => PowerAt(m, r, c), level, Around(cell, Outer(p)), Around(cell, Guard(p)));
    AreasGrow(Outer(p).0, Outer(p).1, Guard(p).0, Guard(p).1);
    hide Outer, Guard;
    Quotient(TrainingCells(p), level, TrainingCells(p));
  }

  /** The noise estimate from two look-ups in the image is the mean over the ring. */
  method Noise(m: PowerMap, p: Params, integral: seq<real>, cell: Cell) returns (noise: real)
    requires m.Valid() && IsTested(m, p, cell)
    requires IsIntegral((r: int, c: int) => PowerAt(m, r, c), m.rows + 1, m.cols + 1, integral)
    ensures noise == RingMean(m, p, cell)
  {
    hide IsIntegral, PowerAt, BoxSum, TrainingCells;
    ghost var f := (r: int, c: int) => PowerAt(m, r, c);
    var o, g := Outer(p), Guard(p);
    var outerSum := RectSum(f, m.rows + 1, m.cols + 1, integral,
                            cell.row - o.0, cell.col - o.1, cell.row + o.0, cell.col + o.1);
    var guardSum := RectSum(f, m.rows + 1, m.cols + 1, integral,
                            cell.row - g.0, cell.col - g.1, cell.row + g.0, cell.col + g.1);
    OuterMinusInner(f, Around(cell, o), Around(cell, g));
    noise := (outerSum - guardSum) / TrainingCells(p) as real;
  }

  /** Row by row: `a` is visited before `b`. */
  predicate Before(a: Cell, b: Cell) {
    a.row < b.row || (a.row == b.row && a.col < b.col)
  }

  /** A list of exactly the cells with property `what` that are visited before `end`, each once. */
  ghost predicate Collects(hits: seq<Cell>, what: Cell -> bool, end: Cell) {
    && (forall cell: Cell :: cell in hits <==> what(cell) && Before(cell, end))
    && (forall i, j | 0 <= i < j < |hits| :: Before(hits[i], hits[j]))
  }

  lemma CollectsNext(hits: seq<Cell>, what: Cell -> bool, cell: Cell)
    requires Collects(hits, what, cell)
    ensures Collects(if what(cell) then hits + [cell] else hits, what, Cell(cell.row, cell.col + 1))
  {
    var more := if what(cell) then hits + [cell] else hits;
    forall c: Cell
      ensures c in more <==> what(c) && Before(c, Cell(cell.row, cell.col + 1))
    {
      assert Before(c, Cell(cell.row, cell.col + 1)) <==> Before(c, cell) || c == cell;
    }
    forall i, j | 0 <= i < j < |more|
      ensures Before(more[i], more[j])
    {
      assert i < |hits| ==> hits[i] in hits;
    }
  }

  /** Moving the end over cells without the property changes nothing. */
  lemma CollectsSkip(hits: seq<Cell>, what: Cell -> bool, end: Cell, later: Cell)
    requires Collects(hits, what, end) && (end == later || Before(end, later))
    requires forall c: Cell | what(c) && Before(c, later) :: Before(c, end)
    ensures Collects(hits, what, later)
  {
  }

  /** What a detector reports: the strongest of its hits. */
  ghost predicate Reports(m: PowerMap, p: Params, hits: seq<Cell>, ranked: seq<Cell>, points: seq<Cell>) {
    Permutation(ranked, hits) && Descending(ranked, KeyOf(m)) && points == ranked[..ShownCount(p, |ranked|)]
  }

  /** `run_ca_cfar_2d_full`. */
  method CaCfar(m: PowerMap, p: Params)
    returns (points: seq<Cell>, rawHits: nat, ghost hits: seq<Cell>, ghost ranked: seq<Cell>)
    requires m.Valid()
    ensures !HasRoom(m, p) ==> points == [] && rawHits == 0
    ensures HasRoom(m, p) ==>
      && Collects(hits, cell => CaDetects(m, p, cell), Cell(m.rows, 0))
      && Reports(m, p, hits, ranked, points) && rawHits == |hits|
  {
    hide Collects, IsIntegral, PowerAt, RingMean, Permutation, Descending;
    points, rawHits, hits, ranked := [], 0, [], [];
    if m.rows <= 2 * Outer(p).0 || m.cols <= 2 * Outer(p).1 {
      return;
    }
    ghost var what := (cell: Cell) => CaDetects(m, p, cell);
    var integral := BuildIntegral((r: int, c: int) => PowerAt(m, r, c), m.rows, m.cols);
    var found: seq<Cell> := [];
    var o := Outer(p);
    NothingBefore(what, Cell(o.0, 0));
    for row := o.0 to m.rows - o.0
      invariant Collects(found, what, Cell(row, 0))
    {
      CollectsSkip(found, what, Cell(row, 0), Cell(row, o.1));
      for col := o.1 to m.cols - o.1
        invariant Collects(found, what, Cell(row, col))
      {
        var cell := Cell(row, col);
        CollectsNext(found, what, cell);
        if p.minRangeBin > 0 && col < p.minRangeBin {
          continue;
        }
        if p.dcExclusion > 0 && Abs(row - m.rows / 2) <= p.dcExclusion {
          continue;
        }
        var noise := Noise(m, p, integral, cell);
        if noise <= EPS {
          continue;
        }
        if LevelAt(m, cell) < p.minPowerDb || PowerAt(m, row, col) <= p.alpha * noise {
          continue;
        }
        found := found + [cell];
      }
      CollectsSkip(found, what, Cell(row, m.cols - o.1), Cell(row + 1, 0));
    }
    CollectsSkip(found, what, Cell(m.rows - o.0, 0), Cell(m.rows, 0));
    hits := found;
    var sorted := Sort(found, KeyOf(m));
    ranked := sorted;
    SameLength(sorted, found);
    points := sorted[..ShownCount(p, |sorted|)];
    rawHits := |found|;
  }

  lemma SameLength<T>(a: seq<T>, b: seq<T>)
    requires Permutation(a, b)
    ensures |a| == |b|
  {
    PermutationMembers(a, b);
  }

  lemma NothingBefore(what: Cell -> bool, end: Cell)
    requires forall c: Cell | what(c) :: !Before(c, end)
    ensures Collects([], what, end)
  {
  }
}
