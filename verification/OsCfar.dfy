/**
 `run_os_cfar_2d_full`: candidates in descending order of level are tested against an order statistic of
 their training ring; each hit suppresses the box around it.
 */
module OsCfar {
  import opened Ranking
  import opened Sequences
  import opened Sorting
  import opened Cfar
  import opened Integers

  // ---------------------------------------------------------------------------------------------
  // The order statistic of the training ring.

  function RowOffsets(r: int, lo: int, hi: int, guard: (nat, nat)): seq<(int, int)>
    decreases hi - lo
  {
    if hi <= lo then []
    else RowOffsets(r, lo, hi - 1, guard)
         + if Abs(r) <= guard.0 && Abs(hi - 1) <= guard.1 then [] else [(r, hi - 1)]
  }

  function BoxOffsets(top: int, bottom: int, lo: int, hi: int, guard: (nat, nat)): seq<(int, int)>
    decreases bottom - top
  {
    if bottom <= top then [] else BoxOffsets(top, bottom - 1, lo, hi, guard) + RowOffsets(bottom - 1, lo, hi, guard)
  }

  /** The offsets of the training ring, row by row. */
  function Offsets(p: Params): seq<(int, int)> {
    BoxOffsets(0 - Outer(p).0, Outer(p).0 + 1, 0 - Outer(p).1, Outer(p).1 + 1, Guard(p))
  }

  lemma {:induction false} RowOffsetsAre(r: int, lo: int, hi: int, guard: (nat, nat), x: int, y: int)
    ensures (x, y) in RowOffsets(r, lo, hi, guard)
            <==> x == r && lo <= y < hi && !(Abs(x) <= guard.0 && Abs(y) <= guard.1)
    decreases hi - lo
  {
    if lo < hi {
      RowOffsetsAre(r, lo, hi - 1, guard, x, y);
    }
  }

  lemma {:induction false} BoxOffsetsAre(top: int, bottom: int, lo: int, hi: int, guard: (nat, nat), x: int, y: int)
    ensures (x, y) in BoxOffsets(top, bottom, lo, hi, guard)
            <==> top <= x < bottom && lo <= y < hi && !(Abs(x) <= guard.0 && Abs(y) <= guard.1)
    decreases bottom - top
  {
    if top < bottom {
      BoxOffsetsAre(top, bottom - 1, lo, hi, guard, x, y);
      RowOffsetsAre(bottom - 1, lo, hi, guard, x, y);
    }
  }

  /** The list holds exactly the offsets of the training ring. */
  lemma OffsetsAreTheRing(p: Params, x: int, y: int)
    ensures (x, y) in Offsets(p) <==>
            && Abs(x) <= Outer(p).0 && Abs(y) <= Outer(p).1
            && !(Abs(x) <= Guard(p).0 && Abs(y) <= Guard(p).1)
    ensures var guardD, guardR := Larger(0, p.guardDoppler), Larger(0, p.guardRange);
            var outerD, outerR := Larger(0, p.trainDoppler) + guardD, Larger(0, p.trainRange) + guardR;
            (x, y) in Offsets(p) <==>
            && -outerD <= x <= outerD && -outerR <= y <= outerR
            && !(-guardD <= x <= guardD && -guardR <= y <= guardR)
  {
    BoxOffsetsAre(0 - Outer(p).0, Outer(p).0 + 1, 0 - Outer(p).1, Outer(p).1 + 1, Guard(p), x, y);
  }

  lemma {:induction false} RowOffsetsOnce(r: int, lo: int, hi: int, guard: (nat, nat))
    ensures Distinct(RowOffsets(r, lo, hi, guard))
    decreases hi - lo
  {
    if lo < hi {
      RowOffsetsOnce(r, lo, hi - 1, guard);
      RowOffsetsAre(r, lo, hi - 1, guard, r, hi - 1);
    }
  }

  lemma {:induction false} BoxOffsetsOnce(top: int, bottom: int, lo: int, hi: int, guard: (nat, nat))
    ensures Distinct(BoxOffsets(top, bottom, lo, hi, guard))
    decreases bottom - top
  {
    if top < bottom {
      BoxOffsetsOnce(top, bottom - 1, lo, hi, guard);
      RowOffsetsOnce(bottom - 1, lo, hi, guard);
      var above, row := BoxOffsets(top, bottom - 1, lo, hi, guard), RowOffsets(bottom - 1, lo, hi, guard);
      forall o | o in above && o in row
        ensures false
      {
        BoxOffsetsAre(top, bottom - 1, lo, hi, guard, o.0, o.1);
        RowOffsetsAre(bottom - 1, lo, hi, guard, o.0, o.1);
      }
      DistinctJoin(above, row);
    }
  }

  /** No cell of the ring counts twice. */
  lemma OffsetsOnce(p: Params)
    ensures Distinct(Offsets(p))
  {
    BoxOffsetsOnce(0 - Outer(p).0, Outer(p).0 + 1, 0 - Outer(p).1, Outer(p).1 + 1, Guard(p));
  }

  method TrainingOffsets(p: Params) returns (offsets: seq<(int, int)>)
    ensures offsets == Offsets(p)
  {
    var g := Guard(p);
    var h: int, w: int := Outer(p).0, Outer(p).1;
    offsets := [];
    for row := -h to h + 1
      invariant offsets == BoxOffsets(-h, row, -w, w + 1, g)
    {
      ghost var before := offsets;
      for col := -w to w + 1
        invariant offsets == before + RowOffsets(row, -w, col, g)
      {
        if Abs(row) <= g.0 && Abs(col) <= g.1 {
          continue;
        }
        offsets := offsets + [(row, col)];
      }
    }
  }

  function TrainingValues(m: PowerMap, p: Params, cell: Cell): (r: seq<real>)
    ensures |r| == |Offsets(p)|
  {
    seq(|Offsets(p)|, i requires 0 <= i < |Offsets(p)| =>
      PowerAt(m, cell.row + Offsets(p)[i].0, cell.col + Offsets(p)[i].1))
  }

  ghost predicate Ascending(s: seq<real>) {
    forall i, j | 0 <= i < j < |s| :: s[i] <= s[j]
  }

  /** `v` stands at place k when the values are put in order. */
  ghost predicate IsRank(values: seq<real>, k: nat, v: real) {
    exists s :: Permutation(s, values) && Ascending(s) && k < |s| && s[k] == v
  }

  lemma LastIsLargest(a: seq<real>)
    requires Ascending(a) && a != []
    ensures a[|a| - 1] in a && (forall x | x in a :: x <= a[|a| - 1]) && Ascending(a[..|a| - 1])
  {
  }

  lemma FrontOf(a: seq<real>)
    requires a != []
    ensures multiset(a[..|a| - 1]) == multiset(a) - multiset{a[|a| - 1]}
    ensures a == a[..|a| - 1] + [a[|a| - 1]]
  {
    assert a == a[..|a| - 1] + [a[|a| - 1]];
  }

  lemma LastsAgree(a: seq<real>, b: seq<real>)
    requires Permutation(a, b) && Ascending(a) && Ascending(b) && a != []
    ensures |a| == |b| && a[|a| - 1] == b[|b| - 1] && Permutation(a[..|a| - 1], b[..|b| - 1])
    ensures Ascending(a[..|a| - 1]) && Ascending(b[..|b| - 1])
  {
    PermutationMembers(a, b);
    LastIsLargest(a);
    LastIsLargest(b);
    hide Ascending;
    FrontOf(a);
    FrontOf(b);
  }

  lemma {:induction false} AscendingUnique(a: seq<real>, b: seq<real>)
    requires Permutation(a, b) && Ascending(a) && Ascending(b)
    ensures a == b
  {
    hide Ascending;
    if a == [] {
      PermutationMembers(a, b);
    } else {
      LastsAgree(a, b);
      hide Permutation;
      AscendingUnique(a[..|a| - 1], b[..|b| - 1]);
      FrontOf(a);
      FrontOf(b);
    }
  }

  /** There is only one such value. */
  lemma RankIsUnique(values: seq<real>, k: nat, v: real, w: real)
    requires IsRank(values, k, v) && IsRank(values, k, w)
    ensures v == w
  {
    var s :| Permutation(s, values) && Ascending(s) && k < |s| && s[k] == v;
    var t :| Permutation(t, values) && Ascending(t) && k < |t| && t[k] == w;
    AscendingUnique(s, t);
  }

  /** `std::nth_element`. */
  method NthElement(values: seq<real>, k: nat) returns (v: real)
    requires k < |values|
    ensures IsRank(values, k, v)
  {
    var s := Sort(values, (x: real) => Db(-x));
    PermutationMembers(s, values);
    forall i, j | 0 <= i < j < |s|
      ensures s[i] <= s[j]
    {
      assert !Above(((x: real) => Db(-x))(s[j]), ((x: real) => Db(-x))(s[i]));
    }
    v := s[k];
  }

  lemma Scaled(share: real, top: real)
    requires 0.0 <= share <= 1.0 && top >= 0.0
    ensures 0.0 <= share * top <= top
  {
    assert (1.0 - share) * top >= 0.0;
    assert (1.0 - share) * top == top - share * top;
  }

  lemma Hundredths(percent: real, top: real)
    ensures 100.0 * (percent / 100.0 * top) == percent * top
  {
    assert 100.0 * (percent / 100.0) == percent;
    Regroups(100.0, percent / 100.0, top);
  }

  lemma Regroups(a: real, b: real, c: real)
    ensures a * (b * c) == (a * b) * c
  {
  }

  /** The place in the ascending order the percentage asks for, before rounding. */
  function Place(percent: real, n: nat): (x: real)
    requires n > 0
    ensures 0.0 <= x <= (n - 1) as real
    ensures 0.0 <= percent <= 100.0 ==> 100.0 * x == percent * (n - 1) as real
    ensures percent <= 0.0 ==> x == 0.0
    ensures percent >= 100.0 ==> x == (n - 1) as real
  {
    var clamped := if percent < 0.0 then 0.0 else if percent > 100.0 then 100.0 else percent;
    Scaled(clamped / 100.0, (n - 1) as real);
    Hundredths(clamped, (n - 1) as real);
    clamped / 100.0 * (n - 1) as real
  }

  /** That place, rounded to nearest. */
  function RankIndex(p: Params, n: nat): (k: nat)
    requires n > 0
    ensures k < n
  {
    Rounded(Place(p.rankPercent, n), n - 1);
    (Place(p.rankPercent, n) + 0.5).Floor
  }

  lemma Rounded(x: real, top: nat)
    requires 0.0 <= x <= top as real
    ensures 0 <= (x + 0.5).Floor <= top
  {
  }

  /** The index is the nearest to that place, the upper one on a tie; beyond 0% and 100% it stays at the ends. */
  lemma RankIsNearest(p: Params, n: nat, k: int)
    requires n > 0
    ensures RankIndex(p, n) == k <==> k as real - 0.5 <= Place(p.rankPercent, n) < k as real + 0.5
    ensures p.rankPercent <= 0.0 ==> RankIndex(p, n) == 0
    ensures p.rankPercent >= 100.0 ==> RankIndex(p, n) == n - 1
  {
    hide Place;
    var rank := (Place(p.rankPercent, n) + 0.5).Floor;
    assert rank as real <= Place(p.rankPercent, n) + 0.5 < rank as real + 1.0;
  }

  ghost predicate OsPasses(m: PowerMap, p: Params, cell: Cell) {
    && Offsets(p) != [] && LevelAt(m, cell) >= p.minPowerDb
    && exists noise :: IsRank(TrainingValues(m, p, cell), RankIndex(p, |Offsets(p)|), noise)
         && noise > EPS && PowerAt(m, cell.row, cell.col) > p.alpha * noise
  }

  method TestCell(m: PowerMap, p: Params, offsets: seq<(int, int)>, cell: Cell) returns (hit: bool)
    requires offsets == Offsets(p) && offsets != []
    ensures hit <==> OsPasses(m, p, cell)
  {
    hide Offsets, PowerAt, IsRank, RankIndex, Place, LevelAt;
    if LevelAt(m, cell) < p.minPowerDb {
      return false;
    }
    var values := [];
    for i := 0 to |offsets|
      invariant |values| == i && forall k | 0 <= k < i :: values[k] == TrainingValues(m, p, cell)[k]
    {
      values := values + [PowerAt(m, cell.row + offsets[i].0, cell.col + offsets[i].1)];
    }
    assert values == TrainingValues(m, p, cell);
    var noise := NthElement(values, RankIndex(p, |values|));
    forall w | IsRank(values, RankIndex(p, |values|), w)
      ensures w == noise
    {
      RankIsUnique(values, RankIndex(p, |values|), noise, w);
    }
    return noise > EPS && PowerAt(m, cell.row, cell.col) > p.alpha * noise;
  }

  // ---------------------------------------------------------------------------------------------
  // Suppression.

  predicate InBox(p: Params, a: Cell, b: Cell) {
    Abs(a.row - b.row) <= NonNegative(p.suppressDoppler) && Abs(a.col - b.col) <= NonNegative(p.suppressRange)
  }

  /** The active part of the map, stored flat. */
  function ActiveRows(m: PowerMap, p: Params): nat
    requires HasRoom(m, p)
  {
    m.rows - 2 * Outer(p).0
  }

  function ActiveCols(m: PowerMap, p: Params): nat
    requires HasRoom(m, p)
  {
    m.cols - 2 * Outer(p).1
  }

  function CellOf(m: PowerMap, p: Params, f: nat): Cell
    requires HasRoom(m, p)
  {
    Cell(Row(f, ActiveCols(m, p)) + Outer(p).0, Column(f, ActiveCols(m, p)) + Outer(p).1)
  }

  function IndexOf(m: PowerMap, p: Params, cell: Cell): nat
    requires HasRoom(m, p) && cell.row >= Outer(p).0 && cell.col >= Outer(p).1
  {
    Flat(cell.row - Outer(p).0, cell.col - Outer(p).1, ActiveCols(m, p))
  }

  lemma IndexIs(m: PowerMap, p: Params, cell: Cell, f: nat)
    requires HasRoom(m, p) && IsTested(m, p, cell)
    ensures IndexOf(m, p, cell) < ActiveRows(m, p) * ActiveCols(m, p)
    ensures f == IndexOf(m, p, cell) <==> CellOf(m, p, f) == cell
  {
    FlatInside(cell.row - Outer(p).0, cell.col - Outer(p).1, ActiveRows(m, p), ActiveCols(m, p));
    FlatIs(f, cell.row - Outer(p).0, cell.col - Outer(p).1, ActiveCols(m, p));
    hide Flat, Row, Column;
  }

  ghost predicate InSomeBox(p: Params, hits: seq<Cell>, cell: Cell) {
    exists k :: 0 <= k < |hits| && InBox(p, hits[k], cell)
  }

  ghost predicate Suppresses(m: PowerMap, p: Params, hits: seq<Cell>, suppressed: seq<bool>)
    requires HasRoom(m, p)
  {
    && |suppressed| == ActiveRows(m, p) * ActiveCols(m, p)
    && forall f | 0 <= f < |suppressed| :: suppressed[f] <==> InSomeBox(p, hits, CellOf(m, p, f))
  }

  /** The rows and columns of the box, cut off at the edges, are filled row by row. */
  method FillBox(height: nat, width: nat, before: seq<bool>, row: nat, col: nat, d: nat, r: nat) returns (s: seq<bool>)
    requires |before| == height * width && row < height && col < width
    ensures |s| == |before| && forall f | 0 <= f < |s| ::
              s[f] <==> before[f] || (Abs(Row(f, width) - row) <= d && Abs(Column(f, width) - col) <= r)
  {
    hide Row, Column, Flat;
    var loR, hiR := NonNegative(row - d), if row + d + 1 < height then row + d + 1 else height;
    var loC, hiC := NonNegative(col - r), if col + r + 1 < width then col + r + 1 else width;
    s := before;
    for i := loR to hiR
      invariant |s| == |before| && forall f | 0 <= f < |s| ::
                  s[f] <==> before[f] || (loR <= Row(f, width) < i && loC <= Column(f, width) < hiC)
    {
      ghost var was := s;
      for j := loC to hiC
        invariant |s| == |before| && forall f | 0 <= f < |s| ::
                    s[f] <==> was[f] || (Row(f, width) == i && loC <= Column(f, width) < j)
      {
        FlatInside(i, j, height, width);
        forall f | 0 <= f < |s|
          ensures f == Flat(i, j, width) <==> Row(f, width) == i && Column(f, width) == j
        {
          FlatIs(f, i, j, width);
        }
        s := s[Flat(i, j, width) := true];
      }
    }
    forall f | 0 <= f < |s|
      ensures Row(f, width) < height
    {
      RowInside(f, height, width);
    }
  }

  // ---------------------------------------------------------------------------------------------
  // The greedy pass.

  /** The hits are passing candidates in their order, at the places `at`, apart from each other. */
  ghost predicate Separated(m: PowerMap, p: Params, examined: seq<Cell>, n: nat, hits: seq<Cell>, at: seq<nat>) {
    && n <= |examined| && |at| == |hits|
    && (forall k | 0 <= k < |hits| :: at[k] < n && hits[k] == examined[at[k]] && OsPasses(m, p, hits[k]))
    && forall j, k | 0 <= j < k < |hits| :: at[j] < at[k] && !InBox(p, hits[j], hits[k])
  }

  /** Candidate i is a hit or lies in the box of a hit that came before it. */
  ghost predicate Explained(p: Params, examined: seq<Cell>, hits: seq<Cell>, at: seq<nat>, i: nat) {
    i < |examined| && exists k :: 0 <= k < |hits| == |at| && at[k] <= i && InBox(p, hits[k], examined[i])
  }

  ghost predicate Maximal(m: PowerMap, p: Params, examined: seq<Cell>, n: nat, hits: seq<Cell>, at: seq<nat>) {
    forall i | 0 <= i < n && i < |examined| && OsPasses(m, p, examined[i]) :: Explained(p, examined, hits, at, i)
  }

  /** The hits after the first n candidates. */
  ghost predicate Greedy(m: PowerMap, p: Params, examined: seq<Cell>, n: nat, hits: seq<Cell>, at: seq<nat>) {
    Separated(m, p, examined, n, hits, at) && Maximal(m, p, examined, n, hits, at)
  }

  lemma ExplainedStays(p: Params, examined: seq<Cell>, hits: seq<Cell>, at: seq<nat>, i: nat, cell: Cell, n: nat)
    requires |at| == |hits| && Explained(p, examined, hits, at, i)
    ensures Explained(p, examined, hits + [cell], at + [n], i)
  {
    hide InBox;
    var k :| 0 <= k < |hits| == |at| && at[k] <= i && InBox(p, hits[k], examined[i]);
    assert (hits + [cell])[k] == hits[k] && (at + [n])[k] == at[k];
  }

  lemma SeparatedHit(m: PowerMap, p: Params, examined: seq<Cell>, n: nat, hits: seq<Cell>, at: seq<nat>)
    requires Separated(m, p, examined, n, hits, at) && n < |examined|
    requires OsPasses(m, p, examined[n]) && !InSomeBox(p, hits, examined[n])
    ensures Separated(m, p, examined, n + 1, hits + [examined[n]], at + [n])
  {
    hide OsPasses, InBox;
  }

  /** A candidate that is not suppressed and passes becomes a hit. */
  lemma GreedyHit(m: PowerMap, p: Params, examined: seq<Cell>, n: nat, hits: seq<Cell>, at: seq<nat>)
    requires Greedy(m, p, examined, n, hits, at) && n < |examined|
    requires OsPasses(m, p, examined[n]) && !InSomeBox(p, hits, examined[n])
    ensures Greedy(m, p, examined, n + 1, hits + [examined[n]], at + [n])
  {
    SeparatedHit(m, p, examined, n, hits, at);
    hide OsPasses, InSomeBox;
    var h2, a2 := hits + [examined[n]], at + [n];
    assert h2[|hits|] == examined[n] && a2[|hits|] == n && InBox(p, examined[n], examined[n]);
    assert Explained(p, examined, h2, a2, n);
    hide InBox, Explained;
    forall i | 0 <= i < n && OsPasses(m, p, examined[i])
      ensures Explained(p, examined, h2, a2, i)
    {
      ExplainedStays(p, examined, hits, at, i, examined[n], n);
    }
    hide Separated;
  }

  lemma SuppressedIsExplained(m: PowerMap, p: Params, examined: seq<Cell>, n: nat, hits: seq<Cell>, at: seq<nat>)
    requires Separated(m, p, examined, n, hits, at) && n < |examined| && InSomeBox(p, hits, examined[n])
    ensures Explained(p, examined, hits, at, n)
  {
    hide OsPasses, InBox;
    var k :| 0 <= k < |hits| && InBox(p, hits[k], examined[n]);
    assert at[k] <= n;
  }

  lemma SeparatedMiss(m: PowerMap, p: Params, examined: seq<Cell>, n: nat, hits: seq<Cell>, at: seq<nat>)
    requires Separated(m, p, examined, n, hits, at) && n < |examined|
    ensures Separated(m, p, examined, n + 1, hits, at)
  {
    hide OsPasses, InBox;
  }

  /** A candidate that does not pass or is suppressed leaves the hits alone. */
  lemma GreedyMiss(m: PowerMap, p: Params, examined: seq<Cell>, n: nat, hits: seq<Cell>, at: seq<nat>)
    requires Greedy(m, p, examined, n, hits, at) && n < |examined|
    requires !OsPasses(m, p, examined[n]) || InSomeBox(p, hits, examined[n])
    ensures Greedy(m, p, examined, n + 1, hits, at)
  {
    hide OsPasses, InSomeBox, Explained, Separated;
    SeparatedMiss(m, p, examined, n, hits, at);
    if InSomeBox(p, hits, examined[n]) {
      SuppressedIsExplained(m, p, examined, n, hits, at);
    }
  }

  lemma SuppressesNext(m: PowerMap, p: Params, hits: seq<Cell>, before: seq<bool>, after: seq<bool>, cell: Cell)
    requires HasRoom(m, p) && IsTested(m, p, cell) && Suppresses(m, p, hits, before) && |after| == |before|
    requires forall f | 0 <= f < |after| :: after[f] <==> before[f] || InBox(p, cell, CellOf(m, p, f))
    ensures Suppresses(m, p, hits + [cell], after)
  {
    hide InBox, CellOf;
    var more := hits + [cell];
    forall f | 0 <= f < |after|
      ensures after[f] <==> InSomeBox(p, more, CellOf(m, p, f))
    {
      var c := CellOf(m, p, f);
      if InSomeBox(p, hits, c) {
        var k :| 0 <= k < |hits| && InBox(p, hits[k], c);
        assert more[k] == hits[k];
      }
      assert more[|hits|] == cell;
    }
  }

  method Suppress(m: PowerMap, p: Params, ghost hits: seq<Cell>, before: seq<bool>, cell: Cell)
    returns (after: seq<bool>)
    requires HasRoom(m, p) && IsTested(m, p, cell) && Suppresses(m, p, hits, before)
    ensures Suppresses(m, p, hits + [cell], after)
  {
    after := FillBox(ActiveRows(m, p), ActiveCols(m, p), before, cell.row - Outer(p).0, cell.col - Outer(p).1,
                     NonNegative(p.suppressDoppler), NonNegative(p.suppressRange));
    hide Row, Column;
    forall f | 0 <= f < |after|
      ensures after[f] <==> before[f] || InBox(p, cell, CellOf(m, p, f))
    {
    }
    SuppressesNext(m, p, hits, before, after, cell);
  }

  method GreedyPass(m: PowerMap, p: Params, offsets: seq<(int, int)>, examined: seq<Cell>)
    returns (hits: seq<Cell>, ghost at: seq<nat>)
    requires HasRoom(m, p) && offsets == Offsets(p) && offsets != []
    requires forall i | 0 <= i < |examined| :: IsTested(m, p, examined[i])
    ensures Greedy(m, p, examined, |examined|, hits, at)
  {
    hide OsPasses, InBox, CellOf, IsTested, IndexOf, Offsets, Greedy;
    hits, at := [], [];
    var suppressed := seq(ActiveRows(m, p) * ActiveCols(m, p), _ => false);
    GreedyStarts(m, p, examined);
    for n := 0 to |examined|
      invariant Greedy(m, p, examined, n, hits, at) && Suppresses(m, p, hits, suppressed)
    {
      var cell := examined[n];
      TestedCorner(m, p, cell);
      var f := IndexOf(m, p, cell);
      IndexIs(m, p, cell, f);
      if suppressed[f] {
        GreedyMiss(m, p, examined, n, hits, at);
        continue;
      }
      var hit := TestCell(m, p, offsets, cell);
      if !hit {
        GreedyMiss(m, p, examined, n, hits, at);
      } else {
        GreedyHit(m, p, examined, n, hits, at);
        suppressed := Suppress(m, p, hits, suppressed, cell);
        hits, at := hits + [cell], at + [n];
      }
    }
  }

  lemma GreedyStarts(m: PowerMap, p: Params, examined: seq<Cell>)
    ensures Greedy(m, p, examined, 0, [], [])
  {
  }

  lemma TestedCorner(m: PowerMap, p: Params, cell: Cell)
    requires IsTested(m, p, cell)
    ensures cell.row >= Outer(p).0 && cell.col >= Outer(p).1
  {
  }

  // ---------------------------------------------------------------------------------------------
  // The detector.

  /** How many candidates are examined: all, or the larger of 1024 and 32 for each point to show. */
  function CandidateLimit(p: Params, n: nat): (k: nat)
    ensures k <= n
  {
    var points := if p.maxPoints < 1 then 1 else p.maxPoints;
    var limit := if points * 32 < 1024 then 1024 else points * 32;
    if n < limit then n else limit
  }

  method CollectCandidates(m: PowerMap, p: Params) returns (candidates: seq<Cell>)
    requires HasRoom(m, p)
    ensures Collects(candidates, cell => IsTested(m, p, cell), Cell(m.rows, 0))
  {
    hide Collects;
    ghost var what := (cell: Cell) => IsTested(m, p, cell);
    var o := Outer(p);
    candidates := [];
    NothingBefore(what, Cell(o.0, 0));
    for row := o.0 to m.rows - o.0
      invariant Collects(candidates, what, Cell(row, 0))
    {
      if p.dcExclusion > 0 && Abs(row - m.rows / 2) <= p.dcExclusion {
        CollectsSkip(candidates, what, Cell(row, 0), Cell(row + 1, 0));
        continue;
      }
      CollectsSkip(candidates, what, Cell(row, 0), Cell(row, o.1));
      for col := o.1 to m.cols - o.1
        invariant Collects(candidates, what, Cell(row, col))
      {
        CollectsNext(candidates, what, Cell(row, col));
        if p.minRangeBin > 0 && col < p.minRangeBin {
          continue;
        }
        candidates := candidates + [Cell(row, col)];
      }
      CollectsSkip(candidates, what, Cell(row, m.cols - o.1), Cell(row + 1, 0));
    }
    CollectsSkip(candidates, what, Cell(m.rows - o.0, 0), Cell(m.rows, 0));
  }

  /** The examined candidates are the strongest tested cells, in descending order. */
  ghost predicate Examines(m: PowerMap, p: Params, candidates: seq<Cell>, ranked: seq<Cell>, examined: seq<Cell>) {
    && Collects(candidates, cell => IsTested(m, p, cell), Cell(m.rows, 0))
    && Permutation(ranked, candidates) && Descending(ranked, KeyOf(m))
    && examined == ranked[..CandidateLimit(p, |ranked|)]
  }

  lemma ExaminedAreTested(m: PowerMap, p: Params, candidates: seq<Cell>, ranked: seq<Cell>, examined: seq<Cell>)
    requires Examines(m, p, candidates, ranked, examined)
    ensures forall i | 0 <= i < |examined| :: IsTested(m, p, examined[i])
  {
    PermutationMembers(ranked, candidates);
    hide IsTested, Permutation, Descending;
    forall i | 0 <= i < |examined|
      ensures IsTested(m, p, examined[i])
    {
      assert ranked[i] in ranked && ranked[i] in candidates;
    }
  }

  /** `run_os_cfar_2d_full`. */
  method OsCfar(m: PowerMap, p: Params)
    returns (points: seq<Cell>, rawHits: nat, ghost examined: seq<Cell>, ghost hits: seq<Cell>, ghost at: seq<nat>,
             ghost candidates: seq<Cell>, ghost ranked: seq<Cell>)
    requires m.Valid()
    ensures !HasRoom(m, p) || Offsets(p) == [] ==> points == [] && rawHits == 0
    ensures HasRoom(m, p) && Offsets(p) != [] ==>
      && Examines(m, p, candidates, ranked, examined)
      && Greedy(m, p, examined, |examined|, hits, at)
      && rawHits == |hits| && points == hits[..ShownCount(p, |hits|)]
  {
    hide IsTested, Collects, Permutation, Descending, Greedy, Offsets, CandidateLimit;
    points, rawHits, examined, hits, at, candidates, ranked := [], 0, [], [], [], [], [];
    if m.rows <= 2 * Outer(p).0 || m.cols <= 2 * Outer(p).1 {
      return;
    }
    var offsets := TrainingOffsets(p);
    if |offsets| == 0 {
      return;
    }
    var found := CollectCandidates(m, p);
    var sorted := Sort(found, KeyOf(m));
    var kept := sorted[..CandidateLimit(p, |sorted|)];
    candidates, ranked, examined := found, sorted, kept;
    ExaminedAreTested(m, p, candidates, ranked, examined);
    var passed;
    passed, at := GreedyPass(m, p, offsets, kept);
    hits := passed;
    rawHits := |passed|;
    points := passed[..ShownCount(p, |passed|)];
  }

  /** No two hits lie in each other's suppression box. */
  lemma HitsAreSeparated(m: PowerMap, p: Params, examined: seq<Cell>, hits: seq<Cell>, at: seq<nat>, j: nat, k: nat)
    requires Greedy(m, p, examined, |examined|, hits, at) && j < |hits| && k < |hits| && j != k
    ensures !InBox(p, hits[j], hits[k])
    ensures !(-Larger(0, p.suppressDoppler) <= hits[j].row - hits[k].row <= Larger(0, p.suppressDoppler)
              && -Larger(0, p.suppressRange) <= hits[j].col - hits[k].col <= Larger(0, p.suppressRange))
  {
    hide OsPasses, InBox;
    assert if j < k then !InBox(p, hits[j], hits[k]) else !InBox(p, hits[k], hits[j]);
    BoxIs(p, hits[j], hits[k]);
    BoxIs(p, hits[k], hits[j]);
  }

  /** The suppression box of a cell, in rows and columns. */
  lemma BoxIs(p: Params, a: Cell, b: Cell)
    ensures InBox(p, a, b) <==>
            && -Larger(0, p.suppressDoppler) <= a.row - b.row <= Larger(0, p.suppressDoppler)
            && -Larger(0, p.suppressRange) <= a.col - b.col <= Larger(0, p.suppressRange)
  {
  }

  /** Every examined candidate that passes is in the box of a hit at least as strong, possibly its own. */
  lemma HitsAreMaximal(m: PowerMap, p: Params, candidates: seq<Cell>, ranked: seq<Cell>, examined: seq<Cell>,
                       hits: seq<Cell>, at: seq<nat>, i: nat)
    requires Examines(m, p, candidates, ranked, examined) && Greedy(m, p, examined, |examined|, hits, at)
    requires i < |examined| && OsPasses(m, p, examined[i])
    ensures exists k :: 0 <= k < |hits| && InBox(p, hits[k], examined[i])
                          && LevelAt(m, hits[k]) >= LevelAt(m, examined[i])
  {
    hide OsPasses, InBox, LevelAt, Collects, Permutation, Descending;
    assert Explained(p, examined, hits, at, i);
    var k :| 0 <= k < |hits| == |at| && at[k] <= i && InBox(p, hits[k], examined[i]);
    assert hits[k] == examined[at[k]];
    BoxIs(p, hits[k], examined[i]);
    Ordered(m, ranked, at[k], i);
  }

  lemma Ordered(m: PowerMap, ranked: seq<Cell>, i: nat, j: nat)
    requires Descending(ranked, KeyOf(m)) && i <= j < |ranked|
    ensures LevelAt(m, ranked[i]) >= LevelAt(m, ranked[j])
  {
    hide LevelAt;
    assert i < j ==> !Above(KeyOf(m)(ranked[j]), KeyOf(m)(ranked[i]));
  }

  /** The shown points are the strongest hits. */
  lemma ShownAreStrongest(m: PowerMap, p: Params, candidates: seq<Cell>, ranked: seq<Cell>, examined: seq<Cell>,
                          hits: seq<Cell>, at: seq<nat>, j: nat, k: nat)
    requires Examines(m, p, candidates, ranked, examined) && Greedy(m, p, examined, |examined|, hits, at)
    requires j < ShownCount(p, |hits|) <= k < |hits|
    ensures LevelAt(m, hits[j]) >= LevelAt(m, hits[k])
  {
    hide OsPasses, InBox, LevelAt, Collects, Permutation, Descending;
    assert hits[j] == examined[at[j]] && hits[k] == examined[at[k]] && at[j] < at[k];
    Ordered(m, ranked, at[j], at[k]);
  }

  /** All tested cells are examined, up to the larger of 1024 and 32 per point to show. */
  lemma ExaminedCount(m: PowerMap, p: Params, candidates: seq<Cell>, ranked: seq<Cell>, examined: seq<Cell>)
    requires Examines(m, p, candidates, ranked, examined)
    ensures |examined| == Min(|candidates|, Larger(1024, 32 * Larger(1, p.maxPoints)))
  {
    SameLength(ranked, candidates);
    hide Collects, Permutation, Descending;
  }

  /** A tested cell is left unexamined only if the larger of 1024 and 32 per point to show were examined. */
  lemma LeftOutMeansFull(m: PowerMap, p: Params, candidates: seq<Cell>, ranked: seq<Cell>, examined: seq<Cell>,
                         cell: Cell)
    requires Examines(m, p, candidates, ranked, examined) && IsTested(m, p, cell) && cell !in examined
    ensures |examined| == Larger(1024, 32 * Larger(1, p.maxPoints))
    ensures |examined| < |candidates|
    ensures forall i | 0 <= i < |examined| :: LevelAt(m, examined[i]) >= LevelAt(m, cell)
  {
    PermutationMembers(ranked, candidates);
    TestedIsCollected(m, p, candidates, cell);
    hide Collects, IsTested, Permutation, Descending, LevelAt;
    assert forall j | 0 <= j < |examined| :: ranked[j] == examined[j];
    var k :| 0 <= k < |ranked| && ranked[k] == cell;
    forall i | 0 <= i < |examined|
      ensures LevelAt(m, examined[i]) >= LevelAt(m, cell)
    {
      Ordered(m, ranked, i, k);
    }
  }

  lemma TestedIsCollected(m: PowerMap, p: Params, candidates: seq<Cell>, cell: Cell)
    requires Collects(candidates, c => IsTested(m, p, c), Cell(m.rows, 0)) && IsTested(m, p, cell)
    ensures cell in candidates
  {
    assert Before(cell, Cell(m.rows, 0));
  }

  /** With no more tested cells than that, every one that passes lies in the box of a hit at least as strong. */
  lemma SmallMapsAreCovered(m: PowerMap, p: Params, candidates: seq<Cell>, ranked: seq<Cell>, examined: seq<Cell>,
                            hits: seq<Cell>, at: seq<nat>, cell: Cell)
    requires Examines(m, p, candidates, ranked, examined) && Greedy(m, p, examined, |examined|, hits, at)
    requires |candidates| <= Larger(1024, 32 * Larger(1, p.maxPoints))
    requires IsTested(m, p, cell) && OsPasses(m, p, cell)
    ensures exists k :: 0 <= k < |hits| && InBox(p, hits[k], cell) && LevelAt(m, hits[k]) >= LevelAt(m, cell)
  {
    hide Greedy, OsPasses, InBox, LevelAt, Collects, IsTested, Permutation, Descending;
    if cell !in examined {
      LeftOutMeansFull(m, p, candidates, ranked, examined, cell);
    }
    var i :| 0 <= i < |examined| && examined[i] == cell;
    HitsAreMaximal(m, p, candidates, ranked, examined, hits, at, i);
  }
}
