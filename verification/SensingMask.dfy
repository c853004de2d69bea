/**
 The compact sensing mask: the union of its blocks as offset and flat lists (`build_sensing_mask_layout`),
 and the test whether it samples the frame regularly (`analyze_compact_sensing_mask`).
 */
module SensingMask {
  import opened FrameConfig
  import opened Outcomes
  import opened Ranking
  import opened ResourceLayout

  // ---------------------------------------------------------------------------------------------
  // The union of the blocks.

  /** Some block covers the element. */
  predicate Picks(blocks: seq<Block>, s: nat, k: nat) {
    exists i :: 0 <= i < |blocks| && InRows(blocks[i], s) && InColumns(blocks[i], k)
  }

  predicate MaskBlockOk(cfg: Config, b: Block) {
    && b.symbolCount > 0 && b.scCount > 0
    && b.symbolStart + b.symbolCount <= cfg.numSymbols
    && b.scStart + b.scCount <= cfg.fftSize
    && (cfg.cfoTraining ==> !InRows(b, cfg.syncPos + 1))
  }

  ghost predicate MaskOk(cfg: Config, blocks: seq<Block>) {
    blocks != [] && forall i | 0 <= i < |blocks| :: MaskBlockOk(cfg, blocks[i])
  }

  ghost function RowMask(cfg: Config, blocks: seq<Block>, s: nat): (r: seq<bool>)
    ensures |r| == cfg.fftSize && forall k | 0 <= k < |r| :: r[k] <==> Picks(blocks, s, k)
  {
    seq(cfg.fftSize, k requires 0 <= k < cfg.fftSize => Picks(blocks, s, k))
  }

  /** The subcarriers selected in symbol s, in order. */
  ghost function Columns(cfg: Config, blocks: seq<Block>, s: nat): seq<nat> {
    Members(RowMask(cfg, blocks, s), cfg.fftSize)
  }

  ghost function SymbolMask(cfg: Config, blocks: seq<Block>): (r: seq<bool>)
    ensures |r| == cfg.numSymbols && forall s | 0 <= s < |r| :: r[s] <==> Columns(cfg, blocks, s) != []
  {
    seq(cfg.numSymbols, s requires 0 <= s < cfg.numSymbols => Columns(cfg, blocks, s) != [])
  }

  datatype Mask = Mask(symbols: seq<nat>, rankOf: seq<int>, offsets: seq<nat>, flat: seq<nat>)

  /** Between its two offsets, the flat list holds the selected subcarriers of the r-th selected symbol. */
  ghost predicate RowListed(cfg: Config, blocks: seq<Block>, m: Mask, r: nat) {
    && r < |m.symbols| && r + 1 < |m.offsets|
    && m.offsets[r] <= m.offsets[r + 1] <= |m.flat|
    && m.flat[m.offsets[r]..m.offsets[r + 1]] == Columns(cfg, blocks, m.symbols[r])
  }

  /** All rows, one after the other without gaps. */
  ghost predicate Lists(cfg: Config, blocks: seq<Block>, m: Mask) {
    && |m.offsets| == |m.symbols| + 1 && m.offsets[0] == 0 && m.offsets[|m.symbols|] == |m.flat|
    && forall r | 0 <= r < |m.symbols| :: RowListed(cfg, blocks, m, r)
  }

  ghost predicate IsMask(cfg: Config, blocks: seq<Block>, m: Mask) {
    && Lists(cfg, blocks, m)
    && m.symbols == Members(SymbolMask(cfg, blocks), cfg.numSymbols)
    && m.rankOf == Ranks(SymbolMask(cfg, blocks))
  }

  /** Being listed and being selected are the same. */
  lemma ListedIffPicked(cfg: Config, blocks: seq<Block>, s: nat, k: nat)
    requires k < cfg.fftSize
    ensures k in Columns(cfg, blocks, s) <==> Picks(blocks, s, k)
  {
    hide Picks;
    var mask := RowMask(cfg, blocks, s);
    if Picks(blocks, s, k) {
      MemberAt(mask, |mask|, k);
    }
    if k in Columns(cfg, blocks, s) {
      var r :| 0 <= r < |Members(mask, |mask|)| && Members(mask, |mask|)[r] == k;
      MembersAreSelected(mask, |mask|, r);
    }
  }

  // ---------------------------------------------------------------------------------------------
  // Building it.

  /** The flat mask after some blocks, and the rows and columns done of the next. */
  ghost predicate Paints(cfg: Config, mask: seq<bool>, blocks: seq<Block>) {
    && |mask| == cfg.numSymbols * cfg.fftSize && cfg.fftSize > 0
    && forall f | 0 <= f < |mask| :: mask[f] <==> Picks(blocks, Row(f, cfg.fftSize), Column(f, cfg.fftSize))
  }

  method PaintRow(cfg: Config, mask: seq<bool>, b: Block, s: nat) returns (r: seq<bool>)
    requires |mask| == cfg.numSymbols * cfg.fftSize && cfg.fftSize > 0
    requires s < cfg.numSymbols && b.scStart + b.scCount <= cfg.fftSize
    ensures |r| == |mask|
    ensures forall f | 0 <= f < |mask| ::
              r[f] <==> mask[f] || (Row(f, cfg.fftSize) == s && InColumns(b, Column(f, cfg.fftSize)))
  {
    hide Row, Column, Flat;
    r := mask;
    for k := b.scStart to b.scStart + b.scCount
      invariant |r| == |mask|
      invariant forall f | 0 <= f < |mask| ::
                  r[f] <==> mask[f] || (Row(f, cfg.fftSize) == s && b.scStart <= Column(f, cfg.fftSize) < k)
    {
      FlatInside(s, k, cfg.numSymbols, cfg.fftSize);
      forall f | 0 <= f < |mask|
        ensures f == Flat(s, k, cfg.fftSize) <==> Row(f, cfg.fftSize) == s && Column(f, cfg.fftSize) == k
      {
        FlatIs(f, s, k, cfg.fftSize);
      }
      r := r[Flat(s, k, cfg.fftSize) := true];
    }
  }

  method PaintBlock(cfg: Config, mask: seq<bool>, b: Block) returns (r: Result<seq<bool>>)
    requires |mask| == cfg.numSymbols * cfg.fftSize && cfg.fftSize > 0
    requires b.symbolStart + b.symbolCount <= cfg.numSymbols && b.scStart + b.scCount <= cfg.fftSize
    ensures r.Ok? <==> !(cfg.cfoTraining && InRows(b, cfg.syncPos + 1))
    ensures r.Ok? ==> |r.value| == |mask| && forall f | 0 <= f < |mask| ::
              r.value[f] <==> mask[f] || (InRows(b, Row(f, cfg.fftSize)) && InColumns(b, Column(f, cfg.fftSize)))
  {
    hide Row, Column, InColumns;
    var painted := mask;
    for s := b.symbolStart to b.symbolStart + b.symbolCount
      invariant |painted| == |mask|
      invariant cfg.cfoTraining ==> !(b.symbolStart <= cfg.syncPos + 1 < s)
      invariant forall f | 0 <= f < |mask| :: painted[f] <==>
                  mask[f] || (b.symbolStart <= Row(f, cfg.fftSize) < s && InColumns(b, Column(f, cfg.fftSize)))
    {
      if IsCfoTraining(cfg, s) {
        return Fail;
      }
      painted := PaintRow(cfg, painted, b, s);
    }
    return Ok(painted);
  }

  lemma PicksNext(blocks: seq<Block>, i: nat, s: nat, k: nat)
    requires i < |blocks|
    ensures Picks(blocks[..i + 1], s, k) <==>
            Picks(blocks[..i], s, k) || (InRows(blocks[i], s) && InColumns(blocks[i], k))
  {
    var now, before := blocks[..i + 1], blocks[..i];
    if Picks(before, s, k) {
      var j :| 0 <= j < |before| && InRows(before[j], s) && InColumns(before[j], k);
      assert now[j] == before[j];
    }
    if Picks(now, s, k) {
      var j :| 0 <= j < |now| && InRows(now[j], s) && InColumns(now[j], k);
      if j < i {
        assert now[j] == before[j];
      }
    }
    assert now[i] == blocks[i];
  }

  lemma PaintsNext(cfg: Config, mask: seq<bool>, r: seq<bool>, blocks: seq<Block>, i: nat)
    requires i < |blocks| && Paints(cfg, mask, blocks[..i]) && |r| == |mask|
    requires forall f | 0 <= f < |mask| ::
      r[f] <==> (mask[f] || (InRows(blocks[i], Row(f, cfg.fftSize)) && InColumns(blocks[i], Column(f, cfg.fftSize))))
    ensures Paints(cfg, r, blocks[..i + 1])
  {
    hide Picks, InRows, InColumns, Row, Column;
    forall f | 0 <= f < |mask|
      ensures r[f] <==> Picks(blocks[..i + 1], Row(f, cfg.fftSize), Column(f, cfg.fftSize))
    {
      PicksNext(blocks, i, Row(f, cfg.fftSize), Column(f, cfg.fftSize));
    }
  }

  method Paint(cfg: Config, blocks: seq<Block>) returns (r: Result<seq<bool>>)
    requires cfg.fftSize > 0
    ensures r.Ok? <==> forall i | 0 <= i < |blocks| :: MaskBlockOk(cfg, blocks[i])
    ensures r.Ok? ==> Paints(cfg, r.value, blocks)
  {
    hide InColumns, InRows, Row, Column;
    var mask := Falses(cfg.numSymbols * cfg.fftSize);
    assert blocks[..0] == [];
    for i := 0 to |blocks|
      invariant forall j | 0 <= j < i :: MaskBlockOk(cfg, blocks[j])
      invariant Paints(cfg, mask, blocks[..i])
    {
      var b := blocks[i];
      if b.symbolCount == 0 || b.scCount == 0 {
        return Fail;
      }
      if b.symbolStart >= cfg.numSymbols || b.symbolStart + b.symbolCount > cfg.numSymbols {
        return Fail;
      }
      if b.scStart >= cfg.fftSize || b.scStart + b.scCount > cfg.fftSize {
        return Fail;
      }
      var painted := PaintBlock(cfg, mask, b);
      if painted.Fail? {
        return Fail;
      }
      PaintsNext(cfg, mask, painted.value, blocks, i);
      mask := painted.value;
    }
    assert blocks[..|blocks|] == blocks;
    return Ok(mask);
  }

  /** One row of the mask, read off in order. */
  method ReadRow(cfg: Config, blocks: seq<Block>, mask: seq<bool>, s: nat) returns (row: seq<nat>)
    requires Paints(cfg, mask, blocks) && s < cfg.numSymbols
    ensures row == Columns(cfg, blocks, s)
  {
    hide Row, Column, Flat, Picks;
    row := [];
    for k := 0 to cfg.fftSize
      invariant row == Members(RowMask(cfg, blocks, s), k)
    {
      var f := Flat(s, k, cfg.fftSize);
      FlatInside(s, k, cfg.numSymbols, cfg.fftSize);
      FlatIs(f, s, k, cfg.fftSize);
      if !mask[f] {
        continue;
      }
      row := row + [k];
    }
  }

  lemma ListsMore(cfg: Config, blocks: seq<Block>, m: Mask, s: nat, row: seq<nat>, rankOf: seq<int>)
    requires Lists(cfg, blocks, m) && row == Columns(cfg, blocks, s)
    ensures Lists(cfg, blocks, Mask(m.symbols + [s], rankOf, m.offsets + [|m.flat| + |row|], m.flat + row))
  {
    hide Columns;
    var t := Mask(m.symbols + [s], rankOf, m.offsets + [|m.flat| + |row|], m.flat + row);
    forall r | 0 <= r < |t.symbols|
      ensures RowListed(cfg, blocks, t, r)
    {
      if r < |m.symbols| {
        assert RowListed(cfg, blocks, m, r);
        assert t.flat[t.offsets[r]..t.offsets[r + 1]] == m.flat[m.offsets[r]..m.offsets[r + 1]];
      } else {
        assert t.flat[t.offsets[r]..t.offsets[r + 1]] == row;
      }
    }
  }

  /** The listing loop. */
  method ListRows(cfg: Config, blocks: seq<Block>, mask: seq<bool>) returns (m: Mask)
    requires Paints(cfg, mask, blocks)
    ensures IsMask(cfg, blocks, m)
  {
    hide Paints, Columns, Lists;
    m := Mask([], seq(cfg.numSymbols, _ => -1), [0], []);
    EmptyLists(cfg, blocks, m);
    for s := 0 to cfg.numSymbols
      invariant Lists(cfg, blocks, m) && Numbered(cfg, blocks, m.symbols, m.rankOf, s)
    {
      var row := ReadRow(cfg, blocks, mask, s);
      NumberedNext(cfg, blocks, m.symbols, m.rankOf, s);
      if row == [] {
        continue;
      }
      ListsMore(cfg, blocks, m, s, row, m.rankOf[s := |m.symbols|]);
      m := Mask(m.symbols + [s], m.rankOf[s := |m.symbols|], m.offsets + [|m.flat| + |row|], m.flat + row);
    }
  }

  /** Symbols and ranks, up to symbol s. */
  ghost predicate Numbered(cfg: Config, blocks: seq<Block>, symbols: seq<nat>, rankOf: seq<int>, s: nat) {
    && s <= cfg.numSymbols == |rankOf| && symbols == Members(SymbolMask(cfg, blocks), s)
    && forall t | 0 <= t < cfg.numSymbols :: rankOf[t] == if t < s then Ranks(SymbolMask(cfg, blocks))[t] else -1
  }

  lemma NumberedNext(cfg: Config, blocks: seq<Block>, symbols: seq<nat>, rankOf: seq<int>, s: nat)
    requires s < cfg.numSymbols && Numbered(cfg, blocks, symbols, rankOf, s)
    ensures if Columns(cfg, blocks, s) == [] then Numbered(cfg, blocks, symbols, rankOf, s + 1)
            else Numbered(cfg, blocks, symbols + [s], rankOf[s := |symbols|], s + 1)
  {
    hide Columns;
  }

  lemma EmptyLists(cfg: Config, blocks: seq<Block>, m: Mask)
    requires m.symbols == [] && m.offsets == [0] && m.flat == []
    ensures Lists(cfg, blocks, m)
  {
  }

  lemma SomethingPicked(cfg: Config, blocks: seq<Block>, m: Mask)
    requires IsMask(cfg, blocks, m) && forall i | 0 <= i < |blocks| :: MaskBlockOk(cfg, blocks[i])
    ensures m.symbols != [] <==> blocks != []
    ensures m.flat != [] <==> blocks != []
  {
    if blocks != [] {
      var b := blocks[0];
      assert InRows(b, b.symbolStart) && InColumns(b, b.scStart);
      assert Picks(blocks, b.symbolStart, b.scStart);
      ListedIffPicked(cfg, blocks, b.symbolStart, b.scStart);
      hide Columns, Picks;
      MemberAt(SymbolMask(cfg, blocks), cfg.numSymbols, b.symbolStart);
      MembersAreSelected(SymbolMask(cfg, blocks), cfg.numSymbols, 0);
      assert RowListed(cfg, blocks, m, 0);
    } else if m.symbols != [] {
      MembersAreSelected(SymbolMask(cfg, blocks), cfg.numSymbols, 0);
      NothingPicked(cfg, m.symbols[0]);
    }
  }

  lemma NothingPicked(cfg: Config, s: nat)
    ensures Columns(cfg, [], s) == []
  {
    NoneTrue(RowMask(cfg, [], s), cfg.fftSize);
  }

  /** `build_sensing_mask_layout`. */
  method BuildMask(cfg: Config, blocks: seq<Block>) returns (r: Result<Mask>)
    ensures r.Ok? <==> cfg.numSymbols > 0 && cfg.fftSize > 0 && MaskOk(cfg, blocks)
    ensures r.Ok? ==> IsMask(cfg, blocks, r.value) && r.value.symbols != []
  {
    hide IsMask, MaskBlockOk, Paints;
    if cfg.numSymbols == 0 || cfg.fftSize == 0 {
      return Fail;
    }
    var mask := Paint(cfg, blocks);
    if mask.Fail? {
      return Fail;
    }
    var m := ListRows(cfg, blocks, mask.value);
    SomethingPicked(cfg, blocks, m);
    if |m.flat| == 0 {
      return Fail;
    }
    return Ok(m);
  }

  // ---------------------------------------------------------------------------------------------
  // Regular subsampling.

  /** `count` symbols, `stride` apart all around the frame, each with the same subcarriers. */
  ghost predicate Regular(cfg: Config, blocks: seq<Block>, first: nat, stride: nat, count: nat, columns: seq<nat>) {
    && count > 0 && first < stride && count * stride == cfg.numSymbols && columns != []
    && (forall k | k in columns :: k < cfg.fftSize)
    && forall s, k | 0 <= s < cfg.numSymbols && 0 <= k < cfg.fftSize ::
         Picks(blocks, s, k) <==> k in columns && exists i :: 0 <= i < count && s == Nth(first, stride, i)
  }

  function Nth(first: nat, stride: nat, i: nat): nat {
    first + i * stride
  }

  /** What the source tests on the lists. */
  ghost predicate Evenly(cfg: Config, m: Mask, gap: nat) {
    && m.symbols != [] && (forall r | 0 < r < |m.symbols| :: m.symbols[r] == m.symbols[r - 1] + gap)
    && cfg.numSymbols + m.symbols[0] == m.symbols[|m.symbols| - 1] + gap
  }

  ghost predicate SameRows(cfg: Config, blocks: seq<Block>, m: Mask) {
    m.symbols != [] && forall r | 0 <= r < |m.symbols| ::
      Columns(cfg, blocks, m.symbols[r]) == Columns(cfg, blocks, m.symbols[0])
  }

  lemma {:induction false} Progression(cfg: Config, m: Mask, gap: nat, r: nat)
    requires Evenly(cfg, m, gap) && r < |m.symbols|
    ensures m.symbols[r] == Nth(m.symbols[0], gap, r)
  {
    if r > 0 {
      Progression(cfg, m, gap, r - 1);
      assert r * gap == (r - 1) * gap + gap;
    }
  }

  /** Even gaps around the ring: count * gap is the frame, and the first symbol lies within the first gap. */
  lemma RingCloses(cfg: Config, blocks: seq<Block>, m: Mask, gap: nat)
    requires IsMask(cfg, blocks, m) && Evenly(cfg, m, gap)
    ensures |m.symbols| * gap == cfg.numSymbols && m.symbols[0] < gap
  {
    hide Lists, Columns, Nth;
    var last := |m.symbols| - 1;
    Progression(cfg, m, gap, last);
    MembersAreSelected(SymbolMask(cfg, blocks), cfg.numSymbols, last);
    ProductOfGaps(m.symbols[0], gap, |m.symbols|);
  }

  lemma ProductOfGaps(first: nat, gap: nat, count: nat)
    requires count > 0
    ensures Nth(first, gap, count - 1) + gap == first + count * gap
  {
    assert count * gap == (count - 1) * gap + gap;
  }

  lemma SymbolIffColumns(cfg: Config, blocks: seq<Block>, m: Mask, s: nat)
    requires IsMask(cfg, blocks, m) && s < cfg.numSymbols
    ensures s in m.symbols <==> Columns(cfg, blocks, s) != []
  {
    hide Lists, Columns;
    var mask := SymbolMask(cfg, blocks);
    if Columns(cfg, blocks, s) != [] {
      MemberAt(mask, cfg.numSymbols, s);
    }
    if s in m.symbols {
      var r :| 0 <= r < |m.symbols| && m.symbols[r] == s;
      MembersAreSelected(mask, cfg.numSymbols, r);
    }
  }

  lemma EvenlyIsRegular(cfg: Config, blocks: seq<Block>, m: Mask, gap: nat)
    requires IsMask(cfg, blocks, m) && Evenly(cfg, m, gap) && SameRows(cfg, blocks, m)
    ensures Regular(cfg, blocks, m.symbols[0], gap, |m.symbols|, Columns(cfg, blocks, m.symbols[0]))
  {
    RingCloses(cfg, blocks, m, gap);
    FirstColumns(cfg, blocks, m);
    hide Nth, Picks, Columns, IsMask, Evenly, SameRows;
    var first, count, columns := m.symbols[0], |m.symbols|, Columns(cfg, blocks, m.symbols[0]);
    forall s, k | 0 <= s < cfg.numSymbols && 0 <= k < cfg.fftSize
      ensures Picks(blocks, s, k) <==> k in columns && exists i :: 0 <= i < count && s == Nth(first, gap, i)
    {
      EvenElement(cfg, blocks, m, gap, s, k);
    }
  }

  lemma EvenElement(cfg: Config, blocks: seq<Block>, m: Mask, gap: nat, s: nat, k: nat)
    requires IsMask(cfg, blocks, m) && Evenly(cfg, m, gap) && SameRows(cfg, blocks, m)
    requires s < cfg.numSymbols && k < cfg.fftSize
    ensures Picks(blocks, s, k) <==>
            (k in Columns(cfg, blocks, m.symbols[0])
             && exists i :: 0 <= i < |m.symbols| && s == Nth(m.symbols[0], gap, i))
  {
    hide Nth, Picks, Columns, IsMask;
    ListedIffPicked(cfg, blocks, s, k);
    SymbolIffColumns(cfg, blocks, m, s);
    if Picks(blocks, s, k) {
      var r :| 0 <= r < |m.symbols| && m.symbols[r] == s;
      Progression(cfg, m, gap, r);
    }
    if i :| 0 <= i < |m.symbols| && s == Nth(m.symbols[0], gap, i) {
      Progression(cfg, m, gap, i);
    }
  }

  lemma FirstColumns(cfg: Config, blocks: seq<Block>, m: Mask)
    requires IsMask(cfg, blocks, m) && m.symbols != []
    ensures var columns := Columns(cfg, blocks, m.symbols[0]);
            columns != [] && forall k | k in columns :: k < cfg.fftSize
  {
    hide Lists;
    MembersAreSelected(SymbolMask(cfg, blocks), cfg.numSymbols, 0);
    var mask := RowMask(cfg, blocks, m.symbols[0]);
    var columns := Members(mask, cfg.fftSize);
    forall k | k in columns
      ensures k < cfg.fftSize
    {
      var r :| 0 <= r < |columns| && columns[r] == k;
      MembersAreSelected(mask, cfg.fftSize, r);
    }
  }

  ghost predicate Increasing(a: seq<nat>) {
    forall i, j | 0 <= i < j < |a| :: a[i] < a[j]
  }

  lemma LastIsLargest(a: seq<nat>)
    requires Increasing(a) && a != []
    ensures var x := a[|a| - 1]; var front := a[..|a| - 1];
            && a == front + [x] && x in a && x !in front && Increasing(front)
            && (forall y :: y in a <==> y in front || y == x) && forall y | y in a :: y <= x
  {
    var front := a[..|a| - 1];
    assert a == front + [a[|a| - 1]];
  }

  /** Increasing lists with the same members are the same list. */
  lemma {:induction false} IncreasingUnique(a: seq<nat>, b: seq<nat>)
    requires Increasing(a) && Increasing(b) && forall x :: x in a <==> x in b
    ensures a == b
  {
    assert b != [] ==> b[0] in b;
    if a != [] {
      LastIsLargest(a);
      assert a[|a| - 1] in b;
      LastIsLargest(b);
      hide Increasing;
      IncreasingUnique(a[..|a| - 1], b[..|b| - 1]);
    }
  }

  lemma NthGrows(first: nat, stride: nat, i: nat, j: nat)
    requires stride > 0
    ensures i < j ==> Nth(first, stride, i) < Nth(first, stride, j)
    ensures i < j ==> i * stride + stride <= j * stride
  {
    Monotone(i + 1, j, stride);
    assert (i + 1) * stride == i * stride + stride;
  }

  /** A regular mask selects exactly the symbols first, first + stride, ... */
  lemma RegularSymbols(cfg: Config, blocks: seq<Block>, m: Mask, first: nat, stride: nat, count: nat, columns: seq<nat>)
    requires IsMask(cfg, blocks, m) && Regular(cfg, blocks, first, stride, count, columns)
    ensures m.symbols == seq(count, i requires 0 <= i < count => Nth(first, stride, i))
  {
    var progression := seq(count, i requires 0 <= i < count => Nth(first, stride, i));
    RankedBijection(SymbolMask(cfg, blocks));
    hide Lists, Columns, Picks, Nth, Ranks, Members;
    forall i, j | 0 <= i < j < count
      ensures progression[i] < progression[j]
    {
      NthGrows(first, stride, i, j);
    }
    forall s
      ensures s in m.symbols <==> s in progression
    {
      if s in m.symbols {
        assert s < cfg.numSymbols;
        RegularSymbol(cfg, blocks, m, first, stride, count, columns, s);
        var i :| 0 <= i < count && s == Nth(first, stride, i);
        assert progression[i] == s;
      }
      if s in progression {
        var i :| 0 <= i < count && progression[i] == s;
        NthInFrame(first, stride, count, i);
        RegularSymbol(cfg, blocks, m, first, stride, count, columns, s);
      }
    }
    IncreasingUnique(m.symbols, progression);
  }

  lemma NthInFrame(first: nat, stride: nat, count: nat, i: nat)
    requires i < count && first < stride
    ensures Nth(first, stride, i) < count * stride
  {
    Monotone(i + 1, count, stride);
    assert (i + 1) * stride == i * stride + stride;
  }

  lemma RegularSymbol(cfg: Config, blocks: seq<Block>, m: Mask, first: nat, stride: nat, count: nat,
                      columns: seq<nat>, s: nat)
    requires IsMask(cfg, blocks, m) && Regular(cfg, blocks, first, stride, count, columns) && s < cfg.numSymbols
    ensures s in m.symbols <==> exists i :: 0 <= i < count && s == Nth(first, stride, i)
  {
    SymbolIffColumns(cfg, blocks, m, s);
    if s in m.symbols {
      var row := Columns(cfg, blocks, s);
      MembersAreSelected(RowMask(cfg, blocks, s), cfg.fftSize, 0);
      assert Picks(blocks, s, row[0]);
    }
    hide Columns, Picks, Nth, IsMask;
    if i :| 0 <= i < count && s == Nth(first, stride, i) {
      assert columns[0] in columns;
      assert Picks(blocks, s, columns[0]);
      ListedIffPicked(cfg, blocks, s, columns[0]);
    }
  }

  lemma RegularIsEvenly(cfg: Config, blocks: seq<Block>, m: Mask, first: nat, stride: nat, count: nat,
                        columns: seq<nat>)
    requires IsMask(cfg, blocks, m) && Regular(cfg, blocks, first, stride, count, columns)
    ensures Evenly(cfg, m, stride) && SameRows(cfg, blocks, m)
  {
    RegularSymbols(cfg, blocks, m, first, stride, count, columns);
    hide IsMask, Picks;
    assert m.symbols[0] == Nth(first, stride, 0);
    forall r | 0 < r < |m.symbols|
      ensures m.symbols[r] == m.symbols[r - 1] + stride
    {
      assert r * stride == (r - 1) * stride + stride;
    }
    assert count * stride == (count - 1) * stride + stride;
    hide Nth;
    forall r | 0 <= r < |m.symbols|
      ensures Columns(cfg, blocks, m.symbols[r]) == Columns(cfg, blocks, m.symbols[0])
    {
      NthInFrame(first, stride, count, r);
      NthInFrame(first, stride, count, 0);
      SameMasks(cfg, blocks, first, stride, count, columns, r);
      CountPrefix(RowMask(cfg, blocks, m.symbols[r]), RowMask(cfg, blocks, m.symbols[0]), cfg.fftSize);
    }
  }

  lemma SameMasks(cfg: Config, blocks: seq<Block>, first: nat, stride: nat, count: nat, columns: seq<nat>, r: nat)
    requires Regular(cfg, blocks, first, stride, count, columns) && r < count
    ensures forall k | 0 <= k < cfg.fftSize ::
              Picks(blocks, Nth(first, stride, r), k) <==> Picks(blocks, Nth(first, stride, 0), k)
  {
    NthInFrame(first, stride, count, r);
    NthInFrame(first, stride, count, 0);
    hide Picks, Nth;
  }

  // ---------------------------------------------------------------------------------------------
  // The analysis.

  /** The loop that compares each row with the first, element by element. */
  method CompareRows(cfg: Config, blocks: seq<Block>, m: Mask, common: seq<nat>) returns (same: bool)
    requires Lists(cfg, blocks, m) && m.symbols != [] && common == Columns(cfg, blocks, m.symbols[0])
    ensures same <==> SameRows(cfg, blocks, m)
  {
    hide Columns;
    for row := 1 to |m.symbols|
      invariant forall r | 0 <= r < row :: Columns(cfg, blocks, m.symbols[r]) == common
    {
      assert RowListed(cfg, blocks, m, row);
      var begin, end := m.offsets[row], m.offsets[row + 1];
      ghost var here := Columns(cfg, blocks, m.symbols[row]);
      if end - begin != |common| {
        assert here != common;
        return false;
      }
      for i := 0 to |common|
        invariant here[..i] == common[..i]
      {
        assert m.flat[begin + i] == here[i];
        if m.flat[begin + i] != common[i] {
          assert here != common;
          return false;
        }
      }
      assert here[..|common|] == here && common[..|common|] == common;
    }
    return true;
  }

  /** The expected gap, if the gaps are all equal, also around the end of the frame. */
  method EvenGap(cfg: Config, m: Mask) returns (even: bool, gap: nat)
    requires m.symbols != [] && m.symbols[|m.symbols| - 1] < cfg.numSymbols && Increasing(m.symbols)
    ensures even <==> exists g :: Evenly(cfg, m, g)
    ensures even ==> Evenly(cfg, m, gap)
  {
    gap := cfg.numSymbols;
    if |m.symbols| > 1 {
      gap := m.symbols[1] - m.symbols[0];
    }
    forall g | Evenly(cfg, m, g)
      ensures g == gap
    {
      if |m.symbols| > 1 {
        assert m.symbols[1] == m.symbols[1 - 1] + g;
      }
    }
    for row := 1 to |m.symbols|
      invariant forall r | 0 < r < row :: m.symbols[r] == m.symbols[r - 1] + gap
    {
      if m.symbols[row] - m.symbols[row - 1] != gap {
        return false, gap;
      }
    }
    even := cfg.numSymbols + m.symbols[0] - m.symbols[|m.symbols| - 1] == gap;
    assert even ==> Evenly(cfg, m, gap);
  }

  ghost predicate HasRegular(cfg: Config, blocks: seq<Block>) {
    exists first, stride, count, columns :: Regular(cfg, blocks, first, stride, count, columns)
  }

  /** `analyze_compact_sensing_mask`: regular exactly if the selected elements form a regular grid. */
  method Analyze(cfg: Config, blocks: seq<Block>, m: Mask) returns (regular: bool, stride: nat, common: seq<nat>)
    requires IsMask(cfg, blocks, m) && m.symbols != []
    ensures regular <==> HasRegular(cfg, blocks)
    ensures regular ==> Regular(cfg, blocks, m.symbols[0], stride, |m.symbols|, common)
    ensures !regular ==> stride == 0
    ensures common == Columns(cfg, blocks, m.symbols[0])
  {
    assert RowListed(cfg, blocks, m, 0);
    SymbolsAscend(cfg, blocks, m);
    hide Columns, Regular, IsMask, Evenly, Increasing;
    stride := 0;
    common := m.flat[m.offsets[0]..m.offsets[1]];
    var same := CompareRows(cfg, blocks, m, common);
    var even, gap := EvenGap(cfg, m);
    forall first, st, count, columns | Regular(cfg, blocks, first, st, count, columns)
      ensures same && even
    {
      RegularIsEvenly(cfg, blocks, m, first, st, count, columns);
    }
    if !same || !even {
      return false, 0, common;
    }
    EvenlyIsRegular(cfg, blocks, m, gap);
    return true, gap, common;
  }

  lemma SymbolsAscend(cfg: Config, blocks: seq<Block>, m: Mask)
    requires IsMask(cfg, blocks, m) && m.symbols != []
    ensures Increasing(m.symbols) && m.symbols[|m.symbols| - 1] < cfg.numSymbols && Lists(cfg, blocks, m)
  {
    hide Lists, Columns;
    RankedBijection(SymbolMask(cfg, blocks));
  }

  /** The list and offset arrays hold exactly the union of the blocks, each element once and in order. */
  lemma MaskListsUnion(cfg: Config, blocks: seq<Block>, m: Mask, s: nat, k: nat)
    requires IsMask(cfg, blocks, m) && s < cfg.numSymbols && k < cfg.fftSize
    ensures Picks(blocks, s, k) <==>
            exists r :: 0 <= r < |m.symbols| && m.symbols[r] == s && RowListed(cfg, blocks, m, r)
                          && k in m.flat[m.offsets[r]..m.offsets[r + 1]]
    ensures m.symbols != [] ==> Increasing(m.symbols)
    ensures Increasing(Columns(cfg, blocks, s))
  {
    ListedIffPicked(cfg, blocks, s, k);
    SymbolIffColumns(cfg, blocks, m, s);
    ColumnsAscend(cfg, blocks, s);
    if m.symbols != [] {
      SymbolsAscend(cfg, blocks, m);
    }
    hide Picks, Columns, SymbolMask, Increasing, Ranks, Members;
    if Picks(blocks, s, k) {
      var r :| 0 <= r < |m.symbols| && m.symbols[r] == s;
      assert RowListed(cfg, blocks, m, r);
    }
  }

  lemma ColumnsAscend(cfg: Config, blocks: seq<Block>, s: nat)
    ensures Increasing(Columns(cfg, blocks, s))
  {
    var mask := RowMask(cfg, blocks, s);
    RankedBijection(mask);
    assert Columns(cfg, blocks, s) == Members(mask, |mask|);
  }

  /** A mask block is accepted exactly if it covers something, nothing outside the frame and no training symbol. */
  lemma MaskBlockAcceptedIff(cfg: Config, b: Block)
    ensures MaskBlockOk(cfg, b) <==>
            && (exists s: nat, k: nat :: Covers(b, s, k))
            && (forall s: nat, k: nat | Covers(b, s, k) :: s < cfg.numSymbols && k < cfg.fftSize)
            && (cfg.cfoTraining ==> forall s: nat, k: nat | Covers(b, s, k) :: s != cfg.syncPos + 1)
  {
    if b.symbolCount > 0 && b.scCount > 0 {
      var s, k := b.symbolStart + b.symbolCount - 1, b.scStart + b.scCount - 1;
      assert Covers(b, s, k) && Covers(b, b.symbolStart, b.scStart);
      assert InRows(b, cfg.syncPos + 1) ==> Covers(b, cfg.syncPos + 1, k);
    }
  }
}
