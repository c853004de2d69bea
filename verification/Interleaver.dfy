/**
 `BitBlockInterleaver`, and with the scrambler what the transmitter does to the coded bits of a packet and
 what undoes it.
 */
module Interleaver {
  import opened Ranking
  import opened Scrambler
  import opened Outcomes

  // ---------------------------------------------------------------------------------------------
  // The maps.

  /** The matrix transpose: where position i of the interleaved block comes from. */
  function Source(i: nat, rows: nat, cols: nat): nat
    requires rows > 0
  {
    Flat(Column(i, rows), Row(i, rows), cols)
  }

  /** The tables are 16 bits wide. */
  function Truncated(x: nat): nat {
    x % 0x1_0000
  }

  ghost predicate IsMap(map16: seq<nat>, rows: nat, cols: nat) {
    rows > 0 && |map16| == rows * cols && forall i | 0 <= i < |map16| :: map16[i] == Truncated(Source(i, rows, cols))
  }

  datatype Maps = Maps(blockSize: nat, interleave: seq<nat>, deinterleave: seq<nat>)

  ghost predicate AreMaps(m: Maps, rows: nat, cols: nat) {
    m.blockSize == rows * cols && IsMap(m.interleave, rows, cols) && IsMap(m.deinterleave, cols, rows)
  }

  /** The entry for matrix element (row, col) in the map of a matrix of columns. */
  lemma EntryIs(i: nat, row: nat, col: nat, rows: nat, cols: nat)
    requires row < rows && col < cols
    ensures Flat(col, row, rows) < rows * cols
    ensures i == Flat(col, row, rows) <==> Row(i, rows) == col && Column(i, rows) == row
    ensures Source(Flat(col, row, rows), rows, cols) == Flat(row, col, cols)
  {
    FlatInside(col, row, cols, rows);
    FlatIs(i, col, row, rows);
    FlatIs(Flat(col, row, rows), col, row, rows);
    hide Flat, Row, Column;
  }

  /** The first `done` entries in matrix order are filled in. */
  ghost predicate FilledTo(map16: seq<nat>, rows: nat, cols: nat, row: nat, col: nat) {
    && rows > 0 && cols > 0 && |map16| == rows * cols
    && forall i | 0 <= i < |map16| && (Column(i, rows) < row || (Column(i, rows) == row && Row(i, rows) < col)) ::
         map16[i] == Truncated(Source(i, rows, cols))
  }

  /** The other map is filled along its own rows. */
  ghost predicate FilledAcross(map16: seq<nat>, rows: nat, cols: nat, row: nat, col: nat) {
    && rows > 0 && cols > 0 && |map16| == rows * cols
    && forall i | 0 <= i < |map16| && (Row(i, cols) < row || (Row(i, cols) == row && Column(i, cols) < col)) ::
         map16[i] == Truncated(Source(i, cols, rows))
  }

  lemma FillStep(map16: seq<nat>, rows: nat, cols: nat, row: nat, col: nat)
    requires FilledTo(map16, rows, cols, row, col) && row < rows && col < cols
    ensures Flat(col, row, rows) < |map16|
    ensures FilledTo(map16[Flat(col, row, rows) := Truncated(Flat(row, col, cols))], rows, cols, row, col + 1)
  {
    EntryIs(0, row, col, rows, cols);
    forall i | 0 <= i < |map16|
      ensures i == Flat(col, row, rows) <==> Row(i, rows) == col && Column(i, rows) == row
    {
      EntryIs(i, row, col, rows, cols);
    }
    hide Flat, Row, Column, Source, Truncated;
  }

  lemma FillAcrossStep(map16: seq<nat>, rows: nat, cols: nat, row: nat, col: nat)
    requires FilledAcross(map16, rows, cols, row, col) && row < rows && col < cols
    ensures Flat(row, col, cols) < |map16|
    ensures FilledAcross(map16[Flat(row, col, cols) := Truncated(Flat(col, row, rows))], rows, cols, row, col + 1)
  {
    EntryIs(0, col, row, cols, rows);
    assert rows * cols == cols * rows;
    forall i | 0 <= i < |map16|
      ensures i == Flat(row, col, cols) <==> Row(i, cols) == row && Column(i, cols) == col
    {
      EntryIs(i, col, row, cols, rows);
    }
    hide Flat, Row, Column, Source, Truncated;
  }

  lemma NextMatrixRow(a: seq<nat>, b: seq<nat>, rows: nat, cols: nat, row: nat)
    requires FilledTo(a, rows, cols, row, cols) && FilledAcross(b, rows, cols, row, cols)
    ensures FilledTo(a, rows, cols, row + 1, 0) && FilledAcross(b, rows, cols, row + 1, 0)
  {
    forall i | 0 <= i < |a|
      ensures Row(i, rows) < cols
    {
      RowInside(i, cols, rows);
    }
    hide Row, Column, Source, Truncated;
  }

  lemma FilledIsMap(a: seq<nat>, b: seq<nat>, rows: nat, cols: nat)
    requires FilledTo(a, rows, cols, rows, 0) && FilledAcross(b, rows, cols, rows, 0)
    ensures IsMap(a, rows, cols) && IsMap(b, cols, rows)
  {
    forall i | 0 <= i < |b|
      ensures Row(i, cols) < rows
    {
      RowInside(i, rows, cols);
    }
    assert rows * cols == cols * rows;
    hide Row, Source, Truncated;
  }

  /** The constructor of `BitBlockInterleaver`. */
  method BuildMaps(blockSize: nat, rows: nat) returns (r: Result<Maps>)
    ensures r.Ok? <==> blockSize > 0 && rows > 0 && blockSize % rows == 0
    ensures r.Ok? ==> blockSize / rows > 0 && AreMaps(r.value, rows, blockSize / rows) && r.value.blockSize == blockSize
  {
    hide Flat, Truncated, FilledTo, FilledAcross, IsMap;
    var cols := if rows > 0 && blockSize % rows == 0 then blockSize / rows else 0;
    if blockSize == 0 || rows == 0 || cols == 0 {
      return Fail;
    }
    assert blockSize == rows * cols;
    var a: seq<nat>, b: seq<nat> := seq<nat>(blockSize, _ => 0), seq<nat>(blockSize, _ => 0);
    FillStarts(a, b, rows, cols);
    for row := 0 to rows
      invariant FilledTo(a, rows, cols, row, 0) && FilledAcross(b, rows, cols, row, 0)
    {
      for col := 0 to cols
        invariant FilledTo(a, rows, cols, row, col) && FilledAcross(b, rows, cols, row, col)
      {
        var src := Flat(row, col, cols);
        var dst := Flat(col, row, rows);
        FillStep(a, rows, cols, row, col);
        FillAcrossStep(b, rows, cols, row, col);
        a := a[dst := Truncated(src)];
        b := b[src := Truncated(dst)];
      }
      NextMatrixRow(a, b, rows, cols, row);
    }
    FilledIsMap(a, b, rows, cols);
    return Ok(Maps(blockSize, a, b));
  }

  lemma FillStarts(a: seq<nat>, b: seq<nat>, rows: nat, cols: nat)
    requires rows > 0 && cols > 0 && |a| == |b| == rows * cols
    ensures FilledTo(a, rows, cols, 0, 0) && FilledAcross(b, rows, cols, 0, 0)
  {
  }

  // ---------------------------------------------------------------------------------------------
  // Applying a map block by block.

  /** Position f of the result: its block, and inside it the place the map says. */
  function From(f: nat, map16: seq<nat>, blockSize: nat): nat
    requires blockSize > 0 && |map16| == blockSize
  {
    Flat(Row(f, blockSize), map16[Column(f, blockSize)], blockSize)
  }

  ghost predicate Fits(map16: seq<nat>, blockSize: nat) {
    blockSize > 0 && |map16| == blockSize && forall i | 0 <= i < blockSize :: map16[i] < blockSize
  }

  lemma FromInside(f: nat, map16: seq<nat>, blockSize: nat, blocks: nat)
    requires Fits(map16, blockSize) && f < blocks * blockSize
    ensures From(f, map16, blockSize) < blocks * blockSize
  {
    RowInside(f, blocks, blockSize);
    FlatInside(Row(f, blockSize), map16[Column(f, blockSize)], blocks, blockSize);
  }

  ghost function Applied<T>(values: seq<T>, map16: seq<nat>, blockSize: nat, blocks: nat): (r: seq<T>)
    requires Fits(map16, blockSize) && |values| == blocks * blockSize
    ensures |r| == |values|
  {
    seq(|values|, f requires 0 <= f < |values| =>
      (FromInside(f, map16, blockSize, blocks); values[From(f, map16, blockSize)]))
  }

  /** The map applied to one block, by way of the scratch buffer. */
  method ApplyToBlock<T>(values: array<T>, map16: seq<nat>, blockSize: nat, block: nat, blocks: nat, scratch: array<T>)
    requires Fits(map16, blockSize) && values.Length == blocks * blockSize && block < blocks
    requires scratch.Length == blockSize && scratch != values
    modifies values, scratch
    ensures forall f | 0 <= f < values.Length ::
              values[f] == if Row(f, blockSize) == block then Applied(old(values[..]), map16, blockSize, blocks)[f]
                           else old(values[f])
  {
    hide Flat, Row, Column;
    for i := 0 to blockSize
      invariant values[..] == old(values[..])
      invariant forall k | 0 <= k < i ::
                  && Flat(block, map16[k], blockSize) < values.Length
                  && scratch[k] == old(values[..])[Flat(block, map16[k], blockSize)]
    {
      FlatInside(block, map16[i], blocks, blockSize);
      scratch[i] := values[Flat(block, map16[i], blockSize)];
    }
    for i := 0 to blockSize
      invariant forall k | 0 <= k < blockSize ::
                  && Flat(block, map16[k], blockSize) < values.Length
                  && scratch[k] == old(values[..])[Flat(block, map16[k], blockSize)]
      invariant forall f | 0 <= f < values.Length ::
                  values[f] == if Row(f, blockSize) == block && Column(f, blockSize) < i
                               then Applied(old(values[..]), map16, blockSize, blocks)[f] else old(values[f])
    {
      FlatInside(block, i, blocks, blockSize);
      forall f | 0 <= f < values.Length
        ensures f == Flat(block, i, blockSize) <==> Row(f, blockSize) == block && Column(f, blockSize) == i
      {
        FlatIs(f, block, i, blockSize);
      }
      values[Flat(block, i, blockSize)] := scratch[i];
    }
  }

  /** `apply_map_inplace`. */
  method ApplyInPlace<T(0)>(values: array<T>, map16: seq<nat>, blockSize: nat) returns (ok: bool)
    requires Fits(map16, blockSize)
    modifies values
    ensures ok <==> values.Length % blockSize == 0
    ensures ok ==> values[..] == Applied(old(values[..]), map16, blockSize, values.Length / blockSize)
    ensures !ok ==> values[..] == old(values[..])
  {
    if values.Length == 0 {
      return true;
    }
    if values.Length % blockSize != 0 {
      return false;
    }
    var scratch := new T[blockSize];
    var blocks := values.Length / blockSize;
    assert values.Length == blocks * blockSize;
    hide Row, From, Fits;
    for block := 0 to blocks
      invariant forall f | 0 <= f < values.Length ::
                  values[f] == if Row(f, blockSize) < block then Applied(old(values[..]), map16, blockSize, blocks)[f]
                               else old(values[f])
    {
      ghost var before := values[..];
      ApplyToBlock(values, map16, blockSize, block, blocks, scratch);
      forall f | 0 <= f < values.Length && Row(f, blockSize) == block
        ensures Applied(before, map16, blockSize, blocks)[f] == Applied(old(values[..]), map16, blockSize, blocks)[f]
      {
        SameBlock(f, map16, blockSize, blocks);
      }
    }
    forall f | 0 <= f < values.Length
      ensures Row(f, blockSize) < blocks
    {
      RowInside(f, blocks, blockSize);
    }
    return true;
  }

  lemma SameBlock(f: nat, map16: seq<nat>, blockSize: nat, blocks: nat)
    requires Fits(map16, blockSize) && f < blocks * blockSize
    ensures From(f, map16, blockSize) < blocks * blockSize
    ensures Row(From(f, map16, blockSize), blockSize) == Row(f, blockSize)
    ensures Column(From(f, map16, blockSize), blockSize) == map16[Column(f, blockSize)]
  {
    FromInside(f, map16, blockSize, blocks);
    FlatIs(From(f, map16, blockSize), Row(f, blockSize), map16[Column(f, blockSize)], blockSize);
    hide Flat, Row, Column;
  }

  // ---------------------------------------------------------------------------------------------
  // Interleaving is undone, exactly if the block fits the tables.

  lemma SourceInside(i: nat, rows: nat, cols: nat)
    requires rows > 0 && i < rows * cols
    ensures Row(i, rows) < cols && Source(i, rows, cols) < rows * cols
  {
    assert rows * cols == cols * rows;
    RowInside(i, cols, rows);
    FlatInside(Column(i, rows), Row(i, rows), rows, cols);
  }

  /** Transposing twice is the identity. */
  lemma SourceInverse(i: nat, rows: nat, cols: nat)
    requires rows > 0 && cols > 0 && i < rows * cols
    ensures Source(i, rows, cols) < rows * cols && Source(Source(i, rows, cols), cols, rows) == i
  {
    SourceInside(i, rows, cols);
    var row, col := Column(i, rows), Row(i, rows);
    EntryIs(i, row, col, rows, cols);
    EntryIs(Source(i, rows, cols), col, row, cols, rows);
    hide Flat, Row, Column;
  }

  lemma MapsFit(m: Maps, rows: nat, cols: nat)
    requires rows > 0 && cols > 0 && AreMaps(m, rows, cols)
    ensures Fits(m.interleave, m.blockSize) && Fits(m.deinterleave, m.blockSize)
  {
    assert rows * cols == cols * rows;
    forall i | 0 <= i < m.blockSize
      ensures m.interleave[i] < m.blockSize && m.deinterleave[i] < m.blockSize
    {
      SourceInside(i, rows, cols);
      SourceInside(i, cols, rows);
    }
    assert m.blockSize > 0;
  }

  /** The two tables are permutations inverse to each other. */
  lemma MapsAreInverse(m: Maps, rows: nat, cols: nat, i: nat)
    requires rows > 0 && cols > 0 && AreMaps(m, rows, cols) && m.blockSize <= 0x1_0000 && i < m.blockSize
    ensures m.interleave[i] < m.blockSize && m.deinterleave[m.interleave[i]] == i
    ensures m.deinterleave[i] < m.blockSize && m.interleave[m.deinterleave[i]] == i
  {
    assert rows * cols == cols * rows;
    SourceInverse(i, rows, cols);
    SourceInverse(i, cols, rows);
    hide Source;
  }

  lemma Undone<T>(values: seq<T>, first: seq<nat>, second: seq<nat>, blockSize: nat, blocks: nat)
    requires Fits(first, blockSize) && Fits(second, blockSize) && |values| == blocks * blockSize
    requires forall i | 0 <= i < blockSize :: first[second[i]] == i
    ensures Applied(Applied(values, first, blockSize, blocks), second, blockSize, blocks) == values
  {
    forall f | 0 <= f < |values|
      ensures Applied(Applied(values, first, blockSize, blocks), second, blockSize, blocks)[f] == values[f]
    {
      SameBlock(f, second, blockSize, blocks);
      var g := From(f, second, blockSize);
      SameBlock(g, first, blockSize, blocks);
      FlatIs(f, Row(f, blockSize), Column(f, blockSize), blockSize);
    }
  }

  /** Deinterleaving undoes interleaving, and the other way round. */
  lemma InterleaveRoundTrip<T>(m: Maps, rows: nat, cols: nat, values: seq<T>, blocks: nat)
    requires rows > 0 && cols > 0 && AreMaps(m, rows, cols) && m.blockSize <= 0x1_0000
    requires |values| == blocks * m.blockSize
    ensures Fits(m.interleave, m.blockSize) && Fits(m.deinterleave, m.blockSize)
    ensures Applied(Applied(values, m.interleave, m.blockSize, blocks), m.deinterleave, m.blockSize, blocks) == values
    ensures Applied(Applied(values, m.deinterleave, m.blockSize, blocks), m.interleave, m.blockSize, blocks) == values
  {
    MapsFit(m, rows, cols);
    forall i | 0 <= i < m.blockSize
      ensures m.interleave[m.deinterleave[i]] == i && m.deinterleave[m.interleave[i]] == i
    {
      MapsAreInverse(m, rows, cols, i);
    }
    hide AreMaps;
    Undone(values, m.interleave, m.deinterleave, m.blockSize, blocks);
    Undone(values, m.deinterleave, m.interleave, m.blockSize, blocks);
  }

  /** The whole chain: scramble, interleave, deinterleave, descramble. */
  lemma ChainRoundTrip(m: Maps, rows: nat, cols: nat, bits: seq<bool>, key: seq<bool>, blocks: nat)
    requires rows > 0 && cols > 0 && AreMaps(m, rows, cols) && m.blockSize <= 0x1_0000
    requires |bits| == blocks * m.blockSize
    ensures Fits(m.interleave, m.blockSize) && Fits(m.deinterleave, m.blockSize)
    ensures var sent := Applied(Scrambled(bits, key), m.interleave, m.blockSize, blocks);
            Scrambled(Applied(sent, m.deinterleave, m.blockSize, blocks), key) == bits
  {
    InterleaveRoundTrip(m, rows, cols, Scrambled(bits, key), blocks);
    ScrambleTwice(bits, key);
  }

  /** A block too large for the 16-bit tables loses bits: two different blocks become the same. */
  lemma LargeBlockLoses(m: Maps, rows: nat, cols: nat)
    requires rows > 0 && cols > 0 && AreMaps(m, rows, cols) && m.blockSize > 0x1_0000
    ensures Fits(m.interleave, m.blockSize)
    ensures exists a: seq<bool>, b: seq<bool> :: |a| == m.blockSize && |b| == m.blockSize && a != b
              && Applied(a, m.interleave, m.blockSize, 1) == Applied(b, m.interleave, m.blockSize, 1)
  {
    MapsFit(m, rows, cols);
    var a: seq<bool> := seq(m.blockSize, _ => false);
    var b := a[0x1_0000 := true];
    forall f | 0 <= f < m.blockSize
      ensures Applied(a, m.interleave, m.blockSize, 1)[f] == Applied(b, m.interleave, m.blockSize, 1)[f]
    {
      FromInside(f, m.interleave, m.blockSize, 1);
      SameBlock(f, m.interleave, m.blockSize, 1);
      RowInside(f, 1, m.blockSize);
      assert m.interleave[Column(f, m.blockSize)] < 0x1_0000;
      FlatIs(From(f, m.interleave, m.blockSize), 0, m.interleave[Column(f, m.blockSize)], m.blockSize);
    }
    assert Applied(a, m.interleave, m.blockSize, 1) == Applied(b, m.interleave, m.blockSize, 1);
    assert a[0x1_0000] != b[0x1_0000];
  }

  /** Any two bits of a burst of at most `rows` interleaved bits come from places at least cols - 1 apart. */
  lemma BurstIsSpread(m: Maps, rows: nat, cols: nat, i: nat, j: nat)
    requires rows > 0 && cols > 0 && AreMaps(m, rows, cols) && m.blockSize <= 0x1_0000
    requires i < j < m.blockSize && j - i < rows
    ensures m.interleave[j] - m.interleave[i] >= cols - 1 || m.interleave[i] - m.interleave[j] >= cols - 1
  {
    SourceInside(i, rows, cols);
    SourceInside(j, rows, cols);
    BurstRows(i, j, rows);
    var r1, r2, c1, c2 := Column(i, rows), Column(j, rows), Row(i, rows), Row(j, rows);
    if r1 < r2 {
      RowFits(r1, r2, cols);
    } else {
      RowFits(r2, r1, cols);
    }
    hide Row, Column;
  }

  /** Close positions lie in the same or the next column of the matrix, in different rows. */
  lemma BurstRows(i: nat, j: nat, rows: nat)
    requires rows > 0 && i < j && j - i < rows
    ensures (Row(j, rows) == Row(i, rows) && Column(i, rows) < Column(j, rows))
            || (Row(j, rows) == Row(i, rows) + 1 && Column(j, rows) < Column(i, rows))
  {
    var q := Row(i, rows);
    assert i == q * rows + Column(i, rows);
    if Column(i, rows) + (j - i) < rows {
      assert j == Flat(q, Column(i, rows) + (j - i), rows);
      FlatIs(j, q, Column(i, rows) + (j - i), rows);
    } else {
      assert (q + 1) * rows == q * rows + rows;
      assert j == Flat(q + 1, Column(i, rows) + (j - i) - rows, rows);
      FlatIs(j, q + 1, Column(i, rows) + (j - i) - rows, rows);
    }
  }
}
