/**
 `build_data_resource_grid_layout`: the elements of a frame that carry payload, sensing pilots or neither.
 */
module ResourceLayout {
  import opened FrameConfig
  import opened Outcomes
  import opened Ranking

  // ---------------------------------------------------------------------------------------------
  // What each element is, straight from the configuration.

  predicate IsPilot(cfg: Config, k: nat) {
    k in cfg.pilots
  }

  predicate IsMidframe(cfg: Config, s: nat) {
    s in cfg.midframe && InDownlink(cfg, s) && !IsReserved(cfg, s)
  }

  predicate IsData(cfg: Config, s: nat) {
    InDownlink(cfg, s) && !IsReserved(cfg, s) && !IsMidframe(cfg, s)
  }

  predicate InRows(b: Block, s: nat) {
    b.symbolStart <= s < b.symbolStart + b.symbolCount
  }

  predicate InColumns(b: Block, k: nat) {
    b.scStart <= k < b.scStart + b.scCount
  }

  /** One of the blocks of this kind covers the element. */
  predicate Covered(blocks: seq<Block>, sensing: bool, s: nat, k: nat) {
    exists i :: 0 <= i < |blocks| && blocks[i].sensing == sensing && InRows(blocks[i], s) && InColumns(blocks[i], k)
  }

  predicate IsSensing(cfg: Config, s: nat, k: nat) {
    cfg.blocksConfigured && Covered(cfg.blocks, true, s, k)
  }

  /** Payload yields to sensing pilots; without configured blocks everything is payload. */
  predicate IsPayload(cfg: Config, s: nat, k: nat) {
    (!cfg.blocksConfigured || Covered(cfg.blocks, false, s, k)) && !IsSensing(cfg, s, k)
  }

  predicate BlockOk(cfg: Config, b: Block) {
    && b.symbolCount > 0 && b.scCount > 0
    && b.symbolStart + b.symbolCount <= cfg.numSymbols
    && b.scStart + b.scCount <= cfg.fftSize
    && (b.sensing && cfg.cfoTraining && InDownlink(cfg, cfg.syncPos + 1) ==> !InRows(b, cfg.syncPos + 1))
  }

  predicate HeaderOk(cfg: Config) {
    && cfg.syncPos < cfg.numSymbols
    && (cfg.secSync ==> cfg.syncPos > 0)
    && (cfg.cfoTraining ==>
          cfg.syncPos + 1 < cfg.numSymbols && 0 < cfg.cfoPeriod < cfg.fftSize && cfg.fftSize % cfg.cfoPeriod == 0)
  }

  /** The configurations for which a layout is built; for all others the source throws. */
  ghost predicate LayoutOk(cfg: Config) {
    && HeaderOk(cfg) && DuplexOk(cfg)
    && (cfg.blocksConfigured ==> forall i | 0 <= i < |cfg.blocks| :: BlockOk(cfg, cfg.blocks[i]))
  }

  ghost function DataMask(cfg: Config): (r: seq<bool>)
    ensures |r| == cfg.numSymbols
  {
    seq(cfg.numSymbols, s requires 0 <= s < cfg.numSymbols => IsData(cfg, s))
  }

  ghost function NonPilotMask(cfg: Config): (r: seq<bool>)
    ensures |r| == cfg.fftSize
  {
    seq(cfg.fftSize, k requires 0 <= k < cfg.fftSize => !IsPilot(cfg, k))
  }

  // ---------------------------------------------------------------------------------------------
  // The layout.

  datatype Layout = Layout(
    pilotMask: seq<bool>,
    columnOf: seq<int>,
    nonPilots: seq<nat>,
    rowOf: seq<int>,
    dataSymbols: seq<nat>,
    rowOffsets: seq<nat>,
    payloadMask: seq<bool>,
    sensingMask: seq<bool>,
    payloadRank: seq<int>,
    payloadOffsets: seq<nat>,
    payloadCount: nat,
    sensingCount: nat)

  ghost predicate Tables(cfg: Config, l: Layout) {
    && |l.pilotMask| == cfg.fftSize && (forall k | 0 <= k < cfg.fftSize :: l.pilotMask[k] <==> IsPilot(cfg, k))
    && l.columnOf == Ranks(NonPilotMask(cfg)) && l.nonPilots == Members(NonPilotMask(cfg), cfg.fftSize)
    && l.rowOf == Ranks(DataMask(cfg)) && l.dataSymbols == Members(DataMask(cfg), cfg.numSymbols)
    && |l.rowOffsets| == |l.dataSymbols| + 1
    && (forall d | 0 <= d <= |l.dataSymbols| :: l.rowOffsets[d] == d * |l.nonPilots|)
  }

  /** The number of elements, the symbol of element f, and its subcarrier. */
  function Size(l: Layout): nat {
    |l.dataSymbols| * |l.nonPilots|
  }

  lemma HasColumns(l: Layout, f: nat)
    requires f < Size(l)
    ensures |l.nonPilots| > 0 && Row(f, |l.nonPilots|) < |l.dataSymbols|
  {
    if |l.nonPilots| > 0 {
      RowInside(f, |l.dataSymbols|, |l.nonPilots|);
    }
  }

  function SymbolOf(l: Layout, f: nat): nat
    requires f < Size(l)
  {
    HasColumns(l, f);
    l.dataSymbols[Row(f, |l.nonPilots|)]
  }

  function SubcarrierOf(l: Layout, f: nat): nat
    requires f < Size(l)
  {
    HasColumns(l, f);
    l.nonPilots[Column(f, |l.nonPilots|)]
  }

  ghost predicate IsLayout(cfg: Config, l: Layout) {
    && Tables(cfg, l)
    && |l.sensingMask| == Size(l) && |l.payloadMask| == Size(l)
    && (forall f | 0 <= f < Size(l) :: l.sensingMask[f] <==> IsSensing(cfg, SymbolOf(l, f), SubcarrierOf(l, f)))
    && (forall f | 0 <= f < Size(l) :: l.payloadMask[f] <==> IsPayload(cfg, SymbolOf(l, f), SubcarrierOf(l, f)))
    && l.payloadRank == Ranks(l.payloadMask)
    && |l.payloadOffsets| == |l.rowOffsets|
    && (forall d | 0 <= d < |l.rowOffsets| :: l.rowOffsets[d] <= |l.payloadMask|
          && l.payloadOffsets[d] == CountTrue(l.payloadMask, l.rowOffsets[d]))
    && l.payloadCount == CountTrue(l.payloadMask, |l.payloadMask|)
    && l.sensingCount == CountTrue(l.sensingMask, |l.sensingMask|)
  }

  // ---------------------------------------------------------------------------------------------
  // The loops over blocks.

  /** Row d, column n is given by symbol `dataSymbols[d]`, subcarrier `nonPilots[n]`, and vice versa. */
  lemma TablesInverse(cfg: Config, l: Layout)
    requires Tables(cfg, l)
    ensures forall d | 0 <= d < |l.dataSymbols| ::
              l.dataSymbols[d] < cfg.numSymbols && IsData(cfg, l.dataSymbols[d]) && l.rowOf[l.dataSymbols[d]] == d
    ensures forall s | 0 <= s < cfg.numSymbols && IsData(cfg, s) ::
              0 <= l.rowOf[s] < |l.dataSymbols| && l.dataSymbols[l.rowOf[s]] == s
    ensures forall s | 0 <= s < cfg.numSymbols && !IsData(cfg, s) :: l.rowOf[s] == -1
    ensures forall n | 0 <= n < |l.nonPilots| ::
              l.nonPilots[n] < cfg.fftSize && !IsPilot(cfg, l.nonPilots[n]) && l.columnOf[l.nonPilots[n]] == n
    ensures forall k | 0 <= k < cfg.fftSize && !IsPilot(cfg, k) ::
              0 <= l.columnOf[k] < |l.nonPilots| && l.nonPilots[l.columnOf[k]] == k
    ensures forall d, e | 0 <= d < e < |l.dataSymbols| :: l.dataSymbols[d] < l.dataSymbols[e]
    ensures forall n, m | 0 <= n < m < |l.nonPilots| :: l.nonPilots[n] < l.nonPilots[m]
  {
    RankedBijection(DataMask(cfg));
    RankedBijection(NonPilotMask(cfg));
    hide IsData, IsPilot;
    assert forall s | 0 <= s < cfg.numSymbols :: DataMask(cfg)[s] == IsData(cfg, s);
    assert forall k | 0 <= k < cfg.fftSize :: NonPilotMask(cfg)[k] == !IsPilot(cfg, k);
  }

  lemma ElementIs(l: Layout, f: nat, d: nat, n: nat)
    requires f < Size(l) && d < |l.dataSymbols| && n < |l.nonPilots|
    requires forall d, e | 0 <= d < e < |l.dataSymbols| :: l.dataSymbols[d] < l.dataSymbols[e]
    requires forall n, m | 0 <= n < m < |l.nonPilots| :: l.nonPilots[n] < l.nonPilots[m]
    ensures f == Flat(d, n, |l.nonPilots|) <==>
            SymbolOf(l, f) == l.dataSymbols[d] && SubcarrierOf(l, f) == l.nonPilots[n]
  {
    HasColumns(l, f);
    FlatIs(f, d, n, |l.nonPilots|);
    hide Row, Column, Flat;
  }

  /** One symbol of a block: the subcarriers of row d that the block covers are set. */
  method MarkRow(cfg: Config, l: Layout, mask: seq<bool>, b: Block, d: nat) returns (r: seq<bool>)
    requires Tables(cfg, l) && |mask| == Size(l) && d < |l.dataSymbols| && b.scStart + b.scCount <= cfg.fftSize
    ensures |r| == |mask|
    ensures forall f | 0 <= f < |mask| ::
              r[f] <==> mask[f] || (SymbolOf(l, f) == l.dataSymbols[d] && InColumns(b, SubcarrierOf(l, f)))
  {
    TablesInverse(cfg, l);
    hide IsData, Flat, Ranks, Members, DataMask, NonPilotMask, SymbolOf, SubcarrierOf;
    r := mask;
    for k := b.scStart to b.scStart + b.scCount
      invariant |r| == |mask|
      invariant forall f | 0 <= f < |mask| ::
                  r[f] <==> mask[f] || (SymbolOf(l, f) == l.dataSymbols[d] && b.scStart <= SubcarrierOf(l, f) < k)
    {
      if l.pilotMask[k] {
        NotAColumn(cfg, l, k);
        continue;
      }
      var column := l.columnOf[k];
      FlatInside(d, column, |l.dataSymbols|, |l.nonPilots|);
      forall f | 0 <= f < |mask|
        ensures f == Flat(d, column, |l.nonPilots|) <==> SymbolOf(l, f) == l.dataSymbols[d] && SubcarrierOf(l, f) == k
      {
        ElementIs(l, f, d, column);
      }
      r := r[Flat(d, column, |l.nonPilots|) := true];
    }
  }

  lemma NotAColumn(cfg: Config, l: Layout, k: nat)
    requires Tables(cfg, l) && IsPilot(cfg, k)
    ensures forall f | 0 <= f < Size(l) :: SubcarrierOf(l, f) != k
  {
    TablesInverse(cfg, l);
    forall f | 0 <= f < Size(l)
      ensures SubcarrierOf(l, f) != k
    {
      HasColumns(l, f);
    }
  }

  ghost predicate CfoClash(cfg: Config, b: Block) {
    b.sensing && cfg.cfoTraining && InDownlink(cfg, cfg.syncPos + 1) && InRows(b, cfg.syncPos + 1)
  }

  /** What the duplex layout and the mid-frame mask say about the symbols of the frame. */
  ghost predicate Knows(cfg: Config, duplex: Duplex, mid: seq<bool>) {
    && |mid| == cfg.numSymbols && (forall s | 0 <= s < cfg.numSymbols :: mid[s] <==> IsMidframe(cfg, s))
    && forall s: nat :: duplex.IsDownlink(s) <==> InDownlink(cfg, s)
  }

  /** One block: its elements on data symbols are set, unless it claims the CFO training field for sensing. */
  method MarkBlock(cfg: Config, duplex: Duplex, mid: seq<bool>, l: Layout, mask: seq<bool>, b: Block)
    returns (r: Result<seq<bool>>)
    requires Tables(cfg, l) && Knows(cfg, duplex, mid) && |mask| == Size(l)
    requires b.symbolStart + b.symbolCount <= cfg.numSymbols && b.scStart + b.scCount <= cfg.fftSize
    ensures r.Ok? <==> !CfoClash(cfg, b)
    ensures r.Ok? ==> |r.value| == |mask| && forall f | 0 <= f < |mask| ::
              r.value[f] <==> mask[f] || (InRows(b, SymbolOf(l, f)) && InColumns(b, SubcarrierOf(l, f)))
  {
    TablesInverse(cfg, l);
    hide SymbolOf, SubcarrierOf, InDownlink, InColumns, Tables, Duplex.IsDownlink;
    var marked := mask;
    for s := b.symbolStart to b.symbolStart + b.symbolCount
      invariant |marked| == |mask|
      invariant forall f | 0 <= f < |mask| :: marked[f] <==>
                  mask[f] || (b.symbolStart <= SymbolOf(l, f) < s && InColumns(b, SubcarrierOf(l, f)))
      invariant CfoClash(cfg, b) ==> cfg.syncPos + 1 >= s
    {
      if !duplex.IsDownlink(s) || IsReserved(cfg, s) || mid[s] {
        NotARow(cfg, l, s);
        if duplex.IsDownlink(s) && b.sensing && IsCfoTraining(cfg, s) {
          return Fail;
        }
        continue;
      }
      marked := MarkRow(cfg, l, marked, b, l.rowOf[s]);
    }
    return Ok(marked);
  }

  lemma NotARow(cfg: Config, l: Layout, s: nat)
    requires Tables(cfg, l) && !IsData(cfg, s)
    ensures forall f | 0 <= f < Size(l) :: SymbolOf(l, f) != s
  {
    TablesInverse(cfg, l);
    forall f | 0 <= f < Size(l)
      ensures SymbolOf(l, f) != s
    {
      HasColumns(l, f);
    }
  }

  lemma CoveredNext(blocks: seq<Block>, i: nat, sensing: bool, s: nat, k: nat)
    requires i < |blocks|
    ensures Covered(blocks[..i + 1], sensing, s, k) <==>
            Covered(blocks[..i], sensing, s, k)
            || (blocks[i].sensing == sensing && InRows(blocks[i], s) && InColumns(blocks[i], k))
  {
    var now, before := blocks[..i + 1], blocks[..i];
    if Covered(before, sensing, s, k) {
      var j :| 0 <= j < |before| && before[j].sensing == sensing && InRows(before[j], s) && InColumns(before[j], k);
      assert now[j] == before[j];
    }
    if Covered(now, sensing, s, k) {
      var j :| 0 <= j < |now| && now[j].sensing == sensing && InRows(now[j], s) && InColumns(now[j], k);
      if j < i {
        assert now[j] == before[j];
      }
    }
    assert now[i] == blocks[i];
  }

  ghost predicate Marks(mask: seq<bool>, l: Layout, blocks: seq<Block>, sensing: bool) {
    |mask| == Size(l) && forall f | 0 <= f < Size(l) ::
      mask[f] <==> Covered(blocks, sensing, SymbolOf(l, f), SubcarrierOf(l, f))
  }

  lemma MarksNext(mask: seq<bool>, r: seq<bool>, l: Layout, blocks: seq<Block>, i: nat, sensing: bool)
    requires i < |blocks| && Marks(mask, l, blocks[..i], sensing) && |r| == |mask|
    requires forall f | 0 <= f < |mask| ::
      r[f] <==> (mask[f] || (blocks[i].sensing == sensing && InRows(blocks[i], SymbolOf(l, f))
                             && InColumns(blocks[i], SubcarrierOf(l, f))))
    ensures Marks(r, l, blocks[..i + 1], sensing)
  {
    hide Covered, InRows, InColumns, SymbolOf, SubcarrierOf;
    forall f | 0 <= f < Size(l)
      ensures r[f] <==> Covered(blocks[..i + 1], sensing, SymbolOf(l, f), SubcarrierOf(l, f))
    {
      CoveredNext(blocks, i, sensing, SymbolOf(l, f), SubcarrierOf(l, f));
    }
  }

  /** All blocks, in order; the first bad one stops the construction. */
  method MarkBlocks(cfg: Config, duplex: Duplex, mid: seq<bool>, l: Layout) returns (r: Result<(seq<bool>, seq<bool>)>)
    requires Tables(cfg, l) && Knows(cfg, duplex, mid)
    ensures r.Ok? <==> forall i | 0 <= i < |cfg.blocks| :: BlockOk(cfg, cfg.blocks[i])
    ensures r.Ok? ==> Marks(r.value.0, l, cfg.blocks, false) && Marks(r.value.1, l, cfg.blocks, true)
  {
    hide SymbolOf, SubcarrierOf, InDownlink, InColumns, InRows, Tables, Knows;
    var payload, sensing := Falses(Size(l)), Falses(Size(l));
    assert cfg.blocks[..0] == [];
    for i := 0 to |cfg.blocks|
      invariant forall j | 0 <= j < i :: BlockOk(cfg, cfg.blocks[j])
      invariant Marks(payload, l, cfg.blocks[..i], false) && Marks(sensing, l, cfg.blocks[..i], true)
    {
      var b := cfg.blocks[i];
      if b.symbolCount == 0 || b.scCount == 0 {
        return Fail;
      }
      if b.symbolStart >= cfg.numSymbols || b.symbolStart + b.symbolCount > cfg.numSymbols {
        return Fail;
      }
      if b.scStart >= cfg.fftSize || b.scStart + b.scCount > cfg.fftSize {
        return Fail;
      }
      var marked := MarkBlock(cfg, duplex, mid, l, if b.sensing then sensing else payload, b);
      if marked.Fail? {
        return Fail;
      }
      MarksNext(payload, if b.sensing then payload else marked.value, l, cfg.blocks, i, false);
      MarksNext(sensing, if b.sensing then marked.value else sensing, l, cfg.blocks, i, true);
      if b.sensing {
        sensing := marked.value;
      } else {
        payload := marked.value;
      }
    }
    assert cfg.blocks[..|cfg.blocks|] == cfg.blocks;
    return Ok((payload, sensing));
  }

  // ---------------------------------------------------------------------------------------------
  // The other loops.

  method MarkMidframe(cfg: Config, duplex: Duplex) returns (mid: seq<bool>, count: nat)
    requires forall s: nat :: duplex.IsDownlink(s) <==> InDownlink(cfg, s)
    ensures |mid| == cfg.numSymbols && forall s | 0 <= s < cfg.numSymbols :: mid[s] <==> IsMidframe(cfg, s)
    ensures forall s | 0 <= s < cfg.numSymbols ::
              mid[s] <==> s in cfg.midframe && InDownlink(cfg, s) && !IsReserved(cfg, s)
    ensures count == CountTrue(mid, |mid|)
  {
    hide InDownlink, IsReserved, Duplex.IsDownlink;
    mid, count := Falses(cfg.numSymbols), 0;
    NoneTrue(mid, |mid|);
    for i := 0 to |cfg.midframe|
      invariant |mid| == cfg.numSymbols && count == CountTrue(mid, |mid|)
      invariant forall s | 0 <= s < cfg.numSymbols ::
                  mid[s] <==> s in cfg.midframe[..i] && InDownlink(cfg, s) && !IsReserved(cfg, s)
    {
      var s := cfg.midframe[i];
      assert cfg.midframe[..i + 1] == cfg.midframe[..i] + [s];
      if s >= cfg.numSymbols || !duplex.IsDownlink(s) || IsReserved(cfg, s) || mid[s] {
        continue;
      }
      CountSet(mid, s, |mid|);
      mid := mid[s := true];
      count := count + 1;
    }
    assert cfg.midframe[..|cfg.midframe|] == cfg.midframe;
  }

  /** The downlink symbols; with `reserved`, those of them that are reserved. */
  ghost function DownlinkMask(cfg: Config, reserved: bool): (r: seq<bool>)
    ensures |r| == cfg.numSymbols
  {
    seq(cfg.numSymbols, s requires 0 <= s < cfg.numSymbols => InDownlink(cfg, s) && (reserved ==> IsReserved(cfg, s)))
  }

  /** The counts the source compares: reserved and mid-frame symbols never outnumber the downlink ones. */
  method CountSymbols(cfg: Config, duplex: Duplex, mid: seq<bool>) returns (downlink: nat, reserved: nat)
    requires Knows(cfg, duplex, mid)
    ensures downlink == CountTrue(DownlinkMask(cfg, false), cfg.numSymbols)
    ensures reserved == CountTrue(DownlinkMask(cfg, true), cfg.numSymbols)
    ensures reserved + CountTrue(mid, |mid|) <= downlink
  {
    hide InDownlink, IsReserved, Duplex.IsDownlink;
    downlink, reserved := 0, 0;
    for s := 0 to cfg.numSymbols
      invariant downlink == CountTrue(DownlinkMask(cfg, false), s) && reserved == CountTrue(DownlinkMask(cfg, true), s)
      invariant reserved + CountTrue(mid, s) <= downlink
    {
      if !duplex.IsDownlink(s) {
        continue;
      }
      downlink := downlink + 1;
      if IsReserved(cfg, s) {
        reserved := reserved + 1;
      }
    }
  }

  /** Sensing pilots take precedence over payload. */
  method StripSensing(payload: seq<bool>, sensing: seq<bool>) returns (stripped: seq<bool>, count: nat)
    requires |payload| == |sensing|
    ensures |stripped| == |payload| && forall f | 0 <= f < |payload| :: stripped[f] <==> payload[f] && !sensing[f]
    ensures count == CountTrue(sensing, |sensing|)
  {
    stripped, count := payload, 0;
    for f := 0 to |payload|
      invariant |stripped| == |payload| && count == CountTrue(sensing, f)
      invariant forall i | 0 <= i < |payload| :: stripped[i] <==> payload[i] && !(i < f && sensing[i])
    {
      if !sensing[f] {
        continue;
      }
      if stripped[f] {
        stripped := stripped[f := false];
      }
      count := count + 1;
    }
  }

  /** One row of the numbering: the elements from `base` on. */
  method RankRow(mask: seq<bool>, base: nat, width: nat, before: seq<int>, start: nat)
    returns (rank: seq<int>, count: nat)
    requires base + width <= |mask| == |before| && start == CountTrue(mask, base)
    requires forall k | 0 <= k < |mask| :: before[k] == if k < base then Ranks(mask)[k] else -1
    ensures |rank| == |mask| && count == CountTrue(mask, base + width)
    ensures forall k | 0 <= k < |mask| :: rank[k] == if k < base + width then Ranks(mask)[k] else -1
  {
    rank, count := before, start;
    for n := 0 to width
      invariant |rank| == |mask| && count == CountTrue(mask, base + n)
      invariant forall k | 0 <= k < |mask| :: rank[k] == if k < base + n then Ranks(mask)[k] else -1
    {
      var f := base + n;
      if !mask[f] {
        continue;
      }
      rank := rank[f := count];
      count := count + 1;
    }
  }

  /** The nested loops that number the payload elements and sum them up row by row. */
  method RankPayload(mask: seq<bool>, rowOffsets: seq<nat>, width: nat)
    returns (rank: seq<int>, offsets: seq<nat>, count: nat)
    requires rowOffsets != [] && |mask| == (|rowOffsets| - 1) * width
    requires forall d | 0 <= d < |rowOffsets| :: rowOffsets[d] == d * width
    ensures rank == Ranks(mask) && count == CountTrue(mask, |mask|) && |offsets| == |rowOffsets|
    ensures forall d | 0 <= d < |rowOffsets| :: rowOffsets[d] <= |mask| && offsets[d] == CountTrue(mask, rowOffsets[d])
  {
    var rows := |rowOffsets| - 1;
    rank, offsets, count := seq(|mask|, _ => -1), seq(rows + 1, _ => 0), 0;
    for d := 0 to rows
      invariant rowOffsets[d] <= |mask|
      invariant |rank| == |mask| && |offsets| == rows + 1 && count == CountTrue(mask, rowOffsets[d])
      invariant forall k | 0 <= k < |mask| :: rank[k] == if k < rowOffsets[d] then Ranks(mask)[k] else -1
      invariant forall e | 0 <= e <= d :: rowOffsets[e] <= |mask| && offsets[e] == CountTrue(mask, rowOffsets[e])
    {
      RowFits(d, rows, width);
      assert rowOffsets[d + 1] == rowOffsets[d] + width;
      hide CountTrue, Ranks;
      rank, count := RankRow(mask, rowOffsets[d], width, rank, count);
      offsets := offsets[d + 1 := count];
    }
  }

  // ---------------------------------------------------------------------------------------------
  // The whole construction.

  method MarkPilots(cfg: Config) returns (pilotMask: seq<bool>)
    ensures |pilotMask| == cfg.fftSize && forall k | 0 <= k < cfg.fftSize :: pilotMask[k] <==> IsPilot(cfg, k)
  {
    pilotMask := Falses(cfg.fftSize);
    for i := 0 to |cfg.pilots|
      invariant |pilotMask| == cfg.fftSize
      invariant forall k | 0 <= k < cfg.fftSize :: pilotMask[k] <==> k in cfg.pilots[..i]
    {
      assert cfg.pilots[..i + 1] == cfg.pilots[..i] + [cfg.pilots[i]];
      if cfg.pilots[i] < cfg.fftSize {
        pilotMask := pilotMask[cfg.pilots[i] := true];
      }
    }
    assert cfg.pilots[..|cfg.pilots|] == cfg.pilots;
  }

  method BuildTables(cfg: Config, duplex: Duplex, mid: seq<bool>) returns (l: Layout)
    requires Knows(cfg, duplex, mid)
    ensures Tables(cfg, l)
  {
    var pilotMask := MarkPilots(cfg);
    hide InDownlink, IsReserved, Duplex.IsDownlink, Tables;
    var columns := seq(cfg.fftSize, k requires 0 <= k < |pilotMask| => !pilotMask[k]);
    var columnOf, nonPilots := Enumerate(columns);
    var rows := DataRows(cfg, duplex, mid);
    var rowOf, dataSymbols := Enumerate(rows);
    var rowOffsets := seq(|dataSymbols| + 1, d requires 0 <= d <= |dataSymbols| => d * |nonPilots|);
    l := Layout(pilotMask, columnOf, nonPilots, rowOf, dataSymbols, rowOffsets, [], [], [], [], 0, 0);
    TablesFrom(cfg, columns, rows, l);
  }

  method DataRows(cfg: Config, duplex: Duplex, mid: seq<bool>) returns (rows: seq<bool>)
    requires Knows(cfg, duplex, mid)
    ensures rows == DataMask(cfg)
  {
    hide InDownlink, IsReserved, Duplex.IsDownlink;
    rows := seq(cfg.numSymbols,
                s requires 0 <= s < |mid| => duplex.IsDownlink(s) && !IsReserved(cfg, s) && !mid[s]);
  }

  lemma TablesFrom(cfg: Config, columns: seq<bool>, rows: seq<bool>, l: Layout)
    requires |l.pilotMask| == cfg.fftSize && forall k | 0 <= k < cfg.fftSize :: l.pilotMask[k] <==> IsPilot(cfg, k)
    requires |columns| == cfg.fftSize && forall k | 0 <= k < cfg.fftSize :: columns[k] == !l.pilotMask[k]
    requires rows == DataMask(cfg)
    requires l.columnOf == Ranks(columns) && l.nonPilots == Members(columns, |columns|)
    requires l.rowOf == Ranks(rows) && l.dataSymbols == Members(rows, |rows|)
    requires |l.rowOffsets| == |l.dataSymbols| + 1
    requires forall d | 0 <= d <= |l.dataSymbols| :: l.rowOffsets[d] == d * |l.nonPilots|
    ensures Tables(cfg, l)
  {
    assert columns == NonPilotMask(cfg);
    hide IsData, Ranks, Members;
  }

  /** Adding the masks and ranks does not disturb the tables. */
  lemma TablesKept(cfg: Config, l: Layout, full: Layout)
    requires Tables(cfg, l)
    requires full == l.(payloadMask := full.payloadMask, sensingMask := full.sensingMask,
                        payloadRank := full.payloadRank, payloadOffsets := full.payloadOffsets,
                        payloadCount := full.payloadCount, sensingCount := full.sensingCount)
    ensures Tables(cfg, full) && Size(full) == Size(l)
    ensures forall f | 0 <= f < Size(l) ::
              SymbolOf(full, f) == SymbolOf(l, f) && SubcarrierOf(full, f) == SubcarrierOf(l, f)
  {
  }

  /** `build_data_resource_grid_layout`. */
  method BuildLayout(cfg: Config) returns (r: Result<Layout>)
    ensures r.Ok? <==> LayoutOk(cfg)
    ensures r.Ok? ==> IsLayout(cfg, r.value)
  {
    hide InDownlink, IsZcSync, Duplex.IsDownlink, DuplexOk, Tables, InRows, InColumns, Covered, SymbolOf, SubcarrierOf;
    if cfg.numSymbols == 0 || cfg.syncPos >= cfg.numSymbols
       || (cfg.secSync && (cfg.numSymbols < 2 || cfg.syncPos == 0)) {
      return Fail;
    }
    if cfg.cfoTraining {
      if cfg.syncPos + 1 >= cfg.numSymbols || cfg.cfoPeriod == 0 || cfg.cfoPeriod >= cfg.fftSize
         || cfg.fftSize % cfg.cfoPeriod != 0 {
        return Fail;
      }
    }
    var duplex := BuildDuplexFrameLayout(cfg);
    if duplex.Fail? {
      return Fail;
    }
    var mid, midCount := MarkMidframe(cfg, duplex.value);
    var downlink, reserved := CountSymbols(cfg, duplex.value, mid);
    assert reserved + midCount <= downlink;
    var l := BuildTables(cfg, duplex.value, mid);
    var payload, sensing := seq(Size(l), _ => true), Falses(Size(l));
    if cfg.blocksConfigured {
      var marked := MarkBlocks(cfg, duplex.value, mid, l);
      if marked.Fail? {
        return Fail;
      }
      payload, sensing := marked.value.0, marked.value.1;
    }
    var stripped, sensingCount := StripSensing(payload, sensing);
    RowOffsetsAre(cfg, l);
    var rank, offsets, count := RankPayload(stripped, l.rowOffsets, |l.nonPilots|);
    var full := l.(payloadMask := stripped, sensingMask := sensing, payloadRank := rank,
                   payloadOffsets := offsets, payloadCount := count, sensingCount := sensingCount);
    TablesKept(cfg, l, full);
    return Ok(full);
  }

  lemma RowOffsetsAre(cfg: Config, l: Layout)
    requires Tables(cfg, l)
    ensures |l.rowOffsets| == |l.dataSymbols| + 1
    ensures forall d | 0 <= d < |l.rowOffsets| :: l.rowOffsets[d] == d * |l.nonPilots|
  {
  }

  // ---------------------------------------------------------------------------------------------
  // What the layout promises.

  /** Every data symbol and non-pilot subcarrier meet in exactly one element, in row-by-row order. */
  lemma ElementsAreAGrid(cfg: Config, l: Layout, s: nat, k: nat)
    requires IsLayout(cfg, l) && s < cfg.numSymbols && IsData(cfg, s) && k < cfg.fftSize && !IsPilot(cfg, k)
    ensures var f := Flat(l.rowOf[s], l.columnOf[k], |l.nonPilots|);
            && f < Size(l) && SymbolOf(l, f) == s && SubcarrierOf(l, f) == k
            && forall g | 0 <= g < Size(l) && SymbolOf(l, g) == s && SubcarrierOf(l, g) == k :: g == f
  {
    hide IsData, IsSensing, IsPayload, SymbolOf, SubcarrierOf, IsPilot;
    TablesInverse(cfg, l);
    hide Tables;
    FlatInside(l.rowOf[s], l.columnOf[k], |l.dataSymbols|, |l.nonPilots|);
    forall g | 0 <= g < Size(l)
      ensures g == Flat(l.rowOf[s], l.columnOf[k], |l.nonPilots|) <==> SymbolOf(l, g) == s && SubcarrierOf(l, g) == k
    {
      ElementIs(l, g, l.rowOf[s], l.columnOf[k]);
    }
  }

  /** An element belongs to a downlink data symbol, is no pilot, and is not both payload and sensing pilot. */
  lemma ElementKinds(cfg: Config, l: Layout, f: nat)
    requires IsLayout(cfg, l) && f < Size(l)
    ensures IsData(cfg, SymbolOf(l, f)) && SymbolOf(l, f) < cfg.numSymbols
    ensures !IsPilot(cfg, SubcarrierOf(l, f)) && SubcarrierOf(l, f) < cfg.fftSize
    ensures !(l.payloadMask[f] && l.sensingMask[f])
    ensures !cfg.blocksConfigured ==> l.payloadMask[f]
  {
    TablesInverse(cfg, l);
    HasColumns(l, f);
    hide IsData, IsPilot, Covered, Tables;
  }

  /** Ranks number the payload elements in flat order. */
  lemma PayloadRanks(cfg: Config, l: Layout, f: nat)
    requires IsLayout(cfg, l) && f < Size(l) && l.payloadMask[f]
    ensures 0 <= l.payloadRank[f] < l.payloadCount
    ensures Members(l.payloadMask, Size(l))[l.payloadRank[f]] == f
    ensures forall g | 0 <= g < Size(l) && l.payloadMask[g] :: l.payloadRank[f] < l.payloadRank[g] <==> f < g
  {
    hide IsPayload, IsSensing, Tables, SymbolOf, SubcarrierOf;
    RankedBijection(l.payloadMask);
    hide Ranks, Members;
    forall g | 0 <= g < Size(l) && l.payloadMask[g]
      ensures l.payloadRank[f] < l.payloadRank[g] <==> f < g
    {
      CountOrder(l.payloadMask, f, g);
    }
  }

  /** The offsets are prefix sums: row d holds exactly the ranks from offset d up to offset d + 1. */
  lemma PayloadRows(cfg: Config, l: Layout, f: nat, d: nat)
    requires IsLayout(cfg, l) && f < Size(l) && l.payloadMask[f] && d < |l.dataSymbols|
    ensures l.payloadOffsets[d] <= l.payloadRank[f] < l.payloadOffsets[d + 1] <==> SymbolOf(l, f) == l.dataSymbols[d]
    ensures l.payloadOffsets[0] == 0 && l.payloadOffsets[|l.dataSymbols|] == l.payloadCount
  {
    var width := |l.nonPilots|;
    SameRow(cfg, l, f, d);
    RowOffsetsAre(cfg, l);
    hide IsPayload, IsSensing, Tables, SymbolOf, SubcarrierOf, Row, Column, Ranks, Members;
    assert l.rowOffsets[d] == d * width && l.rowOffsets[d + 1] == (d + 1) * width;
    CountOrderAt(l.payloadMask, f, l.rowOffsets[d]);
    CountOrderAt(l.payloadMask, f, l.rowOffsets[d + 1]);
    RowBounds(f, d, width);
    assert l.rowOffsets[0] == 0 && l.rowOffsets[|l.dataSymbols|] == Size(l);
  }

  lemma SameRow(cfg: Config, l: Layout, f: nat, d: nat)
    requires Tables(cfg, l) && f < Size(l) && d < |l.dataSymbols|
    ensures |l.nonPilots| > 0 && (SymbolOf(l, f) == l.dataSymbols[d] <==> Row(f, |l.nonPilots|) == d)
  {
    TablesInverse(cfg, l);
    HasColumns(l, f);
    hide Row, Column, Tables, IsData, IsPilot;
  }

  lemma CountOrder(mask: seq<bool>, f: nat, g: nat)
    requires f < |mask| && g < |mask| && mask[f] && mask[g]
    ensures CountTrue(mask, f) < CountTrue(mask, g) <==> f < g
  {
    if f < g {
      CountGrows(mask, f, g);
    } else {
      CountGrows(mask, g, f);
    }
  }

  lemma CountOrderAt(mask: seq<bool>, f: nat, n: nat)
    requires f < |mask| && mask[f] && n <= |mask|
    ensures CountTrue(mask, n) <= CountTrue(mask, f) <==> n <= f
  {
    if n <= f {
      CountGrows(mask, n, f);
    } else {
      CountGrows(mask, f, n);
    }
  }

  lemma RowBounds(f: nat, d: nat, width: nat)
    requires width > 0
    ensures d * width <= f < (d + 1) * width <==> Row(f, width) == d
  {
    var q := f / width;
    assert f == q * width + f % width;
    Monotone(q + 1, d, width);
    Monotone(d + 1, q, width);
    assert (q + 1) * width == q * width + width;
    assert (d + 1) * width == d * width + width;
  }

  // ---------------------------------------------------------------------------------------------
  // The layout, element by element.

  /** Symbol s and subcarrier k lie in the block. */
  predicate Covers(b: Block, s: nat, k: nat) {
    b.symbolStart <= s < b.symbolStart + b.symbolCount && b.scStart <= k < b.scStart + b.scCount
  }

  /** What the element of a symbol and a subcarrier is for: sensing wins, and no blocks means all payload. */
  lemma ElementMeans(cfg: Config, l: Layout, s: nat, k: nat)
    requires IsLayout(cfg, l) && s < cfg.numSymbols && k < cfg.fftSize
    ensures (exists f :: 0 <= f < Size(l) && SymbolOf(l, f) == s && SubcarrierOf(l, f) == k) <==>
            InDownlink(cfg, s) && !IsReserved(cfg, s) && s !in cfg.midframe && k !in cfg.pilots
    ensures forall f | 0 <= f < Size(l) && SymbolOf(l, f) == s && SubcarrierOf(l, f) == k ::
              && (l.sensingMask[f] <==>
                    cfg.blocksConfigured && exists b :: b in cfg.blocks && b.sensing && Covers(b, s, k))
              && (l.payloadMask[f] <==>
                    && !l.sensingMask[f]
                    && (cfg.blocksConfigured ==> exists b :: b in cfg.blocks && !b.sensing && Covers(b, s, k)))
  {
    CoveredIs(cfg.blocks, true, s, k);
    CoveredIs(cfg.blocks, false, s, k);
    hide Covered, Covers, InDownlink, IsReserved, Tables, SymbolOf, SubcarrierOf;
    if IsData(cfg, s) && !IsPilot(cfg, k) {
      ElementsAreAGrid(cfg, l, s, k);
    }
    forall f | 0 <= f < Size(l) && SymbolOf(l, f) == s && SubcarrierOf(l, f) == k
      ensures IsData(cfg, s) && !IsPilot(cfg, k)
    {
      ElementKinds(cfg, l, f);
    }
  }

  lemma CoveredIs(blocks: seq<Block>, sensing: bool, s: nat, k: nat)
    ensures Covered(blocks, sensing, s, k) <==> exists b :: b in blocks && b.sensing == sensing && Covers(b, s, k)
  {
    if b :| b in blocks && b.sensing == sensing && Covers(b, s, k) {
      var i :| 0 <= i < |blocks| && blocks[i] == b;
      assert InRows(blocks[i], s) && InColumns(blocks[i], k);
    }
  }

  /**
   The head of a configuration is accepted exactly if every symbol it reserves lies in the frame, the second
   sync symbol included, and the training symbol repeats a proper part of itself exactly.
   */
  lemma HeaderAcceptedIff(cfg: Config)
    ensures HeaderOk(cfg) <==>
            && (forall s: nat | IsReserved(cfg, s) :: s < cfg.numSymbols)
            && (cfg.secSync ==> exists s: nat :: IsZcSync(cfg, s) && s + 1 == cfg.syncPos)
            && (cfg.cfoTraining ==>
                  cfg.cfoPeriod > 0 && exists k: nat :: k > 1 && Flat(k, 0, cfg.cfoPeriod) == cfg.fftSize)
  {
    assert IsReserved(cfg, cfg.syncPos);
    assert cfg.cfoTraining ==> IsReserved(cfg, cfg.syncPos + 1);
    if cfg.secSync && cfg.syncPos > 0 {
      assert IsZcSync(cfg, cfg.syncPos - 1);
    }
    if cfg.cfoPeriod > 0 {
      RepeatsIff(cfg.fftSize, cfg.cfoPeriod);
    }
    hide Flat;
  }

  lemma RepeatsIff(size: nat, period: nat)
    requires period > 0
    ensures period < size && size % period == 0 <==> exists k: nat :: k > 1 && Flat(k, 0, period) == size
  {
    var q := Row(size, period);
    FlatIs(size, q, Column(size, period), period);
    Monotone(q, 1, period);
    forall k: nat | k > 1 && Flat(k, 0, period) == size
      ensures period < size && size % period == 0
    {
      FlatIs(size, k, 0, period);
      Monotone(2, k, period);
    }
  }

  /**
   A block is accepted exactly if it covers something, nothing outside the frame and, for sensing, nothing of
   a downlink training symbol.
   */
  lemma BlockAcceptedIff(cfg: Config, b: Block)
    ensures BlockOk(cfg, b) <==>
            && (exists s: nat, k: nat :: Covers(b, s, k))
            && (forall s: nat, k: nat | Covers(b, s, k) :: s < cfg.numSymbols && k < cfg.fftSize)
            && (b.sensing && cfg.cfoTraining && InDownlink(cfg, cfg.syncPos + 1) ==>
                  forall s: nat, k: nat | Covers(b, s, k) :: s != cfg.syncPos + 1)
  {
    hide InDownlink;
    if b.symbolCount > 0 && b.scCount > 0 {
      var s, k := b.symbolStart + b.symbolCount - 1, b.scStart + b.scCount - 1;
      assert Covers(b, s, k) && Covers(b, b.symbolStart, b.scStart);
      assert InRows(b, cfg.syncPos + 1) ==> Covers(b, cfg.syncPos + 1, k);
    }
  }
}
