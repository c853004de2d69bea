/**
 The uplink transmitter's use of the layout: symbol templates, whole-packet frame filling, and the
 placement of payload symbols. The transmitter counts its own data symbols instead of using the symbol
 table of the layout, which is right because the uplink frame is all downlink.
 */
module UplinkGrid {
  import opened FrameConfig
  import opened Ranking
  import opened ResourceLayout

  /** The content of an element: nothing, the sync sequence, idle filler by rank, or a payload symbol. */
  datatype Cell = Blank | Zc(k: nat) | Idle(rank: int) | Data(symbol: int)

  type Grid = seq<seq<Cell>>

  // ---------------------------------------------------------------------------------------------
  // Filling a frame with whole packets.

  function Joined(packets: seq<seq<int>>): seq<int> {
    if packets == [] then [] else Joined(packets[..|packets| - 1]) + packets[|packets| - 1]
  }

  /**
   `n` packets go into the frame: they fit, there was room before the last of them, and the next one does
   not fit if there is still room.
   */
  ghost predicate Fills(queue: seq<seq<int>>, capacity: nat, n: nat) {
    && n <= |queue| && |Joined(queue[..n])| <= capacity
    && (n > 0 ==> |Joined(queue[..n - 1])| < capacity)
    && (n < |queue| ==> |Joined(queue[..n])| == capacity || |Joined(queue[..n])| + |queue[n]| > capacity)
  }

  lemma {:induction false} JoinedGrows(queue: seq<seq<int>>, i: nat, n: nat)
    requires i <= n <= |queue|
    ensures |Joined(queue[..i])| <= |Joined(queue[..n])|
  {
    if i < n {
      JoinedGrows(queue, i, n - 1);
      assert queue[..n][..n - 1] == queue[..n - 1];
    }
  }

  /** The queue and the capacity fix how many packets are taken. */
  lemma FillsOnce(queue: seq<seq<int>>, capacity: nat, n: nat, m: nat)
    requires Fills(queue, capacity, n) && Fills(queue, capacity, m)
    ensures n == m
  {
    if n < m {
      NoFurther(queue, capacity, n, m);
    } else if m < n {
      NoFurther(queue, capacity, m, n);
    }
  }

  lemma NoFurther(queue: seq<seq<int>>, capacity: nat, n: nat, m: nat)
    requires n < m && Fills(queue, capacity, n)
    ensures !Fills(queue, capacity, m)
  {
    if m <= |queue| {
      JoinedGrows(queue, n, m - 1);
      JoinedGrows(queue, n + 1, m);
      assert queue[..n + 1][..n] == queue[..n];
    }
  }

  /** What is left of the queue; a packet no frame can hold is dropped, if there was room to look at it. */
  ghost function Remaining(queue: seq<seq<int>>, capacity: nat, n: nat): seq<seq<int>>
    requires n <= |queue|
  {
    if n < |queue| && |queue[n]| > capacity && |Joined(queue[..n])| < capacity then queue[n + 1..] else queue[n..]
  }

  /** The packet loop of `_build_period_buffer`. */
  method FillPool(queue: seq<seq<int>>, capacity: nat) returns (pool: seq<int>, rest: seq<seq<int>>, ghost taken: nat)
    ensures Fills(queue, capacity, taken) && pool == Joined(queue[..taken])
    ensures rest == Remaining(queue, capacity, taken)
  {
    pool, rest, taken := [], queue, 0;
    while |pool| < capacity
      invariant taken <= |queue| && rest == queue[taken..]
      invariant pool == Joined(queue[..taken]) && |pool| <= capacity
      invariant taken > 0 ==> |Joined(queue[..taken - 1])| < capacity
      decreases |rest|
    {
      if rest == [] {
        break;
      }
      var room := capacity - |pool|;
      if |rest[0]| > room {
        if |rest[0]| > capacity {
          rest := rest[1..];
        }
        return;
      }
      assert queue[..taken + 1][..taken] == queue[..taken];
      pool, rest, taken := pool + rest[0], rest[1..], taken + 1;
    }
  }

  // ---------------------------------------------------------------------------------------------
  // What each element of the period should hold.

  /** The element of data symbol s and non-pilot subcarrier k. */
  ghost function ElementAt(cfg: Config, l: Layout, s: nat, k: nat): (f: nat)
    requires IsLayout(cfg, l) && s < cfg.numSymbols && IsData(cfg, s) && k < cfg.fftSize && !IsPilot(cfg, k)
    ensures f < Size(l) && SymbolOf(l, f) == s && SubcarrierOf(l, f) == k
  {
    ElementsAreAGrid(cfg, l, s, k);
    Flat(l.rowOf[s], l.columnOf[k], |l.nonPilots|)
  }

  lemma ElementAtIs(cfg: Config, l: Layout, f: nat)
    requires IsLayout(cfg, l) && f < Size(l)
    ensures IsData(cfg, SymbolOf(l, f)) && SymbolOf(l, f) < cfg.numSymbols
    ensures !IsPilot(cfg, SubcarrierOf(l, f)) && SubcarrierOf(l, f) < cfg.fftSize
    ensures ElementAt(cfg, l, SymbolOf(l, f), SubcarrierOf(l, f)) == f
  {
    ElementKinds(cfg, l, f);
    hide IsData, IsPilot, IsLayout, SymbolOf, SubcarrierOf;
    ElementsAreAGrid(cfg, l, SymbolOf(l, f), SubcarrierOf(l, f));
  }

  /** A frame as the transmitter needs it: every symbol but the sync symbol carries data. */
  ghost predicate Plain(cfg: Config) {
    cfg.syncPos == 0 && !cfg.secSync && !cfg.cfoTraining && cfg.midframe == [] && AllDownlink(cfg)
  }

  lemma PlainData(cfg: Config, s: nat)
    requires Plain(cfg) && s < cfg.numSymbols
    ensures IsData(cfg, s) <==> !IsZcSync(cfg, s)
  {
  }

  /** Payload element of rank q holds payload symbol q; pilots and everything else hold known content. */
  ghost function CellAt(cfg: Config, l: Layout, idle: bool, pool: seq<int>, s: nat, k: nat): Cell
    requires IsLayout(cfg, l) && Plain(cfg) && s < cfg.numSymbols && k < cfg.fftSize
  {
    PlainData(cfg, s);
    if IsZcSync(cfg, s) || IsPilot(cfg, k) then Zc(k)
    else
      var f := ElementAt(cfg, l, s, k);
      if !l.payloadMask[f] then Zc(k)
      else if l.payloadRank[f] < |pool| then Data(pool[l.payloadRank[f]])
      else if idle then Idle(l.payloadRank[f]) else Blank
  }

  ghost predicate Filled(cfg: Config, l: Layout, idle: bool, pool: seq<int>, s: nat, row: seq<Cell>)
    requires IsLayout(cfg, l) && Plain(cfg) && s < cfg.numSymbols
  {
    |row| == cfg.fftSize && forall k | 0 <= k < cfg.fftSize :: row[k] == CellAt(cfg, l, idle, pool, s, k)
  }

  /** The first n symbols are filled. */
  ghost predicate FilledTo(cfg: Config, l: Layout, idle: bool, pool: seq<int>, grid: Grid, n: nat) {
    && IsLayout(cfg, l) && Plain(cfg) && n <= cfg.numSymbols && |grid| == n
    && forall s | 0 <= s < n :: Filled(cfg, l, idle, pool, s, grid[s])
  }

  lemma FilledMore(cfg: Config, l: Layout, idle: bool, pool: seq<int>, grid: Grid, n: nat, row: seq<Cell>)
    requires FilledTo(cfg, l, idle, pool, grid, n) && n < cfg.numSymbols && Filled(cfg, l, idle, pool, n, row)
    ensures FilledTo(cfg, l, idle, pool, grid + [row], n + 1)
  {
    hide IsLayout, Plain, Filled;
  }

  lemma FilledAt(cfg: Config, l: Layout, idle: bool, pool: seq<int>, grid: Grid, n: nat, s: nat)
    requires FilledTo(cfg, l, idle, pool, grid, n) && s < n
    ensures |grid| == n && n <= cfg.numSymbols && Filled(cfg, l, idle, pool, s, grid[s])
  {
    hide IsLayout, Plain, Filled;
  }

  lemma NothingFilled(cfg: Config, l: Layout, idle: bool, pool: seq<int>)
    requires IsLayout(cfg, l) && Plain(cfg)
    ensures FilledTo(cfg, l, idle, pool, [], 0) && Counts(cfg, l, 0, 0)
  {
    hide IsLayout, Plain;
  }

  /** The transmitter's own count of data symbols is the row of the layout. */
  lemma {:induction false} OwnCountIsRow(cfg: Config, l: Layout, s: nat)
    requires IsLayout(cfg, l) && Plain(cfg) && s < cfg.numSymbols
    ensures !IsZcSync(cfg, s) ==>
              && CountTrue(DataMask(cfg), s) < |l.dataSymbols| && l.rowOf[s] == CountTrue(DataMask(cfg), s)
              && l.dataSymbols[CountTrue(DataMask(cfg), s)] == s
    ensures CountTrue(DataMask(cfg), s + 1) == CountTrue(DataMask(cfg), s) + if IsZcSync(cfg, s) then 0 else 1
  {
    PlainData(cfg, s);
    TablesInverse(cfg, l);
    assert DataMask(cfg)[s] == IsData(cfg, s);
    hide IsData, IsPayload, IsSensing;
  }

  // ---------------------------------------------------------------------------------------------
  // The list of payload subcarriers, in rank order.

  ghost function Subcarriers(l: Layout, n: nat): (r: seq<nat>)
    requires n <= Size(l) == |l.payloadMask|
    ensures |r| == CountTrue(l.payloadMask, n)
  {
    if n == 0 then [] else Subcarriers(l, n - 1) + if l.payloadMask[n - 1] then [SubcarrierOf(l, n - 1)] else []
  }

  lemma {:induction false} SubcarrierAt(l: Layout, n: nat, f: nat)
    requires f < n <= Size(l) == |l.payloadMask| && l.payloadMask[f]
    ensures CountTrue(l.payloadMask, f) < |Subcarriers(l, n)|
    ensures Subcarriers(l, n)[CountTrue(l.payloadMask, f)] == SubcarrierOf(l, f)
  {
    hide SubcarrierOf;
    CountGrows(l.payloadMask, f, n);
    if f < n - 1 {
      SubcarrierAt(l, n - 1, f);
    }
  }

  // ---------------------------------------------------------------------------------------------
  // The templates.

  /** What the template holds at a non-pilot element; it does not depend on a pool. */
  lemma TemplateCell(cfg: Config, l: Layout, idle: bool, s: nat, k: nat, d: nat, n: nat)
    requires IsLayout(cfg, l) && Plain(cfg) && s < cfg.numSymbols && !IsZcSync(cfg, s)
    requires d < |l.dataSymbols| && l.dataSymbols[d] == s && n < |l.nonPilots| && l.nonPilots[n] == k
    ensures l.rowOffsets[d] == d * |l.nonPilots|
    ensures var f := l.rowOffsets[d] + n;
            && f < Size(l) && SymbolOf(l, f) == s && SubcarrierOf(l, f) == k
            && k < cfg.fftSize && !IsPilot(cfg, k)
            && CellAt(cfg, l, idle, [], s, k)
               == (if l.payloadRank[f] < 0 then Zc(k) else if idle then Idle(l.payloadRank[f]) else Blank)
            && (l.payloadRank[f] >= 0 <==> l.payloadMask[f])
  {
    hide IsLayout, IsData, IsPayload, IsSensing, Tables, IsZcSync, IsPilot, SymbolOf, SubcarrierOf, Plain, CellAt;
    HasTables(cfg, l);
    ElementInRow(cfg, l, d, n);
    var f := l.rowOffsets[d] + n;
    ElementAtIs(cfg, l, f);
    ElementCell(cfg, l, idle, f);
  }

  lemma ElementInRow(cfg: Config, l: Layout, d: nat, n: nat)
    requires Tables(cfg, l) && d < |l.dataSymbols| && n < |l.nonPilots|
    ensures d < |l.rowOffsets| && l.rowOffsets[d] == d * |l.nonPilots|
    ensures var f := l.rowOffsets[d] + n;
            f < Size(l) && SymbolOf(l, f) == l.dataSymbols[d] && SubcarrierOf(l, f) == l.nonPilots[n]
  {
    RowOffset(cfg, l, d);
    FlatElement(cfg, l, d, n);
    hide Tables, SymbolOf, SubcarrierOf, Size;
  }

  lemma FlatElement(cfg: Config, l: Layout, d: nat, n: nat)
    requires Tables(cfg, l) && d < |l.dataSymbols| && n < |l.nonPilots|
    ensures var f := Flat(d, n, |l.nonPilots|);
            f < Size(l) && SymbolOf(l, f) == l.dataSymbols[d] && SubcarrierOf(l, f) == l.nonPilots[n]
  {
    hide Tables, SymbolOf, SubcarrierOf, Flat, Row, Column, IsData, IsPilot;
    TablesInverse(cfg, l);
    FlatInside(d, n, |l.dataSymbols|, |l.nonPilots|);
    ElementIs(l, Flat(d, n, |l.nonPilots|), d, n);
  }

  lemma ElementCell(cfg: Config, l: Layout, idle: bool, f: nat)
    requires IsLayout(cfg, l) && Plain(cfg) && f < Size(l)
    ensures SymbolOf(l, f) < cfg.numSymbols && SubcarrierOf(l, f) < cfg.fftSize && |l.payloadRank| == Size(l)
    ensures CellAt(cfg, l, idle, [], SymbolOf(l, f), SubcarrierOf(l, f))
            == (if l.payloadRank[f] < 0 then Zc(SubcarrierOf(l, f))
                else if idle then Idle(l.payloadRank[f]) else Blank)
    ensures l.payloadRank[f] >= 0 <==> l.payloadMask[f]
  {
    ElementAtIs(cfg, l, f);
    PlainData(cfg, SymbolOf(l, f));
    hide IsData, IsPayload, IsSensing, Tables, IsZcSync, IsPilot, SymbolOf, SubcarrierOf, Plain, ElementAt;
  }

  lemma RowEnds(cfg: Config, l: Layout, d: nat)
    requires Tables(cfg, l) && d < |l.dataSymbols|
    ensures l.rowOffsets[d] == d * |l.nonPilots| && d * |l.nonPilots| + |l.nonPilots| <= Size(l)
  {
    RowOffset(cfg, l, d);
    hide Tables;
    RowFits(d, |l.dataSymbols|, |l.nonPilots|);
  }

  lemma RowOffset(cfg: Config, l: Layout, d: nat)
    requires Tables(cfg, l) && d <= |l.dataSymbols|
    ensures d < |l.rowOffsets| && l.rowOffsets[d] == d * |l.nonPilots|
  {
  }

  lemma PilotRow(cfg: Config, l: Layout, idle: bool, s: nat)
    requires IsLayout(cfg, l) && Plain(cfg) && s < cfg.numSymbols
    ensures forall k | 0 <= k < cfg.fftSize && IsPilot(cfg, k) :: CellAt(cfg, l, idle, [], s, k) == Zc(k)
  {
  }

  lemma PilotOrColumn(cfg: Config, l: Layout, k: nat)
    requires Tables(cfg, l) && k < cfg.fftSize
    ensures k in cfg.pilots <==> IsPilot(cfg, k)
    ensures k in cfg.pilots || (0 <= l.columnOf[k] < |l.nonPilots| && l.nonPilots[l.columnOf[k]] == k)
  {
    TablesInverse(cfg, l);
  }

  lemma HasTables(cfg: Config, l: Layout)
    requires IsLayout(cfg, l)
    ensures Tables(cfg, l) && |l.payloadRank| == |l.payloadMask| == Size(l)
  {
  }

  /** The payload subcarriers of the first `d` rows. */
  ghost predicate ListedTo(l: Layout, d: nat, subcarriers: seq<nat>) {
    && d * |l.nonPilots| <= Size(l) == |l.payloadMask|
    && subcarriers == Subcarriers(l, d * |l.nonPilots|)
  }

  lemma RowFacts(cfg: Config, l: Layout, d: nat)
    requires IsLayout(cfg, l) && d < |l.dataSymbols|
    ensures d < |l.rowOffsets| && l.rowOffsets[d] == d * |l.nonPilots|
    ensures (d + 1) * |l.nonPilots| == d * |l.nonPilots| + |l.nonPilots| <= Size(l)
    ensures |l.payloadRank| == |l.payloadMask| == Size(l)
    ensures forall n | 0 <= n < |l.nonPilots| :: l.nonPilots[n] < cfg.fftSize
    ensures forall n, m | 0 <= n < m < |l.nonPilots| :: l.nonPilots[n] < l.nonPilots[m]
  {
    HasTables(cfg, l);
    RowEnds(cfg, l, d);
    RowOffset(cfg, l, d);
    TablesInverse(cfg, l);
    RowFits(d, |l.dataSymbols|, |l.nonPilots|);
    hide *;
  }

  /** The non-pilot elements of one symbol. */
  method TemplateColumns(cfg: Config, l: Layout, idle: bool, s: nat, d: nat, subcarriers: seq<nat>)
    returns (row: seq<Cell>, more: seq<nat>)
    requires IsLayout(cfg, l) && Plain(cfg) && s < cfg.numSymbols && !IsZcSync(cfg, s)
    requires d < |l.dataSymbols| && l.dataSymbols[d] == s && ListedTo(l, d, subcarriers)
    ensures |row| == cfg.fftSize && ListedTo(l, d + 1, more)
    ensures forall m | 0 <= m < |l.nonPilots| ::
              l.nonPilots[m] < cfg.fftSize && row[l.nonPilots[m]] == CellAt(cfg, l, idle, [], s, l.nonPilots[m])
  {
    var width := |l.nonPilots|;
    hide IsLayout, Tables, CellAt, Plain, IsData, IsPilot, IsZcSync, SymbolOf, SubcarrierOf;
    RowFacts(cfg, l, d);
    var base := l.rowOffsets[d];
    assert (d + 1) * width == base + width;
    row, more := seq(cfg.fftSize, _ => Blank), subcarriers;
    for n := 0 to width
      invariant |row| == cfg.fftSize && more == Subcarriers(l, base + n)
      invariant forall m | n <= m < width :: row[l.nonPilots[m]] == Blank
      invariant forall m | 0 <= m < n :: row[l.nonPilots[m]] == CellAt(cfg, l, idle, [], s, l.nonPilots[m])
    {
      var k := l.nonPilots[n];
      TemplateCell(cfg, l, idle, s, k, d, n);
      var rank := l.payloadRank[base + n];
      if rank >= 0 {
        more := more + [k];
        if idle {
          row := row[k := Idle(rank)];
        }
      } else {
        row := row[k := Zc(k)];
      }
    }
  }

  method PlacePilots(cfg: Config, before: seq<Cell>) returns (row: seq<Cell>)
    requires |before| == cfg.fftSize
    ensures |row| == cfg.fftSize
    ensures forall k | 0 <= k < cfg.fftSize :: row[k] == if k in cfg.pilots then Zc(k) else before[k]
  {
    row := before;
    for i := 0 to |cfg.pilots|
      invariant |row| == cfg.fftSize
      invariant forall k | 0 <= k < cfg.fftSize :: row[k] == if k in cfg.pilots[..i] then Zc(k) else before[k]
    {
      assert cfg.pilots[..i + 1] == cfg.pilots[..i] + [cfg.pilots[i]];
      if cfg.pilots[i] < cfg.fftSize {
        row := row[cfg.pilots[i] := Zc(cfg.pilots[i])];
      }
    }
    assert cfg.pilots[..|cfg.pilots|] == cfg.pilots;
  }

  /** One symbol of `_build_symbol_templates`. */
  method TemplateRow(cfg: Config, l: Layout, idle: bool, s: nat, d: nat, subcarriers: seq<nat>)
    returns (row: seq<Cell>, more: seq<nat>)
    requires IsLayout(cfg, l) && Plain(cfg) && s < cfg.numSymbols && !IsZcSync(cfg, s)
    requires d < |l.dataSymbols| && l.dataSymbols[d] == s && ListedTo(l, d, subcarriers)
    ensures Filled(cfg, l, idle, [], s, row) && ListedTo(l, d + 1, more)
  {
    var columns;
    columns, more := TemplateColumns(cfg, l, idle, s, d, subcarriers);
    row := PlacePilots(cfg, columns);
    HasTables(cfg, l);
    PilotRow(cfg, l, idle, s);
    hide IsLayout, Tables, CellAt, Plain, IsData, IsPilot, IsZcSync, ListedTo;
    forall k | 0 <= k < cfg.fftSize
      ensures row[k] == CellAt(cfg, l, idle, [], s, k)
    {
      PilotOrColumn(cfg, l, k);
    }
  }

  function ZcRow(n: nat): (r: seq<Cell>)
    ensures |r| == n && forall k | 0 <= k < n :: r[k] == Zc(k)
  {
    seq(n, k requires 0 <= k < n => Zc(k))
  }

  lemma ZcRowIsFilled(cfg: Config, l: Layout, idle: bool, pool: seq<int>, s: nat)
    requires IsLayout(cfg, l) && Plain(cfg) && s < cfg.numSymbols && IsZcSync(cfg, s)
    ensures Filled(cfg, l, idle, pool, s, ZcRow(cfg.fftSize))
  {
    hide IsLayout, Plain, IsZcSync;
  }

  /** The counter of data symbols, before symbol s. */
  ghost predicate Counts(cfg: Config, l: Layout, s: nat, d: nat) {
    s <= cfg.numSymbols && d == CountTrue(DataMask(cfg), s)
  }

  lemma CountsStep(cfg: Config, l: Layout, s: nat, d: nat)
    requires IsLayout(cfg, l) && Plain(cfg) && s < cfg.numSymbols && Counts(cfg, l, s, d)
    ensures !IsZcSync(cfg, s) ==> d < |l.dataSymbols| && l.dataSymbols[d] == s
    ensures Counts(cfg, l, s + 1, if IsZcSync(cfg, s) then d else d + 1)
  {
    OwnCountIsRow(cfg, l, s);
  }

  lemma ListingDone(cfg: Config, l: Layout, d: nat, subcarriers: seq<nat>)
    requires IsLayout(cfg, l) && Counts(cfg, l, cfg.numSymbols, d) && ListedTo(l, d, subcarriers)
    ensures subcarriers == Subcarriers(l, Size(l)) && |subcarriers| == l.payloadCount
  {
    assert |l.dataSymbols| == CountTrue(DataMask(cfg), cfg.numSymbols);
    hide SymbolOf, SubcarrierOf, IsPayload, IsSensing;
  }

  /** One round of the template loop: the sync symbol, or a data symbol and its subcarriers. */
  method NextTemplate(cfg: Config, l: Layout, idle: bool, s: nat, d: nat, subcarriers: seq<nat>)
    returns (row: seq<Cell>, more: seq<nat>, next: nat)
    requires IsLayout(cfg, l) && Plain(cfg) && s < cfg.numSymbols && ListedTo(l, d, subcarriers)
    requires !IsZcSync(cfg, s) ==> d < |l.dataSymbols| && l.dataSymbols[d] == s
    ensures Filled(cfg, l, idle, [], s, row) && ListedTo(l, next, more)
    ensures next == if IsZcSync(cfg, s) then d else d + 1
  {
    hide IsLayout, Tables, Plain, IsZcSync, Filled, Subcarriers, ListedTo;
    if IsZcSync(cfg, s) {
      ZcRowIsFilled(cfg, l, idle, [], s);
      return ZcRow(cfg.fftSize), subcarriers, d;
    }
    row, more := TemplateRow(cfg, l, idle, s, d, subcarriers);
    next := d + 1;
  }

  /** `_build_symbol_templates`. The listed subcarriers are those of the payload elements, in rank order. */
  method BuildTemplates(cfg: Config, l: Layout, idle: bool) returns (templates: Grid, subcarriers: seq<nat>)
    requires IsLayout(cfg, l) && Plain(cfg)
    ensures FilledTo(cfg, l, idle, [], templates, cfg.numSymbols)
    ensures |l.payloadMask| == Size(l) && subcarriers == Subcarriers(l, Size(l)) && |subcarriers| == l.payloadCount
  {
    HasTables(cfg, l);
    hide IsLayout, Tables, Plain, IsZcSync, Filled, FilledTo, Subcarriers, ListedTo, Counts;
    templates, subcarriers := [], [];
    var d := 0;
    NothingListed(l);
    NothingFilled(cfg, l, idle, []);
    for s := 0 to cfg.numSymbols
      invariant FilledTo(cfg, l, idle, [], templates, s) && Counts(cfg, l, s, d) && ListedTo(l, d, subcarriers)
    {
      CountsStep(cfg, l, s, d);
      var row, more, next := NextTemplate(cfg, l, idle, s, d, subcarriers);
      FilledMore(cfg, l, idle, [], templates, s, row);
      templates, subcarriers, d := templates + [row], more, next;
    }
    ListingDone(cfg, l, d, subcarriers);
  }

  lemma NothingListed(l: Layout)
    requires |l.payloadMask| == Size(l)
    ensures ListedTo(l, 0, [])
  {
  }

  // ---------------------------------------------------------------------------------------------
  // The period.

  /** The ranks of the payload elements of row d lie between its offsets. */
  lemma RankInRow(cfg: Config, l: Layout, s: nat, d: nat, k: nat)
    requires IsLayout(cfg, l) && Plain(cfg) && s < cfg.numSymbols && !IsZcSync(cfg, s)
    requires d < |l.dataSymbols| && l.dataSymbols[d] == s && k < cfg.fftSize && !IsPilot(cfg, k)
    ensures IsData(cfg, s) && d + 1 < |l.payloadOffsets|
    ensures var f := ElementAt(cfg, l, s, k);
            l.payloadMask[f] ==> l.payloadOffsets[d] <= l.payloadRank[f] < l.payloadOffsets[d + 1]
  {
    PlainData(cfg, s);
    hide IsData, IsPayload, IsSensing, Tables, Plain, IsZcSync, IsPilot, SymbolOf, SubcarrierOf;
    var f := ElementAt(cfg, l, s, k);
    if l.payloadMask[f] {
      PayloadRows(cfg, l, f, d);
    }
  }

  /** Two pools that agree on the ranks of a row fill it alike. */
  lemma SameFill(cfg: Config, l: Layout, idle: bool, a: seq<int>, b: seq<int>, s: nat, d: nat, row: seq<Cell>)
    requires IsLayout(cfg, l) && Plain(cfg) && s < cfg.numSymbols && !IsZcSync(cfg, s)
    requires d < |l.dataSymbols| && l.dataSymbols[d] == s && d + 1 < |l.payloadOffsets|
    requires forall r | l.payloadOffsets[d] <= r < l.payloadOffsets[d + 1] ::
               (r < |a| <==> r < |b|) && (r < |a| ==> a[r] == b[r])
    requires Filled(cfg, l, idle, a, s, row)
    ensures Filled(cfg, l, idle, b, s, row)
  {
    forall k | 0 <= k < cfg.fftSize
      ensures row[k] == CellAt(cfg, l, idle, b, s, k)
    {
      assert row[k] == CellAt(cfg, l, idle, a, s, k);
      if !IsPilot(cfg, k) {
        RankInRow(cfg, l, s, d, k);
      }
    }
  }

  /** The q-th listed subcarrier is that of the payload element of rank q. */
  lemma ListedElement(cfg: Config, l: Layout, s: nat, d: nat, q: nat)
    requires IsLayout(cfg, l) && Plain(cfg) && s < cfg.numSymbols && !IsZcSync(cfg, s)
    requires d < |l.dataSymbols| && l.dataSymbols[d] == s && d + 1 < |l.payloadOffsets|
    requires l.payloadOffsets[d] <= q < l.payloadOffsets[d + 1]
    ensures IsData(cfg, s) && q < |Subcarriers(l, Size(l))|
    ensures var at := Subcarriers(l, Size(l))[q];
            && at < cfg.fftSize && !IsPilot(cfg, at)
            && l.payloadMask[ElementAt(cfg, l, s, at)] && l.payloadRank[ElementAt(cfg, l, s, at)] == q
  {
    PlainData(cfg, s);
    hide IsData, IsPayload, IsSensing, Plain, IsZcSync, IsPilot, SymbolOf, SubcarrierOf, Subcarriers;
    QExists(cfg, l, d, q);
    var f := Members(l.payloadMask, Size(l))[q];
    MembersAreSelected(l.payloadMask, Size(l), q);
    PayloadRows(cfg, l, f, d);
    SubcarrierAt(l, Size(l), f);
    ElementAtIs(cfg, l, f);
  }

  /** Different subcarriers of a symbol have different ranks. */
  lemma RankIsUnique(cfg: Config, l: Layout, s: nat, k: nat, j: nat)
    requires IsLayout(cfg, l) && s < cfg.numSymbols && IsData(cfg, s)
    requires k < cfg.fftSize && !IsPilot(cfg, k) && j < cfg.fftSize && !IsPilot(cfg, j)
    ensures var f, g := ElementAt(cfg, l, s, k), ElementAt(cfg, l, s, j);
            l.payloadMask[f] && l.payloadMask[g] && l.payloadRank[f] == l.payloadRank[g] ==> k == j
  {
    hide IsData, IsPayload, IsSensing, IsPilot, SymbolOf, SubcarrierOf, ElementAt, Tables;
    var f, g := ElementAt(cfg, l, s, k), ElementAt(cfg, l, s, j);
    if l.payloadMask[f] && l.payloadMask[g] {
      PayloadRanks(cfg, l, f);
      PayloadRanks(cfg, l, g);
    }
  }

  lemma QExists(cfg: Config, l: Layout, d: nat, q: nat)
    requires IsLayout(cfg, l) && d < |l.dataSymbols| && d + 1 < |l.payloadOffsets| && q < l.payloadOffsets[d + 1]
    ensures |l.payloadMask| == |l.payloadRank| == Size(l) && q < |Members(l.payloadMask, Size(l))| == l.payloadCount
  {
    hide IsPayload, IsSensing, SymbolOf, SubcarrierOf, Members, Ranks;
    CountGrows(l.payloadMask, l.rowOffsets[d + 1], Size(l));
  }

  /** Writing payload symbol q where the list says. */
  lemma PlaceOne(cfg: Config, l: Layout, idle: bool, pool: seq<int>, s: nat, d: nat, q: nat, row: seq<Cell>)
    requires IsLayout(cfg, l) && Plain(cfg) && s < cfg.numSymbols && !IsZcSync(cfg, s)
    requires d < |l.dataSymbols| && l.dataSymbols[d] == s && d + 1 < |l.payloadOffsets|
    requires l.payloadOffsets[d] <= q < l.payloadOffsets[d + 1] && q < |pool|
    requires Filled(cfg, l, idle, pool[..q], s, row)
    ensures q < |Subcarriers(l, Size(l))| && Subcarriers(l, Size(l))[q] < cfg.fftSize
    ensures Filled(cfg, l, idle, pool[..q + 1], s, row[Subcarriers(l, Size(l))[q] := Data(pool[q])])
  {
    ListedElement(cfg, l, s, d, q);
    hide IsLayout, IsData, Plain, IsZcSync, IsPilot, Subcarriers, ElementAt, CellAt;
    var placed := row[Subcarriers(l, Size(l))[q] := Data(pool[q])];
    forall k | 0 <= k < cfg.fftSize
      ensures placed[k] == CellAt(cfg, l, idle, pool[..q + 1], s, k)
    {
      assert row[k] == CellAt(cfg, l, idle, pool[..q], s, k);
      OneMoreSymbol(cfg, l, idle, pool, s, Subcarriers(l, Size(l))[q], q, k);
    }
  }

  /** One more symbol in the pool changes the cell of its rank only. */
  lemma OneMoreSymbol(cfg: Config, l: Layout, idle: bool, pool: seq<int>, s: nat, at: nat, q: nat, k: nat)
    requires IsLayout(cfg, l) && Plain(cfg) && s < cfg.numSymbols && !IsZcSync(cfg, s) && IsData(cfg, s)
    requires q < |pool| && at < cfg.fftSize && !IsPilot(cfg, at) && k < cfg.fftSize
    requires l.payloadMask[ElementAt(cfg, l, s, at)] && l.payloadRank[ElementAt(cfg, l, s, at)] == q
    ensures CellAt(cfg, l, idle, pool[..q + 1], s, k)
            == if k == at then Data(pool[q]) else CellAt(cfg, l, idle, pool[..q], s, k)
  {
    if !IsPilot(cfg, k) {
      RankIsUnique(cfg, l, s, k, at);
    }
    hide IsData, Plain, IsZcSync, IsPilot, ElementAt, Tables, IsPayload, IsSensing;
  }

  /** One symbol of `_build_period_buffer`: the payload symbols whose ranks fall into the row. */
  method FillRow(cfg: Config, l: Layout, idle: bool, pool: seq<int>, s: nat, d: nat,
                 template: seq<Cell>, subcarriers: seq<nat>) returns (row: seq<Cell>)
    requires IsLayout(cfg, l) && Plain(cfg) && s < cfg.numSymbols && !IsZcSync(cfg, s)
    requires d < |l.dataSymbols| && l.dataSymbols[d] == s && d + 1 < |l.payloadOffsets|
    requires |l.payloadMask| == Size(l) && subcarriers == Subcarriers(l, Size(l))
    requires l.payloadOffsets[d] <= l.payloadOffsets[d + 1]
    requires Filled(cfg, l, idle, [], s, template)
    ensures Filled(cfg, l, idle, pool, s, row)
  {
    hide IsLayout, Plain, IsZcSync, Filled, Subcarriers;
    var begin, end := l.payloadOffsets[d], l.payloadOffsets[d + 1];
    row := template;
    if begin >= |pool| {
      SameFill(cfg, l, idle, [], pool, s, d, row);
      return;
    }
    var avail := if end - begin < |pool| - begin then end - begin else |pool| - begin;
    SameFill(cfg, l, idle, [], pool[..begin], s, d, row);
    for p := 0 to avail
      invariant Filled(cfg, l, idle, pool[..begin + p], s, row)
    {
      PlaceOne(cfg, l, idle, pool, s, d, begin + p, row);
      FilledLength(cfg, l, idle, pool[..begin + p], s, row);
      row := row[subcarriers[begin + p] := Data(pool[begin + p])];
    }
    SameFill(cfg, l, idle, pool[..begin + avail], pool, s, d, row);
  }

  lemma FilledLength(cfg: Config, l: Layout, idle: bool, pool: seq<int>, s: nat, row: seq<Cell>)
    requires IsLayout(cfg, l) && Plain(cfg) && s < cfg.numSymbols && Filled(cfg, l, idle, pool, s, row)
    ensures |row| == cfg.fftSize
  {
  }

  lemma OffsetsGrow(cfg: Config, l: Layout, d: nat)
    requires IsLayout(cfg, l) && d < |l.dataSymbols|
    ensures d + 1 < |l.payloadOffsets| && l.payloadOffsets[d] <= l.payloadOffsets[d + 1]
    ensures |l.payloadMask| == Size(l)
  {
    hide IsPayload, IsSensing, SymbolOf, SubcarrierOf;
    RowFits(d, |l.dataSymbols|, |l.nonPilots|);
    CountGrows(l.payloadMask, l.rowOffsets[d], l.rowOffsets[d + 1]);
  }

  /** The frequency grid of one period: payload symbol q sits on the element of rank q and nowhere else. */
  method BuildGrid(cfg: Config, l: Layout, idle: bool, pool: seq<int>, templates: Grid, subcarriers: seq<nat>)
    returns (grid: Grid)
    requires IsLayout(cfg, l) && Plain(cfg) && FilledTo(cfg, l, idle, [], templates, cfg.numSymbols)
    requires |l.payloadMask| == Size(l) && subcarriers == Subcarriers(l, Size(l))
    ensures FilledTo(cfg, l, idle, pool, grid, cfg.numSymbols)
  {
    hide IsLayout, Plain, IsZcSync, Filled, FilledTo, Subcarriers, Counts;
    grid := [];
    var d := 0;
    NothingFilled(cfg, l, idle, pool);
    for s := 0 to cfg.numSymbols
      invariant FilledTo(cfg, l, idle, pool, grid, s) && Counts(cfg, l, s, d)
    {
      CountsStep(cfg, l, s, d);
      FilledAt(cfg, l, idle, [], templates, cfg.numSymbols, s);
      if IsZcSync(cfg, s) {
        SyncIgnoresPool(cfg, l, idle, pool, s, templates[s]);
        FilledMore(cfg, l, idle, pool, grid, s, templates[s]);
        grid := grid + [templates[s]];
        continue;
      }
      OffsetsGrow(cfg, l, d);
      var row := FillRow(cfg, l, idle, pool, s, d, templates[s], subcarriers);
      FilledMore(cfg, l, idle, pool, grid, s, row);
      grid := grid + [row];
      d := d + 1;
    }
  }

  lemma SyncIgnoresPool(cfg: Config, l: Layout, idle: bool, pool: seq<int>, s: nat, row: seq<Cell>)
    requires IsLayout(cfg, l) && Plain(cfg) && s < cfg.numSymbols && IsZcSync(cfg, s)
    requires Filled(cfg, l, idle, [], s, row)
    ensures Filled(cfg, l, idle, pool, s, row)
  {
    hide IsLayout, Plain, IsZcSync;
  }

  // ---------------------------------------------------------------------------------------------
  // The transmitter of a link.

  /** The uplink frame of a link is plain exactly if it is all downlink. */
  lemma UplinkFrameIsPlainIff(link: Config)
    requires UplinkSymbols(link) >= 2
    ensures Plain(UplinkConfig(link)) <==> link.fdd || link.ulStart >= UplinkSymbols(link)
  {
    UplinkFrameIsAllDownlinkIff(link);
  }

  lemma {:induction false} CountAfterFirst(mask: seq<bool>, n: nat)
    requires 1 <= n <= |mask| && !mask[0]
    ensures CountTrue(mask, n) <= n - 1
    ensures CountTrue(mask, n) == n - 1 <==> forall i | 1 <= i < n :: mask[i]
  {
    if n > 1 {
      CountAfterFirst(mask, n - 1);
    }
  }

  /**
   The transmitter steps its counter once per symbol after the sync symbol. The layout has that many rows
   exactly under the same condition; otherwise the counter runs past them.
   */
  lemma CounterFitsIff(link: Config, l: Layout)
    requires UplinkSymbols(link) >= 2 && Tables(UplinkConfig(link), l)
    ensures |l.dataSymbols| <= UplinkSymbols(link) - 1
    ensures |l.dataSymbols| == UplinkSymbols(link) - 1 <==> link.fdd || link.ulStart >= UplinkSymbols(link)
  {
    var cfg := UplinkConfig(link);
    UplinkFrameIsAllDownlinkIff(link);
    UplinkDataMask(cfg);
    CountAfterFirst(DataMask(cfg), cfg.numSymbols);
    RowsAreCounted(cfg, l);
    hide Tables, InDownlink, DataMask, UplinkSymbols;
    if !link.fdd && link.ulStart < cfg.numSymbols {
      LastIsUplink(link);
      assert !DataMask(cfg)[cfg.numSymbols - 1];
    }
  }

  lemma UplinkDataMask(cfg: Config)
    requires cfg.syncPos == 0 && !cfg.secSync && !cfg.cfoTraining && cfg.midframe == [] && cfg.numSymbols > 0
    ensures !DataMask(cfg)[0] && forall s | 1 <= s < cfg.numSymbols :: DataMask(cfg)[s] == InDownlink(cfg, s)
  {
    hide InDownlink;
  }

  lemma RowsAreCounted(cfg: Config, l: Layout)
    requires Tables(cfg, l)
    ensures |l.dataSymbols| == CountTrue(DataMask(cfg), cfg.numSymbols)
  {
  }

  lemma LastIsUplink(link: Config)
    requires UplinkSymbols(link) >= 2 && !link.fdd && link.ulStart < UplinkSymbols(link)
    ensures !InDownlink(UplinkConfig(link), UplinkSymbols(link) - 1)
  {
    var cfg := UplinkConfig(link);
    assert HasRange(cfg);
    assert ClampedCount(cfg) == cfg.numSymbols - cfg.ulStart;
  }

  /** The layout of the derived frame fails exactly if a TDD range without guard starts at its sync symbol. */
  lemma UplinkLayoutBuildsIff(link: Config)
    requires UplinkSymbols(link) >= 2
    ensures LayoutOk(UplinkConfig(link)) <==> link.fdd || link.ulStart > 0 || link.ulGuard > 0
  {
    var cfg := UplinkConfig(link);
    if !link.fdd && link.ulStart == 0 && link.ulGuard == 0 {
      assert InUplinkData(cfg, 0) && IsReserved(cfg, 0);
    }
  }

  /**
   The counter does run past the tables: whenever the link frame is valid and the derived layout is built
   but the side condition fails, there are fewer rows than the transmitter counts symbols.
   */
  lemma CounterRunsPast(link: Config, l: Layout)
    requires DuplexOk(link) && UplinkSymbols(link) >= 2 && IsLayout(UplinkConfig(link), l)
    requires !link.fdd && link.ulStart < UplinkSymbols(link)
    ensures |l.dataSymbols| < UplinkSymbols(link) - 1
  {
    HasTables(UplinkConfig(link), l);
    hide *;
    CounterFitsIff(link, l);
  }

  /** Such a link: 14 symbols, uplink from symbol 3 on with one guard symbol. */
  function EarlyUplink(): Config {
    Config(14, 8, 0, false, false, 0, [], [0], false, [], true, false, 3, 11, 1)
  }

  /** Its link frame is valid, its derived frame of 10 symbols has a layout, and every such layout is short. */
  lemma EarlyUplinkRunsPast(l: Layout)
    requires IsLayout(UplinkConfig(EarlyUplink()), l)
    ensures LayoutOk(EarlyUplink()) && UplinkSymbols(EarlyUplink()) == 10 && LayoutOk(UplinkConfig(EarlyUplink()))
    ensures |l.dataSymbols| < UplinkSymbols(EarlyUplink()) - 1
  {
    UplinkLayoutBuildsIff(EarlyUplink());
    CounterRunsPast(EarlyUplink(), l);
  }

  /** A period made of the head of the queue, or of idle content if no packet goes in. */
  ghost predicate IsPeriod(cfg: Config, l: Layout, idle: bool, queue: seq<seq<int>>, idlePool: seq<int>, n: nat,
                           grid: Grid, rest: seq<seq<int>>) {
    && Fills(queue, l.payloadCount, n)
    && FilledTo(cfg, l, idle, if Joined(queue[..n]) == [] then idlePool else Joined(queue[..n]), grid, cfg.numSymbols)
    && rest == Remaining(queue, l.payloadCount, n)
  }

  /**
   Layout, templates, packets and grid of one period together. A payload symbol goes on a pilot or on the
   sync symbol in no case; payload symbol q of the pool goes on exactly the payload element of rank q.
   */
  method BuildPeriod(link: Config, idle: bool, queue: seq<seq<int>>, idlePool: seq<int>)
    returns (grid: Grid, rest: seq<seq<int>>, ghost l: Layout, ghost taken: nat)
    requires DuplexOk(link) && UplinkSymbols(link) >= 2 && (link.fdd || link.ulStart >= UplinkSymbols(link))
    ensures IsLayout(UplinkConfig(link), l) && Plain(UplinkConfig(link))
    ensures IsPeriod(UplinkConfig(link), l, idle, queue, idlePool, taken, grid, rest)
  {
    UplinkFrameIsPlainIff(link);
    UplinkLayoutBuildsIff(link);
    hide Plain, IsLayout, FilledTo, LayoutOk, Fills, Joined;
    var made := MakeUplinkConfig(link);
    var cfg := made.value;
    var built := BuildLayout(cfg);
    l := built.value;
    var templates, subcarriers := BuildTemplates(cfg, built.value, idle);
    var pool;
    pool, rest, taken := FillPool(queue, built.value.payloadCount);
    if pool == [] {
      pool := idlePool;
    }
    grid := BuildGrid(cfg, built.value, idle, pool, templates, subcarriers);
  }

  /** What a grid filled so means for a receiver reading by rank. */
  lemma PayloadIsWhereItsRankSays(cfg: Config, l: Layout, idle: bool, pool: seq<int>, grid: Grid, f: nat)
    requires FilledTo(cfg, l, idle, pool, grid, cfg.numSymbols) && f < Size(l) && |l.payloadRank| == Size(l)
    ensures SymbolOf(l, f) < cfg.numSymbols == |grid| && SubcarrierOf(l, f) < cfg.fftSize
    ensures |grid[SymbolOf(l, f)]| == cfg.fftSize
    ensures grid[SymbolOf(l, f)][SubcarrierOf(l, f)].Data? <==> 0 <= l.payloadRank[f] < |pool|
    ensures 0 <= l.payloadRank[f] < |pool| ==>
              grid[SymbolOf(l, f)][SubcarrierOf(l, f)] == Data(pool[l.payloadRank[f]])
  {
    ElementAtIs(cfg, l, f);
    PlainData(cfg, SymbolOf(l, f));
    hide IsPayload, IsSensing, Plain, IsZcSync, IsPilot, IsData, SymbolOf, SubcarrierOf, Tables;
    FilledAt(cfg, l, idle, pool, grid, cfg.numSymbols, SymbolOf(l, f));
  }

  /** The pool is the packets end to end: symbol j of packet i comes after all symbols of the packets before it. */
  lemma {:induction false} JoinedHolds(queue: seq<seq<int>>, n: nat, i: nat, j: nat)
    requires i < n <= |queue| && j < |queue[i]|
    ensures |Joined(queue[..i])| + j < |Joined(queue[..n])|
    ensures Joined(queue[..n])[|Joined(queue[..i])| + j] == queue[i][j]
    ensures |Joined(queue[..i + 1])| == |Joined(queue[..i])| + |queue[i]| && Joined(queue[..0]) == []
  {
    assert queue[..n][..n - 1] == queue[..n - 1];
    assert queue[..i + 1][..i] == queue[..i];
    if i < n - 1 {
      JoinedHolds(queue, n - 1, i, j);
    }
  }

  /** No packet is lost but one that no frame can hold: the others stay in order behind those taken. */
  lemma QueueIsKept(queue: seq<seq<int>>, capacity: nat, n: nat)
    requires Fills(queue, capacity, n)
    ensures var rest := Remaining(queue, capacity, n);
            || rest == queue[n..]
            || (n < |queue| && |queue[n]| > capacity && rest == queue[n + 1..])
    ensures n < |queue| && |queue[n]| <= capacity ==> Remaining(queue, capacity, n) == queue[n..]
    ensures n < |queue| && |queue[n]| > capacity ==>
              Remaining(queue, capacity, n) == if |Joined(queue[..n])| < capacity then queue[n + 1..] else queue[n..]
  {
  }

  /** Without payload symbol: the known sequence on sync symbols, pilots, unused elements; idle filler by rank. */
  lemma OtherCellsAreKnown(cfg: Config, l: Layout, idle: bool, pool: seq<int>, grid: Grid, s: nat, k: nat)
    requires FilledTo(cfg, l, idle, pool, grid, cfg.numSymbols) && s < cfg.numSymbols && k < cfg.fftSize
    ensures s < |grid| && k < |grid[s]| && |l.payloadMask| == Size(l) == |l.payloadRank|
    ensures s == 0 || k in cfg.pilots ==> grid[s][k] == Zc(k)
    ensures forall f | 0 <= f < Size(l) && SymbolOf(l, f) == s && SubcarrierOf(l, f) == k ::
              && (!l.payloadMask[f] ==> grid[s][k] == Zc(k))
              && (l.payloadMask[f] && l.payloadRank[f] >= |pool| ==>
                    grid[s][k] == if idle then Idle(l.payloadRank[f]) else Blank)
  {
    FilledAt(cfg, l, idle, pool, grid, cfg.numSymbols, s);
    assert IsZcSync(cfg, s) <==> s == 0;
    hide IsPayload, IsSensing, Tables, SymbolOf, SubcarrierOf;
    forall f | 0 <= f < Size(l) && SymbolOf(l, f) == s && SubcarrierOf(l, f) == k
      ensures IsData(cfg, s) && !IsPilot(cfg, k) && ElementAt(cfg, l, s, k) == f
    {
      ElementAtIs(cfg, l, f);
    }
  }
}
