/**
 The part of the configuration that fixes the frame: which symbols are reserved, which are downlink,
 uplink or guard, and the frame derived for the uplink.
 */
module FrameConfig {
  import opened Outcomes

  /** A resource block; `sensing` tells a sensing pilot from payload. */
  datatype Block = Block(sensing: bool, symbolStart: nat, symbolCount: nat, scStart: nat, scCount: nat)

  datatype Config = Config(
    numSymbols: nat,
    fftSize: nat,
    syncPos: nat,
    secSync: bool,
    cfoTraining: bool,
    cfoPeriod: nat,
    midframe: seq<nat>,
    pilots: seq<nat>,
    blocksConfigured: bool,
    blocks: seq<Block>,
    uplinkOn: bool,
    fdd: bool,
    ulStart: nat,
    ulCount: nat,
    ulGuard: nat)

  // ---------------------------------------------------------------------------------------------
  // Reserved symbols.

  predicate IsZcSync(cfg: Config, s: nat) {
    s == cfg.syncPos || (cfg.secSync && cfg.syncPos > 0 && s + 1 == cfg.syncPos)
  }

  predicate IsCfoTraining(cfg: Config, s: nat) {
    cfg.cfoTraining && s == cfg.syncPos + 1
  }

  predicate IsReserved(cfg: Config, s: nat) {
    IsZcSync(cfg, s) || IsCfoTraining(cfg, s)
  }

  // ---------------------------------------------------------------------------------------------
  // The duplex partition.

  /** A TDD uplink range that lies at least partly in the frame. */
  predicate HasRange(cfg: Config) {
    cfg.uplinkOn && !cfg.fdd && cfg.ulCount > 0 && cfg.ulStart < cfg.numSymbols
  }

  function ClampedCount(cfg: Config): nat {
    if !HasRange(cfg) then 0
    else if cfg.ulStart + cfg.ulCount > cfg.numSymbols then cfg.numSymbols - cfg.ulStart
    else cfg.ulCount
  }

  function ClampedGuard(cfg: Config): nat {
    if !HasRange(cfg) then 0
    else if cfg.ulGuard > ClampedCount(cfg) then ClampedCount(cfg)
    else cfg.ulGuard
  }

  predicate InGuard(cfg: Config, s: nat) {
    HasRange(cfg) && cfg.ulStart <= s < cfg.ulStart + ClampedGuard(cfg)
  }

  predicate InUplinkData(cfg: Config, s: nat) {
    HasRange(cfg) && cfg.ulStart + ClampedGuard(cfg) <= s < cfg.ulStart + ClampedCount(cfg)
  }

  predicate InDownlink(cfg: Config, s: nat) {
    cfg.fdd || (!InGuard(cfg, s) && !InUplinkData(cfg, s))
  }

  /** `DuplexFrameLayout`. */
  datatype Duplex = Duplex(
    fdd: bool,
    enabled: bool,
    start: nat,
    count: nat,
    guard: nat,
    uplinkMask: seq<bool>,
    guardMask: seq<bool>)
  {
    predicate IsUplink(s: nat) {
      if fdd then enabled else s < |uplinkMask| && uplinkMask[s]
    }

    predicate IsGuard(s: nat) {
      !fdd && s < |guardMask| && guardMask[s]
    }

    predicate IsDownlink(s: nat) {
      fdd || (!IsUplink(s) && !IsGuard(s))
    }
  }

  function Falses(n: nat): (r: seq<bool>)
    ensures |r| == n && forall i | 0 <= i < n :: !r[i]
  {
    seq(n, _ => false)
  }

  /** The uplink data may not fall on a reserved symbol. */
  ghost predicate DuplexOk(cfg: Config) {
    forall s: nat :: InUplinkData(cfg, s) ==> !IsReserved(cfg, s)
  }

  /** `build_duplex_frame_layout`. */
  method BuildDuplexFrameLayout(cfg: Config) returns (r: Result<Duplex>)
    ensures r.Ok? <==> DuplexOk(cfg)
    ensures r.Ok? ==> r.value.fdd == cfg.fdd && r.value.guard == ClampedGuard(cfg)
    ensures r.Ok? ==> r.value.count == if cfg.fdd && cfg.uplinkOn then cfg.numSymbols else ClampedCount(cfg)
    ensures r.Ok? && !cfg.fdd ==>
              r.value.count == if !cfg.uplinkOn || cfg.ulStart >= cfg.numSymbols then 0
                               else if cfg.ulCount <= cfg.numSymbols - cfg.ulStart then cfg.ulCount
                               else cfg.numSymbols - cfg.ulStart
    ensures r.Ok? && !cfg.fdd ==>
              r.value.guard == if cfg.ulGuard <= r.value.count then cfg.ulGuard else r.value.count
    ensures r.Ok? ==> r.value.start == if !cfg.fdd && r.value.count > 0 then cfg.ulStart else 0
    ensures r.Ok? ==> (r.value.enabled <==>
              cfg.uplinkOn && (cfg.fdd || ClampedCount(cfg) > ClampedGuard(cfg)))
    ensures r.Ok? && !cfg.fdd ==> forall s: nat ::
              (r.value.IsUplink(s) <==> InUplinkData(cfg, s)) && (r.value.IsGuard(s) <==> InGuard(cfg, s))
    ensures r.Ok? && cfg.fdd ==> forall s: nat :: (r.value.IsUplink(s) <==> cfg.uplinkOn) && !r.value.IsGuard(s)
    ensures r.Ok? ==> forall s: nat :: r.value.IsDownlink(s) <==> InDownlink(cfg, s)
  {
    var none := Falses(cfg.numSymbols);
    if !cfg.uplinkOn {
      return Ok(Duplex(cfg.fdd, false, 0, 0, 0, none, none));
    }
    if cfg.fdd {
      return Ok(Duplex(true, true, 0, cfg.numSymbols, 0, [], []));
    }
    var start, count, guard := cfg.ulStart, cfg.ulCount, cfg.ulGuard;
    if count == 0 || start >= cfg.numSymbols {
      return Ok(Duplex(false, false, 0, 0, 0, none, none));
    }
    if start + count > cfg.numSymbols {
      count := cfg.numSymbols - start;
    }
    if guard > count {
      guard := count;
    }
    var uplinkMask, guardMask := none, none;
    for s := start to start + count
      invariant |uplinkMask| == cfg.numSymbols && |guardMask| == cfg.numSymbols
      invariant forall i | 0 <= i < cfg.numSymbols :: uplinkMask[i] <==> start + guard <= i < s
      invariant forall i | 0 <= i < cfg.numSymbols :: guardMask[i] <==> start <= i < s && i < start + guard
      invariant forall i: nat | start + guard <= i < s :: !IsReserved(cfg, i)
    {
      if s < start + guard {
        guardMask := guardMask[s := true];
      } else {
        if IsReserved(cfg, s) {
          assert InUplinkData(cfg, s);
          return Fail;
        }
        uplinkMask := uplinkMask[s := true];
      }
    }
    return Ok(Duplex(false, count > guard, start, count, guard, uplinkMask, guardMask));
  }

  // ---------------------------------------------------------------------------------------------
  // The uplink frame.

  function UplinkSymbols(cfg: Config): nat {
    if !cfg.uplinkOn then 0
    else if cfg.fdd then cfg.numSymbols
    else ClampedCount(cfg) - ClampedGuard(cfg)
  }

  /** The frame derived for the uplink: compact, without the downlink's extras, but with its uplink range. */
  function UplinkConfig(cfg: Config): Config {
    cfg.(numSymbols := UplinkSymbols(cfg), syncPos := 0, secSync := false, cfoTraining := false,
         midframe := [], blocksConfigured := false, blocks := [])
  }

  /** `make_uplink_config`, which lays out the link frame to learn the length and so shares its failure. */
  method MakeUplinkConfig(cfg: Config) returns (r: Result<Config>)
    ensures r.Ok? <==> DuplexOk(cfg)
    ensures r.Ok? ==> r.value == UplinkConfig(cfg)
    ensures r.Ok? ==> r.value.midframe == [] && !r.value.blocksConfigured && r.value.blocks == []
    ensures r.Ok? ==> forall s: nat :: IsReserved(r.value, s) <==> s == 0
    ensures r.Ok? ==> r.value.fftSize == cfg.fftSize && r.value.pilots == cfg.pilots
  {
    var duplex := BuildDuplexFrameLayout(cfg);
    if duplex.Fail? {
      return Fail;
    }
    var symbols :=
      if !cfg.uplinkOn then 0
      else if cfg.fdd then cfg.numSymbols
      else if duplex.value.count > duplex.value.guard then duplex.value.count - duplex.value.guard
      else 0;
    return Ok(cfg.(numSymbols := symbols, syncPos := 0, secSync := false, cfoTraining := false,
                   midframe := [], blocksConfigured := false, blocks := []));
  }

  ghost predicate AllDownlink(cfg: Config) {
    forall s: nat | s < cfg.numSymbols :: InDownlink(cfg, s)
  }

  /**
   The derived frame keeps the uplink range of the link frame, so it is all downlink, as a transmitter
   counting its own data symbols needs, exactly under FDD or if the range starts at or beyond its end.
   */
  lemma UplinkFrameIsAllDownlinkIff(cfg: Config)
    requires UplinkSymbols(cfg) >= 2
    ensures AllDownlink(UplinkConfig(cfg)) <==> cfg.fdd || cfg.ulStart >= UplinkSymbols(cfg)
  {
    var ul := UplinkConfig(cfg);
    if !cfg.fdd && cfg.ulStart < ul.numSymbols {
      assert HasRange(ul) && ClampedCount(ul) > 0;
      assert InGuard(ul, cfg.ulStart) || InUplinkData(ul, cfg.ulStart);
      assert !InDownlink(ul, cfg.ulStart);
    }
  }

  /** The duplex partition, from the configured range cut off at the end of the frame. */
  lemma DuplexPartition(cfg: Config, s: nat)
    ensures var active := cfg.uplinkOn && !cfg.fdd && cfg.ulCount > 0 && cfg.ulStart < cfg.numSymbols;
            var end := if cfg.ulStart + cfg.ulCount > cfg.numSymbols then cfg.numSymbols else cfg.ulStart + cfg.ulCount;
            var data := if cfg.ulStart + cfg.ulGuard > end then end else cfg.ulStart + cfg.ulGuard;
            && (InGuard(cfg, s) <==> active && cfg.ulStart <= s < data)
            && (InUplinkData(cfg, s) <==> active && data <= s < end)
            && (InDownlink(cfg, s) <==> !(active && cfg.ulStart <= s < end))
            && UplinkSymbols(cfg)
               == (if active then end - data else if cfg.uplinkOn && cfg.fdd then cfg.numSymbols else 0)
  {
  }

  /** The reserved symbols: the sync symbol, one before it if enabled and there is one, one after it if enabled. */
  lemma ReservedSymbols(cfg: Config, s: nat)
    ensures IsReserved(cfg, s) <==>
            || s == cfg.syncPos
            || (cfg.secSync && s + 1 == cfg.syncPos)
            || (cfg.cfoTraining && s == cfg.syncPos + 1)
    ensures IsZcSync(cfg, s) <==> s == cfg.syncPos || (cfg.secSync && s + 1 == cfg.syncPos)
  {
  }
}
