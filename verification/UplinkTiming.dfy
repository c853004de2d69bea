/**
 The send path of the uplink transmit engine: one period per round, lengthened or shortened until the
 applied timing shift meets the target. The radio is a parameter: it accepts any part of what it is
 offered. Times are in samples.
 */
module UplinkTiming {
  import opened ComplexValues

  type Sample = Complex

  datatype TimeSpec = Untimed | At(tick: int)

  datatype Metadata = Metadata(time: TimeSpec, startOfBurst: bool)

  const PLAIN := Metadata(Untimed, false)

  const SPIN_LIMIT := 10_000_000

  /** Samples the radio accepted in one go, and the metadata they came with. */
  datatype Block = Block(meta: Metadata, samples: seq<Sample>)

  /** Everything that went on the air. */
  function Air(blocks: seq<Block>): seq<Sample> {
    if blocks == [] then [] else Air(blocks[..|blocks| - 1]) + blocks[|blocks| - 1].samples
  }

  lemma AirOfLast(a: seq<Block>)
    requires a != []
    ensures Air(a) == Air(a[..|a| - 1]) + a[|a| - 1].samples
  {
  }

  lemma {:induction false} AirJoins(a: seq<Block>, b: seq<Block>)
    ensures Air(a + b) == Air(a) + Air(b)
  {
    if b == [] {
      assert a + b == a;
    } else {
      AirJoins(a, b[..|b| - 1]);
      AirOfLast(a + b);
      AirOfLast(b);
      assert (a + b)[..|a + b| - 1] == a + b[..|b| - 1];
      hide Air;
    }
  }

  /** The metadata goes out with the first samples and with no others. */
  ghost predicate MetaOnce(blocks: seq<Block>, md: Metadata) {
    forall i | 0 <= i < |blocks| ::
      blocks[i].samples != [] && blocks[i].meta == if i == 0 then md else Metadata(Untimed, false)
  }

  /** Between `before` and `after` exactly `samples` went out, announced by `md`. */
  ghost predicate Sends(before: seq<Block>, after: seq<Block>, md: Metadata, samples: seq<Sample>) {
    && before <= after
    && Air(after[|before|..]) == samples
    && MetaOnce(after[|before|..], md)
  }

  lemma SendsNothing(a: seq<Block>, md: Metadata)
    ensures Sends(a, a, md, [])
  {
  }

  lemma SendsOne(a: seq<Block>, md: Metadata, samples: seq<Sample>)
    requires samples != []
    ensures Sends(a, a + [Block(md, samples)], md, samples)
  {
    assert (a + [Block(md, samples)])[|a|..] == [Block(md, samples)];
    assert Air([Block(md, samples)]) == [] + samples;
  }

  lemma SendsThen(a: seq<Block>, b: seq<Block>, c: seq<Block>, md: Metadata, x: seq<Sample>, y: seq<Sample>)
    requires Sends(a, b, md, x) && Sends(b, c, if x == [] then md else PLAIN, y)
    ensures Sends(a, c, md, x + y)
  {
    var first, second := b[|a|..], c[|b|..];
    assert c[|a|..] == first + second;
    AirJoins(first, second);
  }

  // ---------------------------------------------------------------------------------------------
  // When sending is given up.

  /** The last SPIN_LIMIT of the first n answers accepted nothing. */
  ghost predicate Stuck(answers: seq<nat>, n: nat)
    requires n <= |answers|
  {
    n >= SPIN_LIMIT && forall k | n - SPIN_LIMIT <= k < n :: answers[k] == 0
  }

  /** The radio, now with answers `left`, has stopped, or was stuck at some point since it had `all`. */
  ghost predicate GaveUp(all: seq<nat>, left: seq<nat>) {
    left == [] || exists n: nat | n <= |all| - |left| :: Stuck(all, n)
  }

  ghost predicate Remains(all: seq<nat>, left: seq<nat>) {
    |left| <= |all| && left == all[|all| - |left|..]
  }

  lemma RemainsOn(all: seq<nat>, mid: seq<nat>, left: seq<nat>)
    requires Remains(all, mid) && Remains(mid, left)
    ensures Remains(all, left)
    ensures GaveUp(all, mid) || GaveUp(mid, left) ==> GaveUp(all, left)
  {
    var gone := |all| - |mid|;
    if left != [] && GaveUp(all, mid) {
      var n: nat :| n <= gone && Stuck(all, n);
      assert n <= |all| - |left|;
    } else if left != [] && GaveUp(mid, left) {
      var n: nat :| n <= |mid| - |left| && Stuck(mid, n);
      assert forall k | gone + n - SPIN_LIMIT <= k < gone + n :: all[k] == mid[k - gone];
      assert Stuck(all, gone + n);
    }
  }

  lemma RemainsAll(all: seq<nat>)
    ensures Remains(all, all)
  {
  }

  lemma StuckHere(all: seq<nat>, left: seq<nat>)
    requires |left| <= |all| && Stuck(all, |all| - |left|)
    ensures GaveUp(all, left)
  {
  }

  lemma Exhausted(all: seq<nat>, left: seq<nat>)
    ensures left == [] ==> GaveUp(all, left)
  {
  }

  // ---------------------------------------------------------------------------------------------
  // The radio and the send loops.

  class Radio {
    var blocks: seq<Block>
    /** How much it will accept per call; once these run out, transmission has been stopped. */
    var answers: seq<nat>

    constructor (accepts: seq<nat>)
      ensures blocks == [] && answers == accepts
    {
      blocks, answers := [], accepts;
    }

    method Send(data: seq<Sample>, md: Metadata) returns (sent: nat)
      requires answers != []
      modifies this
      ensures sent == (if old(answers)[0] <= |data| then old(answers)[0] else |data|)
      ensures answers == old(answers)[1..] && Sends(old(blocks), blocks, md, data[..sent])
    {
      sent := if answers[0] <= |data| then answers[0] else |data|;
      answers := answers[1..];
      SendsNothing(blocks, md);
      if sent > 0 {
        SendsOne(blocks, md, data[..sent]);
        blocks := blocks + [Block(md, data[..sent])];
      }
    }

    /** `_send_samples`. */
    method SendSamples(data: seq<Sample>, firstMd: Metadata) returns (sentTotal: nat)
      modifies this
      ensures sentTotal <= |data| && Sends(old(blocks), blocks, firstMd, data[..sentTotal])
      ensures Remains(old(answers), answers) && (sentTotal < |data| ==> GaveUp(old(answers), answers))
    {
      hide Sends, GaveUp;
      sentTotal := 0;
      var md := firstMd;
      var spins := 0;
      SendsNothing(blocks, firstMd);
      while sentTotal < |data| && answers != []
        invariant sentTotal <= |data| && Sends(old(blocks), blocks, firstMd, data[..sentTotal])
        invariant md == if sentTotal == 0 then firstMd else PLAIN
        invariant Remains(old(answers), answers) && 0 <= spins < SPIN_LIMIT
        invariant var gone := |old(answers)| - |answers|;
                  spins <= gone && forall k | gone - spins <= k < gone :: old(answers)[k] == 0
        decreases |answers|
      {
        ghost var before := blocks;
        var sent := Send(data[sentTotal..], md);
        SendsThen(old(blocks), before, blocks, firstMd, data[..sentTotal], data[sentTotal..][..sent]);
        assert data[..sentTotal] + data[sentTotal..][..sent] == data[..sentTotal + sent];
        if sent == 0 {
          spins := spins + 1;
          if spins >= SPIN_LIMIT {
            StuckHere(old(answers), answers);
            break;
          }
          continue;
        }
        spins := 0;
        sentTotal := sentTotal + sent;
        md := PLAIN;
      }
      Exhausted(old(answers), answers);
    }

    /** `_send_zeros`, out of a pad buffer of `pad` zeros. */
    method SendZeros(count: nat, pad: nat, firstMd: Metadata) returns (sentTotal: nat)
      requires pad > 0
      modifies this
      ensures sentTotal <= count && Sends(old(blocks), blocks, firstMd, Zeros(sentTotal))
      ensures Remains(old(answers), answers) && (sentTotal < count ==> GaveUp(old(answers), answers))
    {
      hide Sends, GaveUp, Remains;
      RemainsAll(answers);
      sentTotal := 0;
      var md := firstMd;
      SendsNothing(blocks, firstMd);
      while sentTotal < count && answers != []
        invariant sentTotal <= count && Sends(old(blocks), blocks, firstMd, Zeros(sentTotal))
        invariant md == if sentTotal == 0 then firstMd else PLAIN
        invariant Remains(old(answers), answers)
        decreases count - sentTotal
      {
        var chunk := if pad <= count - sentTotal then pad else count - sentTotal;
        ghost var before, left := blocks, answers;
        var sent := SendSamples(Zeros(chunk), md);
        RemainsOn(old(answers), left, answers);
        SendsThen(old(blocks), before, blocks, firstMd, Zeros(sentTotal), Zeros(chunk)[..sent]);
        assert Zeros(sentTotal) + Zeros(chunk)[..sent] == Zeros(sentTotal + sent);
        sentTotal := sentTotal + sent;
        if sent < chunk {
          break;
        }
        md := PLAIN;
      }
      Exhausted(old(answers), answers);
    }

    /** `_send_period_samples`; a disabled waveform goes out as zeros. */
    method SendPeriodSamples(frame: seq<Sample>, offset: nat, count: nat, enabled: bool, md: Metadata)
      returns (sent: nat)
      modifies this
      ensures sent <= |Part(Shown(frame, enabled), offset, count)|
      ensures Sends(old(blocks), blocks, md, Part(Shown(frame, enabled), offset, count)[..sent])
      ensures Remains(old(answers), answers)
      ensures sent < |Part(Shown(frame, enabled), offset, count)| ==> GaveUp(old(answers), answers)
    {
      hide GaveUp;
      if offset >= |frame| || count == 0 {
        SendsNothing(blocks, md);
        return 0;
      }
      var end := if count >= |frame| - offset then |frame| else offset + count;
      if enabled {
        sent := SendSamples(frame[offset..end], md);
      } else {
        sent := SendZeros(end - offset, |frame|, md);
        assert Part(Zeros(|frame|), offset, count) == Zeros(end - offset);
        assert Zeros(sent) == Zeros(end - offset)[..sent];
      }
    }

    /**
     `_send_period_with_stream_shift`. What goes out is a prefix of the samples this period should have;
     the shift is applied exactly if all of them went out.
     */
    method SendPeriod(frame: seq<Sample>, enabled: bool, md: Metadata, target: int, applied: int)
      returns (sent: nat, expected: int, complete: bool, newApplied: int)
      requires |frame| > 0
      modifies this
      ensures sent <= |Wanted(frame, enabled, target - applied)| == expected
      ensures Sends(old(blocks), blocks, md, Wanted(frame, enabled, target - applied)[..sent])
      ensures complete <==> sent == expected
      ensures newApplied == if complete then NextShift(|frame|, target, applied) else applied
      ensures Remains(old(answers), answers) && (!complete ==> GaveUp(old(answers), answers))
    {
      hide Sends, Air, GaveUp, Remains;
      RemainsAll(answers);
      var delta := target - applied;
      expected, newApplied := |frame|, applied;
      ghost var wanted := Wanted(frame, enabled, delta);
      if delta < 0 {
        var insert := -delta;
        expected := expected + insert;
        sent := SendPeriodSamples(frame, 0, |frame|, enabled, md);
        assert wanted[..sent] == Part(Shown(frame, enabled), 0, |frame|)[..sent];
        if sent < |frame| {
          complete := false;
          return;
        }
        ghost var before, left := blocks, answers;
        var inserted := SendZeros(insert, |frame|, PLAIN);
        RemainsOn(old(answers), left, answers);
        SendsThen(old(blocks), before, blocks, md, wanted[..sent], Zeros(inserted));
        assert wanted[..sent] + Zeros(inserted) == wanted[..sent + inserted];
        sent := sent + inserted;
        complete := inserted == insert;
        if complete {
          newApplied := target;
        }
        return;
      } else if delta > 0 {
        var skip := if delta <= |frame| then delta else |frame|;
        expected := expected - skip;
        if skip >= |frame| {
          SendsNothing(blocks, md);
          sent, complete, newApplied := 0, true, applied + skip;
          return;
        }
        sent := SendPeriodSamples(frame, 0, |frame| - skip, enabled, md);
        assert wanted[..sent] == Part(Shown(frame, enabled), 0, |frame| - skip)[..sent];
        complete := sent == |frame| - skip;
        if complete {
          newApplied := applied + skip;
        }
        return;
      }
      sent := SendPeriodSamples(frame, 0, |frame|, enabled, md);
      assert wanted[..sent] == Part(Shown(frame, enabled), 0, |frame|)[..sent];
      complete := sent == |frame|;
    }
  }

  function Zeros(n: nat): (r: seq<Sample>)
    ensures |r| == n
  {
    seq(n, _ => ZERO)
  }

  function Shown(frame: seq<Sample>, enabled: bool): (r: seq<Sample>)
    ensures |r| == |frame|
  {
    if enabled then frame else Zeros(|frame|)
  }

  /** At most `count` samples from `offset` on. */
  function Part(samples: seq<Sample>, offset: nat, count: nat): (r: seq<Sample>)
    ensures |r| <= count && (offset == 0 && count <= |samples| ==> r == samples[..count])
  {
    if offset >= |samples| then []
    else samples[offset..if count >= |samples| - offset then |samples| else offset + count]
  }

  /** How much of an advance one period of `period` samples can take. */
  function Skipped(period: nat, delta: int): (n: nat)
    ensures n <= period
  {
    if delta <= 0 then 0 else if delta <= period then delta else period
  }

  /** The samples of a period: without its end when advancing, followed by zeros when delaying. */
  function Wanted(frame: seq<Sample>, enabled: bool, delta: int): (r: seq<Sample>)
    ensures |r| == |frame| - Skipped(|frame|, delta) + if delta < 0 then -delta else 0
  {
    Shown(frame, enabled)[..|frame| - Skipped(|frame|, delta)] + Zeros(if delta < 0 then -delta else 0)
  }

  /** The applied shift after a complete period. */
  function NextShift(period: nat, target: int, applied: int): int {
    if target < applied then target else applied + Skipped(period, target - applied)
  }

  // ---------------------------------------------------------------------------------------------
  // Whole runs.

  /** One round of the loop: what was to go out, what the target was, and what the radio took. */
  datatype Round = Round(target: int, sent: nat)

  function PeriodLength(period: nat, target: int, applied: int): (n: nat) {
    period - Skipped(period, target - applied) + if target < applied then applied - target else 0
  }

  /** The applied shift before round n. */
  function ShiftAt(period: nat, initial: int, rounds: seq<Round>, n: nat): int
    requires n <= |rounds|
  {
    if n == 0 then initial
    else
      var before := ShiftAt(period, initial, rounds, n - 1);
      if rounds[n - 1].sent == PeriodLength(period, rounds[n - 1].target, before)
      then NextShift(period, rounds[n - 1].target, before) else before
  }

  function SentBefore(rounds: seq<Round>, n: nat): nat
    requires n <= |rounds|
  {
    if n == 0 then 0 else SentBefore(rounds, n - 1) + rounds[n - 1].sent
  }

  /** Round i took everything it should. */
  predicate Complete(period: nat, initial: int, rounds: seq<Round>, i: nat)
    requires i < |rounds|
  {
    rounds[i].sent == PeriodLength(period, rounds[i].target, ShiftAt(period, initial, rounds, i))
  }

  /** How many samples round i fell short of what was due in it. */
  function Shortfall(period: nat, initial: int, rounds: seq<Round>, i: nat): int
    requires i < |rounds|
  {
    PeriodLength(period, rounds[i].target, ShiftAt(period, initial, rounds, i)) - rounds[i].sent
  }

  /** The change of shift round i set out to make but, being incomplete, did not apply. */
  function Unapplied(period: nat, initial: int, rounds: seq<Round>, i: nat): int
    requires i < |rounds|
  {
    if Complete(period, initial, rounds, i) then 0
    else
      var applied := ShiftAt(period, initial, rounds, i);
      NextShift(period, rounds[i].target, applied) - applied
  }

  /** What the first n rounds lost: samples that were due and never went out, and shifts not applied. */
  function Lost(period: nat, initial: int, rounds: seq<Round>, n: nat): int
    requires n <= |rounds|
  {
    if n == 0 then 0
    else
      Lost(period, initial, rounds, n - 1)
      + Shortfall(period, initial, rounds, n - 1) + Unapplied(period, initial, rounds, n - 1)
  }

  /**
   Conservation with underflow: over any run, samples sent + applied shift = periods + initial shift, less
   the samples that were due and did not go out and the shifts left unapplied in those rounds.
   */
  lemma {:induction false} ShiftIsAccounted(period: nat, initial: int, rounds: seq<Round>, n: nat)
    requires n <= |rounds|
    ensures SentBefore(rounds, n) + ShiftAt(period, initial, rounds, n) + Lost(period, initial, rounds, n)
            == n * period + initial
  {
    if n > 0 {
      ShiftIsAccounted(period, initial, rounds, n - 1);
      assert n * period == (n - 1) * period + period;
    }
  }

  lemma {:induction false} NothingLost(period: nat, initial: int, rounds: seq<Round>, n: nat)
    requires n <= |rounds| && forall i | 0 <= i < n :: Complete(period, initial, rounds, i)
    ensures Lost(period, initial, rounds, n) == 0
  {
    if n > 0 {
      NothingLost(period, initial, rounds, n - 1);
      assert Complete(period, initial, rounds, n - 1);
    }
  }

  /** Conservation: in a run of complete rounds, samples sent + applied shift = periods + initial shift. */
  lemma ShiftIsConserved(period: nat, initial: int, rounds: seq<Round>, n: nat)
    requires n <= |rounds| && forall i | 0 <= i < n :: Complete(period, initial, rounds, i)
    ensures SentBefore(rounds, n) + ShiftAt(period, initial, rounds, n) == n * period + initial
  {
    ShiftIsAccounted(period, initial, rounds, n);
    NothingLost(period, initial, rounds, n);
  }

  /** The periods it takes to reach a constant target. */
  function RoundsNeeded(period: nat, target: int, initial: int): nat
    requires period > 0
  {
    if target == initial then 0
    else if target < initial then 1
    else (target - initial + period - 1) / period
  }

  /** Under a constant target an advance proceeds by whole periods, then stops. */
  lemma {:induction false} ShiftProceeds(period: nat, initial: int, rounds: seq<Round>, n: nat, target: int)
    requires n <= |rounds| && forall i | 0 <= i < n :: Complete(period, initial, rounds, i)
    requires forall i | 0 <= i < n :: rounds[i].target == target
    ensures ShiftAt(period, initial, rounds, n)
            == if n == 0 then initial
               else if target <= initial + n * period then target
               else initial + n * period
  {
    if n > 0 {
      ShiftProceeds(period, initial, rounds, n - 1, target);
      assert Complete(period, initial, rounds, n - 1);
      assert n * period == (n - 1) * period + period;
      Grows(period, n - 1);
    }
  }

  lemma Grows(period: nat, n: nat)
    ensures n * period >= 0
  {
  }

  lemma CeilIs(a: nat, period: nat, n: nat)
    requires period > 0
    ensures a <= n * period <==> (a + period - 1) / period <= n
  {
    var q := (a + period - 1) / period;
    assert q * period <= a + period - 1 < q * period + period;
    if q <= n {
      assert q * period <= n * period;
    } else {
      assert (n + 1) * period <= q * period;
      assert (n + 1) * period == n * period + period;
    }
  }

  /** With a constant target the error is gone after exactly `RoundsNeeded` complete periods. */
  lemma TargetIsReached(period: nat, initial: int, rounds: seq<Round>, n: nat, target: int)
    requires period > 0 && n <= |rounds| && forall i | 0 <= i < n :: Complete(period, initial, rounds, i)
    requires forall i | 0 <= i < n :: rounds[i].target == target
    ensures ShiftAt(period, initial, rounds, n) == target <==> RoundsNeeded(period, target, initial) <= n
  {
    ShiftProceeds(period, initial, rounds, n, target);
    Grows(period, n);
    if target > initial {
      CeilIs(target - initial, period, n);
      assert 0 * period == 0;
    }
  }

  // ---------------------------------------------------------------------------------------------
  // The transmit loop.

  /** What each round finds: the frame queued for it, if any, and the shift asked for. */
  datatype Input = Input(queued: bool, frame: seq<Sample>, enabled: bool, target: int)

  function FrameOf(input: Input, period: nat): seq<Sample> {
    if input.queued then input.frame else Zeros(period)
  }

  /** The time announced for period n. */
  function Announced(start: int, period: nat, n: nat, target: int): int {
    start + n * period - target
  }

  /** The time at which period n really begins when the burst began at the time announced for it. */
  function AirTime(start: int, firstTarget: int, rounds: seq<Round>, n: nat): int
    requires n <= |rounds|
  {
    start - firstTarget + SentBefore(rounds, n)
  }

  /**
   In a burst whose periods all go out completely, period n begins at start + n * period - (shift applied
   by then). So as soon as the applied shift has met the target, the announced time is the real one.
   */
  lemma BoundaryFollowsShift(start: int, period: nat, firstTarget: int, rounds: seq<Round>, n: nat, target: int)
    requires n <= |rounds| && forall i | 0 <= i < n :: Complete(period, firstTarget, rounds, i)
    ensures var applied := ShiftAt(period, firstTarget, rounds, n);
            && AirTime(start, firstTarget, rounds, n) == Announced(start, period, n, applied)
            && (AirTime(start, firstTarget, rounds, n) == Announced(start, period, n, target) <==> applied == target)
  {
    ShiftIsConserved(period, firstTarget, rounds, n);
  }

  /** What the radio took in all rounds together. */
  function Together(log: seq<seq<Block>>): seq<Block> {
    if log == [] then [] else Together(log[..|log| - 1]) + log[|log| - 1]
  }

  /**
   Round i of the burst: a prefix of the samples due in the period, lengthened or shortened for the shift
   applied so far, announced for the boundary of that period; only round 0 starts a burst.
   */
  ghost predicate RoundSent(period: nat, start: int, inputs: seq<Input>, silent: nat, rounds: seq<Round>, i: nat,
                            blocks: seq<Block>) {
    && i < |rounds| && silent + i < |inputs|
    && var input := inputs[silent + i];
    && var wanted := Wanted(FrameOf(input, period), input.enabled,
                            input.target - ShiftAt(period, rounds[0].target, rounds, i));
    && rounds[i].target == input.target && rounds[i].sent <= |wanted|
    && Air(blocks) == wanted[..rounds[i].sent]
    && MetaOnce(blocks, Metadata(At(Announced(start, period, silent + i, input.target)), i == 0))
  }

  /** The shift in force after the rounds; the first of them got something out. */
  ghost predicate AppliedIs(period: nat, rounds: seq<Round>, applied: int) {
    rounds != [] ==> rounds[0].sent > 0 && applied == ShiftAt(period, rounds[0].target, rounds, |rounds|)
  }

  /** All the rounds of a burst. */
  ghost predicate BurstSent(period: nat, start: int, inputs: seq<Input>, silent: nat, rounds: seq<Round>,
                            log: seq<seq<Block>>) {
    |log| == |rounds| && forall i | 0 <= i < |rounds| :: RoundSent(period, start, inputs, silent, rounds, i, log[i])
  }

  ghost predicate AllComplete(period: nat, rounds: seq<Round>) {
    forall i | 0 <= i < |rounds| :: Complete(period, rounds[0].target, rounds, i)
  }

  /**
   The timed loop of `_tx_proc` over one burst: the first period that gets anything out fixes the shift
   by its metadata; later ones move the boundary by their length. `silent` rounds came before it. Every
   round is complete unless the radio stopped, or accepted nothing for SPIN_LIMIT calls in a row.
   */
  method Transmit(radio: Radio, period: nat, start: int, inputs: seq<Input>)
    returns (applied: int, rounds: seq<Round>, silent: nat, ghost log: seq<seq<Block>>)
    requires period > 0 && forall i | 0 <= i < |inputs| :: |inputs[i].frame| == period
    modifies radio
    ensures silent + |rounds| == |inputs|
    ensures AppliedIs(period, rounds, applied)
    ensures BurstSent(period, start, inputs, silent, rounds, log)
    ensures radio.blocks == old(radio.blocks) + Together(log)
    ensures GaveUp(old(radio.answers), radio.answers) || (silent == 0 && AllComplete(period, rounds))
  {
    hide Sends, Wanted, BurstSent, RoundSent, AppliedIs, Together, ShiftAt, Air, NextShift, Announced;
    hide GaveUp, Remains, AllComplete;
    RemainsAll(radio.answers);
    applied, rounds, silent, log := 0, [], 0, [];
    var first := true;
    var nextTick := start;
    ghost var was := radio.blocks;
    NoRounds(period, start, inputs, 0, 0);
    Boundaries(start, period, 0, 0);
    var i := 0;
    while i < |inputs|
      invariant i <= |inputs| && silent + |rounds| == i && nextTick == Announced(start, period, i, 0)
      invariant |log| == |rounds| && (first <==> rounds == [])
      invariant AppliedIs(period, rounds, applied)
      invariant BurstSent(period, start, inputs, silent, rounds, log)
      invariant radio.blocks == was + Together(log)
      invariant Remains(old(radio.answers), radio.answers)
      invariant GaveUp(old(radio.answers), radio.answers) || (silent == 0 && AllComplete(period, rounds))
    {
      var input := inputs[i];
      if first {
        applied := input.target;
      }
      var md := Metadata(At(nextTick - input.target), first);
      nextTick := nextTick + period;
      Boundaries(start, period, i, input.target);
      ghost var before, left := radio.blocks, radio.answers;
      ghost var shift := applied;
      var sent, expected, complete, after :=
        radio.SendPeriod(FrameOf(input, period), input.enabled, md, input.target, applied);
      applied := after;
      RemainsOn(old(radio.answers), left, radio.answers);
      if first && sent == 0 {
        NothingSent(period, start, inputs, silent + 1, before, radio.blocks, md, after);
        silent := silent + 1;
      } else {
        RoundRecorded(period, start, inputs, silent, rounds, log, shift, sent, after, was, before, radio.blocks);
        if complete {
          CompleteGrows(period, rounds, shift, Round(input.target, sent));
        }
        rounds, log := rounds + [Round(input.target, sent)], log + [radio.blocks[|before|..]];
        first := false;
      }
      i := i + 1;
    }
  }

  lemma Boundaries(start: int, period: nat, n: nat, target: int)
    ensures Announced(start, period, n, target) == Announced(start, period, n, 0) - target
    ensures Announced(start, period, n + 1, 0) == Announced(start, period, n, 0) + period
    ensures Announced(start, period, 0, 0) == start
  {
    assert (n + 1) * period == n * period + period;
  }

  lemma NoRounds(period: nat, start: int, inputs: seq<Input>, silent: nat, applied: int)
    ensures BurstSent(period, start, inputs, silent, [], []) && AppliedIs(period, [], applied) && Together([]) == []
    ensures AllComplete(period, [])
  {
  }

  lemma NothingSent(period: nat, start: int, inputs: seq<Input>, silent: nat, before: seq<Block>, after: seq<Block>,
                    md: Metadata, applied: int)
    requires Sends(before, after, md, [])
    ensures after == before && BurstSent(period, start, inputs, silent, [], []) && AppliedIs(period, [], applied)
  {
    SentHere(before, after, md, 0, []);
    NoRounds(period, start, inputs, silent, applied);
    hide *;
  }

  lemma SentHere(before: seq<Block>, after: seq<Block>, md: Metadata, sent: nat, wanted: seq<Sample>)
    requires sent <= |wanted| && Sends(before, after, md, wanted[..sent])
    ensures before <= after && after == before + after[|before|..]
    ensures Air(after[|before|..]) == wanted[..sent] && MetaOnce(after[|before|..], md)
    ensures sent == 0 ==> after == before
  {
    var more := after[|before|..];
    if more != [] {
      AirOfLast(more);
      assert more[|more| - 1].samples != [];
    }
  }

  /** A round that gets something out, or any later one, is recorded. */
  lemma RoundRecorded(period: nat, start: int, inputs: seq<Input>, silent: nat, rounds: seq<Round>,
                      log: seq<seq<Block>>, shift: int, sent: nat, after: int,
                      was: seq<Block>, earlier: seq<Block>, now: seq<Block>)
    requires BurstSent(period, start, inputs, silent, rounds, log) && silent + |rounds| < |inputs|
    requires |FrameOf(inputs[silent + |rounds|], period)| == period
    requires if rounds == [] then shift == inputs[silent].target && sent > 0 else AppliedIs(period, rounds, shift)
    requires earlier == was + Together(log)
    requires var input := inputs[silent + |rounds|];
             var wanted := Wanted(FrameOf(input, period), input.enabled, input.target - shift);
             var md := Metadata(At(Announced(start, period, silent + |rounds|, input.target)), rounds == []);
             && sent <= |wanted| && Sends(earlier, now, md, wanted[..sent])
             && after == if sent == |wanted| then NextShift(period, input.target, shift) else shift
    ensures var more := rounds + [Round(inputs[silent + |rounds|].target, sent)];
            && earlier <= now && AppliedIs(period, more, after)
            && BurstSent(period, start, inputs, silent, more, log + [now[|earlier|..]])
            && now == was + Together(log + [now[|earlier|..]])
  {
    hide Sends, BurstSent, RoundSent, Together, Air, NextShift, Announced, FrameOf, ShiftAt, MetaOnce;
    var input := inputs[silent + |rounds|];
    var wanted := Wanted(FrameOf(input, period), input.enabled, input.target - shift);
    var md := Metadata(At(Announced(start, period, silent + |rounds|, input.target)), rounds == []);
    SentHere(earlier, now, md, sent, wanted);
    PrefixFacts(period, if rounds == [] then shift else rounds[0].target, rounds, Round(input.target, sent));
    hide Wanted;
    BurstGrows(period, start, inputs, silent, rounds, log, shift, Round(input.target, sent), now[|earlier|..]);
  }

  lemma CompleteGrows(period: nat, rounds: seq<Round>, shift: int, last: Round)
    requires if rounds == [] then shift == last.target else AppliedIs(period, rounds, shift)
    requires last.sent == PeriodLength(period, last.target, shift)
    ensures AllComplete(period, rounds) ==> AllComplete(period, rounds + [last])
  {
    var more := rounds + [last];
    forall i | AllComplete(period, rounds) && 0 <= i < |more|
      ensures Complete(period, more[0].target, more, i)
    {
      SamePrefix(period, more[0].target, rounds, more, i);
      hide ShiftAt;
      assert i < |rounds| ==> Complete(period, rounds[0].target, rounds, i);
    }
  }

  lemma RoundKept(period: nat, start: int, inputs: seq<Input>, silent: nat, rounds: seq<Round>, last: Round, i: nat,
                  blocks: seq<Block>)
    requires i < |rounds| && RoundSent(period, start, inputs, silent, rounds, i, blocks)
    ensures RoundSent(period, start, inputs, silent, rounds + [last], i, blocks)
  {
    SamePrefix(period, rounds[0].target, rounds, rounds + [last], i);
    hide Wanted, MetaOnce, Air, ShiftAt;
  }

  lemma RoundNew(period: nat, start: int, inputs: seq<Input>, silent: nat, rounds: seq<Round>, shift: int,
                 last: Round, blocks: seq<Block>)
    requires silent + |rounds| < |inputs|
    requires shift == if rounds == [] then last.target else ShiftAt(period, rounds[0].target, rounds, |rounds|)
    requires var input := inputs[silent + |rounds|];
             && last.target == input.target
             && var wanted := Wanted(FrameOf(input, period), input.enabled, input.target - shift);
             && last.sent <= |wanted| && Air(blocks) == wanted[..last.sent]
             && MetaOnce(blocks, Metadata(At(Announced(start, period, silent + |rounds|, input.target)), rounds == []))
    ensures RoundSent(period, start, inputs, silent, rounds + [last], |rounds|, blocks)
  {
    hide Wanted, MetaOnce, Air, Announced, FrameOf;
    var more := rounds + [last];
    SamePrefix(period, more[0].target, rounds, more, |rounds|);
    assert ShiftAt(period, more[0].target, more, |rounds|) == shift;
    assert more[|rounds|] == last;
    hide ShiftAt;
  }

  lemma BurstGrows(period: nat, start: int, inputs: seq<Input>, silent: nat, rounds: seq<Round>, log: seq<seq<Block>>,
                   shift: int, last: Round, blocks: seq<Block>)
    requires BurstSent(period, start, inputs, silent, rounds, log) && silent + |rounds| < |inputs|
    requires shift == if rounds == [] then last.target else ShiftAt(period, rounds[0].target, rounds, |rounds|)
    requires var input := inputs[silent + |rounds|];
             && last.target == input.target
             && var wanted := Wanted(FrameOf(input, period), input.enabled, input.target - shift);
             && last.sent <= |wanted| && Air(blocks) == wanted[..last.sent]
             && MetaOnce(blocks, Metadata(At(Announced(start, period, silent + |rounds|, input.target)), rounds == []))
    ensures BurstSent(period, start, inputs, silent, rounds + [last], log + [blocks])
    ensures Together(log + [blocks]) == Together(log) + blocks
  {
    RoundNew(period, start, inputs, silent, rounds, shift, last, blocks);
    hide RoundSent, Wanted, MetaOnce, Air, ShiftAt, FrameOf, Announced;
    assert (log + [blocks])[..|log|] == log;
    forall i | 0 <= i < |rounds| + 1
      ensures RoundSent(period, start, inputs, silent, rounds + [last], i, (log + [blocks])[i])
    {
      if i < |rounds| {
        RoundKept(period, start, inputs, silent, rounds, last, i, log[i]);
      }
    }
  }

  lemma RoundLengths(period: nat, start: int, inputs: seq<Input>, silent: nat, rounds: seq<Round>, log: seq<seq<Block>>)
    requires BurstSent(period, start, inputs, silent, rounds, log)
    ensures forall i | 0 <= i < |rounds| :: |Air(log[i])| == rounds[i].sent
  {
    hide Wanted, MetaOnce, Air, ShiftAt;
    forall i | 0 <= i < |rounds|
      ensures |Air(log[i])| == rounds[i].sent
    {
      assert RoundSent(period, start, inputs, silent, rounds, i, log[i]);
    }
  }

  /** A piece stands at this place. */
  ghost predicate StandsAt<T(!new)>(all: seq<T>, at: nat, piece: seq<T>) {
    at + |piece| <= |all| && all[at..at + |piece|] == piece
  }

  lemma StandsLast<T(!new)>(before: seq<T>, piece: seq<T>)
    ensures StandsAt(before + piece, |before|, piece)
  {
  }

  lemma StandsOn<T(!new)>(all: seq<T>, at: nat, piece: seq<T>, more: seq<T>)
    requires StandsAt(all, at, piece)
    ensures StandsAt(all + more, at, piece)
  {
    assert (all + more)[at..at + |piece|] == all[at..at + |piece|];
  }

  lemma TogetherOne(log: seq<seq<Block>>, n: nat)
    requires n < |log|
    ensures Air(Together(log[..n + 1])) == Air(Together(log[..n])) + Air(log[n])
  {
    assert log[..n + 1][..n] == log[..n];
    AirJoins(Together(log[..n]), log[n]);
    hide Air;
  }

  lemma {:induction false} TogetherLength(rounds: seq<Round>, log: seq<seq<Block>>, n: nat)
    requires |log| == |rounds| && forall i | 0 <= i < |rounds| :: |Air(log[i])| == rounds[i].sent
    requires n <= |rounds|
    ensures |Air(Together(log[..n]))| == SentBefore(rounds, n)
  {
    if n > 0 {
      TogetherOne(log, n - 1);
      hide Air, Together;
      TogetherLength(rounds, log, n - 1);
    }
  }

  lemma {:induction false} TogetherAt(rounds: seq<Round>, log: seq<seq<Block>>, n: nat, i: nat)
    requires |log| == |rounds| && forall k | 0 <= k < |rounds| :: |Air(log[k])| == rounds[k].sent
    requires i < n <= |rounds|
    ensures StandsAt(Air(Together(log[..n])), SentBefore(rounds, i), Air(log[i]))
  {
    hide *;
    TogetherOne(log, n - 1);
    if i < n - 1 {
      TogetherAt(rounds, log, n - 1, i);
      StandsOn(Air(Together(log[..n - 1])), SentBefore(rounds, i), Air(log[i]), Air(log[n - 1]));
    } else {
      TogetherLength(rounds, log, n - 1);
      StandsLast(Air(Together(log[..n - 1])), Air(log[n - 1]));
    }
  }

  /** The samples of round i are on the air from where the earlier rounds end. */
  lemma RoundOnAir(period: nat, start: int, inputs: seq<Input>, silent: nat, rounds: seq<Round>,
                   log: seq<seq<Block>>, i: nat)
    requires BurstSent(period, start, inputs, silent, rounds, log) && i < |rounds| && silent + i < |inputs|
    ensures var air := Air(Together(log));
            var input := inputs[silent + i];
            var wanted := Wanted(FrameOf(input, period), input.enabled,
                                 input.target - ShiftAt(period, rounds[0].target, rounds, i));
            && |air| == SentBefore(rounds, |rounds|) && rounds[i].sent <= |wanted|
            && StandsAt(air, SentBefore(rounds, i), wanted[..rounds[i].sent])
  {
    hide Wanted, MetaOnce, Air, ShiftAt, SentBefore, Together, StandsAt;
    RoundLengths(period, start, inputs, silent, rounds, log);
    TogetherLength(rounds, log, |rounds|);
    TogetherAt(rounds, log, |rounds|, i);
    assert log[..|rounds|] == log;
    assert RoundSent(period, start, inputs, silent, rounds, i, log[i]);
  }

  /** Sample j of a period that is `delta` samples ahead (or behind, if negative), and how many there are. */
  lemma WantedAt(input: Input, period: nat, delta: int, j: nat)
    requires |input.frame| == period && j < |Wanted(FrameOf(input, period), input.enabled, delta)|
    ensures Wanted(FrameOf(input, period), input.enabled, delta)[j]
            == if input.queued && input.enabled && j < period && j + delta < period then input.frame[j] else ZERO
    ensures j < period - delta
  {
  }

  /**
   Sample by sample: where the earlier rounds end, round i puts the samples of its frame, if it has one and
   transmission is enabled, up to the end that the pending advance leaves of it; everything else is zero.
   No more than the period less the pending shift goes out.
   */
  lemma SampleOnAir(period: nat, start: int, inputs: seq<Input>, silent: nat, rounds: seq<Round>,
                    log: seq<seq<Block>>, i: nat, j: nat)
    requires BurstSent(period, start, inputs, silent, rounds, log) && i < |rounds| && silent + i < |inputs|
    requires |inputs[silent + i].frame| == period && j < rounds[i].sent
    ensures var input := inputs[silent + i];
            var delta := input.target - ShiftAt(period, rounds[0].target, rounds, i);
            var air := Air(Together(log));
            && j < period - delta && SentBefore(rounds, i) + j < |air|
            && air[SentBefore(rounds, i) + j]
               == if input.queued && input.enabled && j < period && j + delta < period then input.frame[j] else ZERO
  {
    hide Air, Together, ShiftAt, SentBefore, Wanted, FrameOf, BurstSent;
    RoundOnAir(period, start, inputs, silent, rounds, log, i);
    var input := inputs[silent + i];
    var delta := input.target - ShiftAt(period, rounds[0].target, rounds, i);
    WantedAt(input, period, delta, j);
    PieceAt(Air(Together(log)), SentBefore(rounds, i),
            Wanted(FrameOf(input, period), input.enabled, delta)[..rounds[i].sent], j);
  }

  lemma PieceAt<T(!new)>(all: seq<T>, at: nat, piece: seq<T>, j: nat)
    requires StandsAt(all, at, piece) && j < |piece|
    ensures at + j < |all| && all[at + j] == piece[j]
  {
    assert all[at..at + |piece|][j] == all[at + j];
  }

  lemma {:induction false} PrefixFacts(period: nat, base: int, rounds: seq<Round>, last: Round)
    ensures rounds == [] ==> ShiftAt(period, base, rounds, 0) == base
    ensures var more := rounds + [last];
            && SentBefore(more, |more|) == SentBefore(rounds, |rounds|) + last.sent
            && ShiftAt(period, base, more, |more|)
               == (var before := ShiftAt(period, base, rounds, |rounds|);
                   if last.sent == PeriodLength(period, last.target, before)
                   then NextShift(period, last.target, before) else before)
  {
    SamePrefix(period, base, rounds, rounds + [last], |rounds|);
  }

  lemma {:induction false} SamePrefix(period: nat, base: int, a: seq<Round>, b: seq<Round>, n: nat)
    requires n <= |a| && a <= b
    ensures SentBefore(a, n) == SentBefore(b, n) && ShiftAt(period, base, a, n) == ShiftAt(period, base, b, n)
  {
    if n > 0 {
      SamePrefix(period, base, a, b, n - 1);
    }
  }
}
