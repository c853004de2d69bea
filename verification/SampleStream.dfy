/**
 The sample ring with producer and consumer interleaved (sequentially consistent, positions unbounded).
 The positions are read once per chunk and may be stale when the chunk is copied, sample by sample, and
 published. Calls stop early when they find the ring full or empty.
 */
module SampleStream {
  import opened Integers
  import opened RingIndex
  import opened ShmRing

  /** `push_block` between chunks, or with `done` samples of a chunk copied; `start` is where it began. */
  datatype Producer<T> =
    | PIdle
    | Pushing(data: seq<T>, count: nat, start: nat)
    | CopyingIn(data: seq<T>, count: nat, start: nat, chunk: nat, done: nat)

  /** `pop_block`, `pop_upto` and `skip_block`. */
  datatype Request = Pop(count: nat) | UpTo(count: nat) | Skip(count: nat)

  datatype Consumer<T> =
    | CIdle
    | Reading(request: Request, out: seq<T>, taken: nat, rounds: nat, start: nat)
    | Taking(request: Request, out: seq<T>, taken: nat, rounds: nat, start: nat, chunk: nat, copied: seq<T>)

  /** What became of a sample: handed to the reader, or skipped. */
  datatype Fate<T> = Read(sample: T) | Skipped

  /** `written` lists all published samples, `fates` what became of those consumed. */
  datatype Stream<T> = Stream(
    slots: seq<T>,
    writePos: nat,
    readPos: nat,
    origin: i64,
    producer: Producer<T>,
    consumer: Consumer<T>,
    written: seq<T>,
    fates: seq<Fate<T>>)

  datatype Step<T> =
    | PushCall(data: seq<T>)
    | PushLoad
    | PushCopy
    | PushPublish
    | PushReturn
    | PopCall(request: Request)
    | PopLoad
    | PopCopy
    | PopPublish
    | PopReturn
    | NameOrigin(wanted: i64)

  // ---------------------------------------------------------------------------------------------
  // The steps.

  function Free<T>(s: Stream<T>): int {
    |s.slots| - (s.writePos - s.readPos)
  }

  /** Whether the consumer's loop goes round again. */
  predicate More(request: Request, taken: nat, rounds: nat) {
    if request.UpTo? then rounds == 0 else taken < request.count
  }

  /** Where the split copy of a chunk puts, or finds, its sample number `done`. */
  function CopySlot(pos: nat, chunk: nat, done: nat, capacity: nat): (k: nat)
    requires done < chunk <= capacity
    ensures k < capacity
  {
    var at := pos % capacity;
    var first := if chunk <= capacity - at then chunk else capacity - at;
    if done < first then at + done else done - first
  }

  predicate Enabled<T>(s: Stream<T>, step: Step<T>) {
    match step
    case PushCall(data) => s.producer.PIdle?
    case PushLoad => s.producer.Pushing? && s.producer.count < |s.producer.data|
    case PushCopy =>
      && s.producer.CopyingIn? && s.producer.done < s.producer.chunk <= |s.slots|
      && s.producer.count + s.producer.chunk <= |s.producer.data|
    case PushPublish =>
      && s.producer.CopyingIn? && s.producer.done == s.producer.chunk
      && s.producer.count + s.producer.chunk <= |s.producer.data|
    case PushReturn => s.producer.Pushing? && (s.producer.count == |s.producer.data| || Free(s) == 0)
    case PopCall(request) => s.consumer.CIdle?
    case PopLoad => s.consumer.Reading? && More(s.consumer.request, s.consumer.taken, s.consumer.rounds)
    case PopCopy =>
      s.consumer.Taking? && !s.consumer.request.Skip? && |s.consumer.copied| < s.consumer.chunk <= |s.slots|
    case PopPublish =>
      s.consumer.Taking? && (s.consumer.request.Skip? || |s.consumer.copied| == s.consumer.chunk)
    case PopReturn =>
      && s.consumer.Reading?
      && (!More(s.consumer.request, s.consumer.taken, s.consumer.rounds) || s.writePos == s.readPos)
    case NameOrigin(wanted) => true
  }

  function Loaded<T>(s: Stream<T>): Producer<T>
    requires s.producer.Pushing? && s.producer.count < |s.producer.data|
  {
    var p := s.producer;
    if Free(s) <= 0 then p
    else CopyingIn(p.data, p.count, p.start, Min(Free(s), |p.data| - p.count), 0)
  }

  function LoadedPop<T>(s: Stream<T>): Consumer<T>
    requires s.consumer.Reading?
  {
    var c := s.consumer;
    if s.writePos <= s.readPos || c.taken > c.request.count then c
    else Taking(c.request, c.out, c.taken, c.rounds, c.start,
                Min(s.writePos - s.readPos, c.request.count - c.taken), [])
  }

  function Fates<T>(c: Consumer<T>): (r: seq<Fate<T>>)
    requires c.Taking? && (c.request.Skip? || |c.copied| == c.chunk)
    ensures |r| == c.chunk
    ensures forall k | 0 <= k < c.chunk :: r[k] == if c.request.Skip? then Skipped else Read(c.copied[k])
  {
    if c.request.Skip? then seq(c.chunk, _ => Skipped)
    else seq(c.chunk, k requires 0 <= k < c.chunk => Read(c.copied[k]))
  }

  function After<T>(s: Stream<T>, step: Step<T>): Stream<T>
    requires Enabled(s, step)
  {
    var p := s.producer;
    var c := s.consumer;
    match step
    case PushCall(data) => s.(producer := Pushing(data, 0, s.writePos))
    case PushLoad => s.(producer := Loaded(s))
    case PushCopy =>
      s.(slots := s.slots[CopySlot(s.writePos, p.chunk, p.done, |s.slots|) := p.data[p.count + p.done]],
         producer := p.(done := p.done + 1))
    case PushPublish =>
      s.(writePos := s.writePos + p.chunk,
         written := s.written + p.data[p.count..p.count + p.chunk],
         producer := Pushing(p.data, p.count + p.chunk, p.start))
    case PushReturn => s.(producer := PIdle)
    case PopCall(request) => s.(consumer := Reading(request, [], 0, 0, s.readPos))
    case PopLoad => s.(consumer := LoadedPop(s))
    case PopCopy =>
      s.(consumer := c.(copied := c.copied + [s.slots[CopySlot(s.readPos, c.chunk, |c.copied|, |s.slots|)]]))
    case PopPublish =>
      s.(readPos := s.readPos + c.chunk, fates := s.fates + Fates(c),
         consumer := Reading(c.request, c.out + c.copied, c.taken + c.chunk, c.rounds + 1, c.start))
    case PopReturn => s.(consumer := CIdle)
    case NameOrigin(wanted) => s.(origin := SetOrigin(s.origin, wanted).0)
  }

  ghost predicate Initial<T>(s: Stream<T>) {
    && s.writePos == 0 && s.readPos == 0 && s.origin == I64_MIN
    && s.producer == PIdle && s.consumer == CIdle && s.written == [] && s.fates == []
  }

  // ---------------------------------------------------------------------------------------------
  // The invariant.

  ghost predicate Bounds<T>(s: Stream<T>) {
    && s.readPos <= s.writePos <= s.readPos + |s.slots|
    && |s.written| == s.writePos && |s.fates| == s.readPos
    && (s.producer.CopyingIn? ==>
          && s.producer.done <= s.producer.chunk && s.writePos + s.producer.chunk <= s.readPos + |s.slots|
          && s.producer.count + s.producer.chunk <= |s.producer.data|)
    && (s.consumer.Taking? ==>
          && |s.consumer.copied| <= s.consumer.chunk && s.readPos + s.consumer.chunk <= s.writePos
          && s.consumer.taken + s.consumer.chunk <= s.consumer.request.count)
  }

  /** The ring holds the unread samples, and behind them what the producer has copied of its chunk. */
  ghost predicate Holds<T>(s: Stream<T>)
    requires Bounds(s)
  {
    && (forall i: nat | s.readPos <= i < s.writePos :: s.slots[Slot(i, |s.slots|)] == s.written[i])
    && (s.producer.CopyingIn? ==> forall i: nat | s.writePos <= i < s.writePos + s.producer.done ::
          s.slots[Slot(i, |s.slots|)] == s.producer.data[s.producer.count + (i - s.writePos)])
  }

  /** What a call has delivered so far, even if it stops early. */
  ghost predicate Progress<T>(s: Stream<T>)
    requires Bounds(s)
  {
    && (!s.producer.PIdle? ==>
          && s.producer.count <= |s.producer.data| && s.producer.start + s.producer.count == s.writePos
          && s.written[s.producer.start..] == s.producer.data[..s.producer.count])
    && (!s.consumer.CIdle? ==>
          && s.consumer.taken <= s.consumer.request.count && s.consumer.start + s.consumer.taken == s.readPos
          && s.consumer.out == (if s.consumer.request.Skip? then [] else s.written[s.consumer.start..s.readPos])
          && (s.consumer.taken == 0 < s.consumer.request.count ==> s.consumer.rounds == 0)
          && (s.consumer.request.UpTo? ==> s.consumer.rounds <= 1))
    && (s.consumer.Taking? ==>
          && (s.consumer.chunk > 0 || s.consumer.taken == s.consumer.request.count)
          && (s.consumer.request.UpTo? ==> s.consumer.rounds == 0)
          && s.consumer.copied == s.written[s.readPos..s.readPos + |s.consumer.copied|]
          && (s.consumer.request.Skip? ==> s.consumer.copied == []))
  }

  ghost predicate Faithful<T>(s: Stream<T>) {
    |s.fates| <= |s.written| && forall k | 0 <= k < |s.fates| :: s.fates[k].Read? ==> s.fates[k].sample == s.written[k]
  }

  ghost predicate Inv<T>(s: Stream<T>) {
    Bounds(s) && Holds(s) && Progress(s) && Faithful(s)
  }

  lemma CopySlotIs(pos: nat, chunk: nat, done: nat, capacity: nat)
    requires done < chunk <= capacity
    ensures CopySlot(pos, chunk, done, capacity) == Slot(pos + done, capacity)
  {
    SlotAfter(pos, done, capacity);
  }

  lemma BoundsKept<T>(s: Stream<T>, step: Step<T>)
    requires Inv(s) && Enabled(s, step)
    ensures Bounds(After(s, step))
  {
    hide CopySlot, Holds, Faithful;
  }

  /** The next slot to fill holds no unread sample and none of the chunk already copied. */
  lemma PushCopyHolds<T>(s: Stream<T>)
    requires Inv(s) && Enabled(s, PushCopy)
    ensures Bounds(After(s, PushCopy)) && Holds(After(s, PushCopy))
  {
    var p := s.producer;
    var cap := |s.slots|;
    var top := s.writePos + p.done;
    CopySlotIs(s.writePos, p.chunk, p.done, cap);
    forall i: nat | s.readPos <= i < top
      ensures Slot(i, cap) != Slot(top, cap)
    {
      SlotsDiffer(i, top, cap);
    }
    hide Slot, CopySlot, Progress, Faithful;
  }

  lemma PublishHolds<T>(s: Stream<T>)
    requires Inv(s) && Enabled(s, PushPublish)
    ensures Bounds(After(s, PushPublish)) && Holds(After(s, PushPublish))
  {
    hide Slot, Progress, Faithful;
  }

  lemma HoldsKept<T>(s: Stream<T>, step: Step<T>)
    requires Inv(s) && Enabled(s, step)
    ensures Bounds(After(s, step)) && Holds(After(s, step))
  {
    hide Slot, CopySlot, Faithful, Progress;
    if step.PushCopy? {
      PushCopyHolds(s);
    } else if step.PushPublish? {
      PublishHolds(s);
    } else {
      BoundsKept(s, step);
    }
  }

  lemma PublishProgress<T>(s: Stream<T>)
    requires Inv(s) && Enabled(s, PushPublish) && Bounds(After(s, PushPublish))
    ensures Progress(After(s, PushPublish))
  {
    hide Slot, Holds, Faithful;
    var p := s.producer;
    assert p.data[..p.count + p.chunk] == p.data[..p.count] + p.data[p.count..p.count + p.chunk];
  }

  lemma NextSample<T>(s: Stream<T>)
    requires Inv(s) && Enabled(s, PopCopy)
    ensures var c := s.consumer;
            s.slots[CopySlot(s.readPos, c.chunk, |c.copied|, |s.slots|)] == s.written[s.readPos + |c.copied|]
  {
    hide Slot, CopySlot, Faithful, Progress;
    var c := s.consumer;
    CopySlotIs(s.readPos, c.chunk, |c.copied|, |s.slots|);
  }

  lemma PopCopyProgress<T>(s: Stream<T>)
    requires Inv(s) && Enabled(s, PopCopy) && Bounds(After(s, PopCopy))
    ensures Progress(After(s, PopCopy))
  {
    hide Slot, CopySlot, Faithful, Holds;
    NextSample(s);
    var i := s.readPos + |s.consumer.copied|;
    assert s.written[s.readPos..i + 1] == s.written[s.readPos..i] + [s.written[i]];
  }

  lemma PopPublishProgress<T>(s: Stream<T>)
    requires Inv(s) && Enabled(s, PopPublish) && Bounds(After(s, PopPublish))
    ensures Progress(After(s, PopPublish))
  {
    hide Slot, Holds, Faithful;
    var c := s.consumer;
    if !c.request.Skip? {
      assert s.written[c.start..s.readPos + c.chunk]
          == s.written[c.start..s.readPos] + s.written[s.readPos..s.readPos + c.chunk];
    }
  }

  lemma ProgressKept<T>(s: Stream<T>, step: Step<T>)
    requires Inv(s) && Enabled(s, step) && Bounds(After(s, step))
    ensures Progress(After(s, step))
  {
    hide Slot, CopySlot, Faithful, Holds;
    if step.PushPublish? {
      PublishProgress(s);
    } else if step.PopCopy? {
      PopCopyProgress(s);
    } else if step.PopPublish? {
      PopPublishProgress(s);
    }
  }

  lemma FaithfulKept<T>(s: Stream<T>, step: Step<T>)
    requires Inv(s) && Enabled(s, step) && Bounds(After(s, step))
    ensures Faithful(After(s, step))
  {
    hide Slot, CopySlot, Holds;
  }

  lemma StepKeepsInv<T>(s: Stream<T>, step: Step<T>)
    requires Inv(s) && Enabled(s, step)
    ensures Inv(After(s, step))
  {
    HoldsKept(s, step);
    hide Enabled, After, Bounds, Holds, Progress, Faithful;
    ProgressKept(s, step);
    FaithfulKept(s, step);
  }

  // ---------------------------------------------------------------------------------------------
  // Every interleaving.

  ghost predicate IsRun<T>(states: seq<Stream<T>>, steps: seq<Step<T>>) {
    && |states| == |steps| + 1 && Initial(states[0])
    && forall i | 0 <= i < |steps| :: Enabled(states[i], steps[i]) && states[i + 1] == After(states[i], steps[i])
  }

  lemma {:induction false} RunInv<T>(states: seq<Stream<T>>, steps: seq<Step<T>>, i: nat)
    requires IsRun(states, steps) && i < |states|
    ensures Inv(states[i])
  {
    hide Enabled, After;
    if i > 0 {
      RunInv(states, steps, i - 1);
      hide Inv;
      StepKeepsInv(states[i - 1], steps[i - 1]);
    }
  }

  /** The k-th sample written is the k-th read or skipped. */
  lemma KthIsKth<T>(states: seq<Stream<T>>, steps: seq<Step<T>>, i: nat, k: nat)
    requires IsRun(states, steps) && i < |states| && k < |states[i].fates|
    ensures |states[i].fates| == states[i].readPos <= states[i].writePos == |states[i].written|
    ensures states[i].fates[k].Read? ==> states[i].fates[k].sample == states[i].written[k]
  {
    RunInv(states, steps, i);
    hide IsRun, Holds, Progress;
  }

  /**
   A push that has returned, or stopped early because it found the ring full, put exactly the first `count`
   of its samples in line.
   */
  lemma PushedInLine<T>(states: seq<Stream<T>>, steps: seq<Step<T>>, i: nat)
    requires IsRun(states, steps) && i < |steps| && steps[i] == PushReturn
    ensures var s := states[i]; var p := s.producer;
            && p.Pushing? && p.count <= |p.data| && p.start <= |s.written|
            && s.written == s.written[..p.start] + p.data[..p.count]
            && (p.count < |p.data| ==> s.writePos == s.readPos + |s.slots|)
  {
    RunInv(states, steps, i);
    assert Enabled(states[i], steps[i]);
    hide IsRun, Holds, Faithful;
    var s := states[i];
    assert s.written == s.written[..s.producer.start] + s.written[s.producer.start..];
  }

  /**
   A pop that returns hands out consecutive samples of the stream, from where the last call stopped. It
   returns early only when it finds the ring empty; `pop_upto` takes one chunk, and nothing only then.
   */
  lemma PoppedInLine<T>(states: seq<Stream<T>>, steps: seq<Step<T>>, i: nat)
    requires IsRun(states, steps) && i < |steps| && steps[i] == PopReturn
    ensures var s := states[i]; var c := s.consumer;
            && c.Reading? && c.start + c.taken == s.readPos <= |s.written| && c.taken <= c.request.count
            && (!c.request.Skip? ==> c.out == s.written[c.start..s.readPos])
            && (c.taken < c.request.count && (c.taken == 0 || !c.request.UpTo?) ==> s.readPos == s.writePos)
            && (c.request.UpTo? ==> c.rounds <= 1)
  {
    RunInv(states, steps, i);
    assert Enabled(states[i], steps[i]);
    hide IsRun, Holds, Faithful;
  }

  /** The first origin named is the origin from then on. */
  lemma FirstOriginWins<T>(states: seq<Stream<T>>, steps: seq<Step<T>>, i: nat, j: nat, wanted: i64)
    requires IsRun(states, steps) && i < j < |states| && steps[i] == NameOrigin(wanted) && wanted != I64_MIN
    requires states[i].origin == I64_MIN
    ensures states[j].origin == wanted
  {
    assert states[i + 1] == After(states[i], steps[i]);
    hide IsRun;
    Settles(states, steps, i + 1, j);
  }

  /** The streams only grow, and the origin never changes once it is set. */
  lemma {:induction false} Settles<T>(states: seq<Stream<T>>, steps: seq<Step<T>>, i: nat, j: nat)
    requires IsRun(states, steps) && i <= j < |states|
    ensures states[i].written <= states[j].written && states[i].fates <= states[j].fates
    ensures states[i].origin != I64_MIN ==> states[j].origin == states[i].origin
  {
    if i < j {
      Settles(states, steps, i, j - 1);
      var s, t := states[j - 1], states[j];
      assert Enabled(s, steps[j - 1]) && t == After(s, steps[j - 1]);
      hide IsRun;
      assert s.written <= t.written && s.fates <= t.fates;
    }
  }

  /**
   Once the origin is set, sample k has the absolute index origin + k for good: that is what
   `absolute_consumed` answers just before it is read, below saturation.
   */
  lemma SampleIndexIsStable<T>(states: seq<Stream<T>>, steps: seq<Step<T>>, i: nat, j: nat)
    requires IsRun(states, steps) && i <= j < |states| && states[i].origin != I64_MIN
    requires states[j].readPos <= I64_MAX && states[i].origin + states[j].readPos <= I64_MAX
    ensures Absolute(states[j].origin, states[j].readPos) == states[i].origin + |states[j].fates|
  {
    RunInv(states, steps, j);
    Settles(states, steps, i, j);
    hide IsRun, Holds, Progress, Faithful;
  }

  // ---------------------------------------------------------------------------------------------
  // Calls that nobody disturbs.

  /** Enabled steps that lead from one state to another. */
  ghost predicate Leads<T>(s: Stream<T>, steps: seq<Step<T>>, t: Stream<T>)
    decreases |steps|
  {
    if steps == [] then s == t else Enabled(s, steps[0]) && Leads(After(s, steps[0]), steps[1..], t)
  }

  lemma {:induction false} LeadsOn<T>(s: Stream<T>, steps: seq<Step<T>>, t: Stream<T>, step: Step<T>)
    requires Leads(s, steps, t) && Enabled(t, step)
    ensures Leads(s, steps + [step], After(t, step))
    decreases |steps|
  {
    hide Enabled, After;
    if steps != [] {
      LeadsOn(After(s, steps[0]), steps[1..], t, step);
      assert (steps + [step])[1..] == steps[1..] + [step];
    }
  }

  lemma LeadsNowhere<T>(s: Stream<T>)
    ensures Leads(s, [], s)
  {
  }

  lemma {:induction false} LeadsKeepInv<T>(s: Stream<T>, steps: seq<Step<T>>, t: Stream<T>)
    requires Leads(s, steps, t) && Inv(s)
    ensures Inv(t)
    decreases |steps|
  {
    hide Enabled, After, Inv;
    if steps != [] {
      StepKeepsInv(s, steps[0]);
      LeadsKeepInv(After(s, steps[0]), steps[1..], t);
    }
  }

  /** The copies of a chunk, up to sample n. */
  lemma {:induction false} CopiesGoOn<T>(s: Stream<T>, before: seq<Step<T>>, u: Stream<T>, n: nat)
    returns (steps: seq<Step<T>>, t: Stream<T>)
    requires Leads(s, before, u) && u.producer.CopyingIn? && u.producer.done == 0 && n <= u.producer.chunk <= |u.slots|
    requires u.producer.count + u.producer.chunk <= |u.producer.data|
    ensures Leads(s, steps, t) && |t.slots| == |u.slots|
    ensures t == u.(slots := t.slots, producer := u.producer.(done := n))
  {
    hide Leads, CopySlot;
    if n == 0 {
      steps, t := before, u;
    } else {
      var earlier, v := CopiesGoOn(s, before, u, n - 1);
      LeadsOn(s, earlier, v, PushCopy);
      steps, t := earlier + [PushCopy], After(v, PushCopy);
    }
  }

  /** A producer left alone writes as many of its samples as there is room for, in order, and returns. */
  lemma PushCompletes<T>(s: Stream<T>, data: seq<T>) returns (steps: seq<Step<T>>, t: Stream<T>)
    requires Inv(s) && s.producer.PIdle?
    ensures Free(s) >= 0 && Leads(s, steps, t) && t.written == s.written + data[..Min(|data|, Free(s))]
    ensures t.producer.PIdle? && t.consumer == s.consumer && t.readPos == s.readPos
  {
    LeadsNowhere(s);
    LeadsOn(s, [], s, PushCall(data));
    var begun, u := [] + [PushCall(data)], After(s, PushCall(data));
    if data != [] && Free(s) > 0 {
      LeadsOn(s, begun, u, PushLoad);
      var loaded := After(u, PushLoad);
      var copied, v := CopiesGoOn(s, begun + [PushLoad], loaded, loaded.producer.chunk);
      LeadsOn(s, copied, v, PushPublish);
      begun, u := copied + [PushPublish], After(v, PushPublish);
    }
    LeadsOn(s, begun, u, PushReturn);
    steps, t := begun + [PushReturn], After(u, PushReturn);
  }

  lemma {:induction false} FetchesGoOn<T>(s: Stream<T>, before: seq<Step<T>>, u: Stream<T>, n: nat)
    returns (steps: seq<Step<T>>, t: Stream<T>)
    requires Leads(s, before, u) && u.consumer.Taking? && !u.consumer.request.Skip? && u.consumer.copied == []
    requires n <= u.consumer.chunk <= |u.slots|
    ensures Leads(s, steps, t) && t.consumer.Taking? && |t.consumer.copied| == n
    ensures t == u.(consumer := u.consumer.(copied := t.consumer.copied))
  {
    hide Leads, CopySlot;
    if n == 0 {
      steps, t := before, u;
    } else {
      var earlier, v := FetchesGoOn(s, before, u, n - 1);
      LeadsOn(s, earlier, v, PopCopy);
      steps, t := earlier + [PopCopy], After(v, PopCopy);
    }
  }

  /** One round of the consumer's loop, from a state with unread samples. */
  lemma RoundGoesOn<T>(s: Stream<T>, before: seq<Step<T>>, u: Stream<T>) returns (steps: seq<Step<T>>, t: Stream<T>)
    requires Leads(s, before, u) && u.readPos < u.writePos <= u.readPos + |u.slots|
    requires u.consumer.Reading? && u.consumer.taken == u.consumer.rounds == 0 && More(u.consumer.request, 0, 0)
    ensures Leads(s, steps, t) && t.consumer.Reading?
    ensures t.consumer.taken == Min(u.consumer.request.count, u.writePos - u.readPos) && t.consumer.rounds == 1
    ensures t == u.(readPos := u.readPos + t.consumer.taken, fates := t.fates,
                    consumer := Reading(u.consumer.request, t.consumer.out, t.consumer.taken, 1, u.consumer.start))
  {
    hide Leads, CopySlot;
    LeadsOn(s, before, u, PopLoad);
    steps, t := before + [PopLoad], After(u, PopLoad);
    if !u.consumer.request.Skip? {
      steps, t := FetchesGoOn(s, steps, t, t.consumer.chunk);
    }
    LeadsOn(s, steps, t, PopPublish);
    steps, t := steps + [PopPublish], After(t, PopPublish);
  }

  /**
   A consumer left alone gets, or skips, as many of the oldest unread samples as it asked for and there are,
   and returns.
   */
  lemma PopCompletes<T>(s: Stream<T>, request: Request) returns (steps: seq<Step<T>>, t: Stream<T>)
    requires Inv(s) && s.consumer.CIdle?
    ensures s.readPos <= s.writePos && Leads(s, steps, t)
    ensures Enabled(t, PopReturn) && After(t, PopReturn) == t.(consumer := CIdle)
    ensures t.readPos == s.readPos + Min(request.count, s.writePos - s.readPos) <= |t.written|
    ensures t.written == s.written && t.producer == s.producer && t.consumer.Reading? && t.consumer.request == request
    ensures !request.Skip? ==> t.consumer.out == s.written[s.readPos..t.readPos]
  {
    LeadsNowhere(s);
    LeadsOn(s, [], s, PopCall(request));
    steps, t := [] + [PopCall(request)], After(s, PopCall(request));
    if s.writePos > s.readPos && More(request, 0, 0) {
      steps, t := RoundGoesOn(s, steps, t);
    }
    LeadsKeepInv(s, steps, t);
    hide Leads, Holds, Faithful;
  }
}
