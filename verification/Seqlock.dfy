/**
 `SeqlockedChannelEstimate`: one writer, any number of readers, in atomic steps that interleave freely
 (sequentially consistent, counter unbounded). The packed samples are plain words here.
 */
module Seqlock {
  type Word = bv64

  type Vector = seq<Word>

  /** Where the writer stands: between stores, or with the first `i` words of `value` stored. */
  datatype Writer = Idle | Storing(value: Vector, i: nat)

  /** Where a reader stands: before its first counter read, or having copied `out` under counter `s1`. */
  datatype Phase = Starting | Copying(s1: nat, out: Vector)

  /** A load that returned true: what it returned, and how many stores were complete by then. */
  datatype Loaded = Loaded(version: nat, value: Vector)

  datatype Reader = Reader(phase: Phase, results: seq<Loaded>)

  /** `counter` and `buf` are shared; `published` lists the completed stores. */
  datatype Lock = Lock(
    size: nat,
    counter: nat,
    buf: Vector,
    writer: Writer,
    readers: seq<Reader>,
    published: seq<Vector>)

  datatype Step =
    | BeginStore(value: Vector)
    | StoreWord
    | EndStore
    | BeginLoad(r: nat)
    | LoadWord(r: nat)
    | EndLoad(r: nat)

  // ---------------------------------------------------------------------------------------------
  // The steps.

  predicate Enabled(s: Lock, step: Step) {
    match step
    case BeginStore(value) => s.writer.Idle? && |value| == s.size
    case StoreWord => s.writer.Storing? && s.writer.i < |s.writer.value| && s.writer.i < |s.buf|
    case EndStore => s.writer.Storing? && s.writer.i == s.size
    case BeginLoad(r) => r < |s.readers| && s.readers[r].phase.Starting?
    case LoadWord(r) =>
      r < |s.readers| && s.readers[r].phase.Copying? && |s.readers[r].phase.out| < s.size
      && |s.readers[r].phase.out| < |s.buf|
    case EndLoad(r) => r < |s.readers| && s.readers[r].phase.Copying? && |s.readers[r].phase.out| == s.size
  }

  /** The counter is odd while a store runs, and zero before the first: then there is nothing to copy. */
  function BegunLoad(s: Lock, reader: Reader): Reader {
    if s.counter % 2 == 1 || s.counter == 0 then reader else reader.(phase := Copying(s.counter, []))
  }

  function EndedLoad(s: Lock, reader: Reader): Reader
    requires reader.phase.Copying?
  {
    if s.counter != reader.phase.s1 then reader.(phase := Starting)
    else Reader(Starting, reader.results + [Loaded(s.counter / 2, reader.phase.out)])
  }

  function After(s: Lock, step: Step): Lock
    requires Enabled(s, step)
  {
    match step
    case BeginStore(value) => s.(counter := s.counter + 1, writer := Storing(value, 0))
    case StoreWord =>
      var i := s.writer.i;
      s.(buf := s.buf[i := s.writer.value[i]], writer := s.writer.(i := i + 1))
    case EndStore =>
      s.(counter := s.counter + 1, writer := Idle, published := s.published + [s.writer.value])
    case BeginLoad(r) => s.(readers := s.readers[r := BegunLoad(s, s.readers[r])])
    case LoadWord(r) =>
      var reader := s.readers[r];
      var out := reader.phase.out;
      s.(readers := s.readers[r := reader.(phase := reader.phase.(out := out + [s.buf[|out|]]))])
    case EndLoad(r) => s.(readers := s.readers[r := EndedLoad(s, s.readers[r])])
  }

  predicate Initial(s: Lock) {
    && s.counter == 0 && |s.buf| == s.size && s.writer.Idle? && s.published == []
    && forall r | 0 <= r < |s.readers| :: s.readers[r] == Reader(Starting, [])
  }

  // ---------------------------------------------------------------------------------------------
  // The invariant.

  /** The buffer: the last published vector, overwritten from the front while a store runs. */
  ghost predicate WriterInv(s: Lock) {
    && |s.buf| == s.size && (forall v | v in s.published :: |v| == s.size)
    && match s.writer
       case Idle => s.counter == 2 * |s.published| && (s.published != [] ==> s.buf == s.published[|s.published| - 1])
       case Storing(value, i) =>
         && s.counter == 2 * |s.published| + 1
         && |value| == s.size && i <= s.size && s.buf[..i] == value[..i]
  }

  ghost predicate IsPublished(s: Lock, l: Loaded) {
    1 <= l.version <= |s.published| && l.value == s.published[l.version - 1]
  }

  /** While the counter still reads `s1`, what was copied is the start of the vector published under it. */
  ghost predicate PhaseInv(s: Lock, phase: Phase) {
    phase.Copying? ==>
      && phase.s1 % 2 == 0 && 0 < phase.s1 <= s.counter && phase.s1 / 2 <= |s.published|
      && |phase.out| <= s.size
      && (s.counter == phase.s1 ==>
            var v := s.published[phase.s1 / 2 - 1]; |v| == s.size && phase.out == v[..|phase.out|])
  }

  ghost predicate ResultsInv(s: Lock, reader: Reader) {
    && (forall k | 0 <= k < |reader.results| :: IsPublished(s, reader.results[k]))
    && (forall j, k | 0 <= j < k < |reader.results| :: reader.results[j].version <= reader.results[k].version)
  }

  ghost predicate Inv(s: Lock) {
    && WriterInv(s)
    && forall r | 0 <= r < |s.readers| :: PhaseInv(s, s.readers[r].phase) && ResultsInv(s, s.readers[r])
  }

  lemma InitialInv(s: Lock)
    requires Initial(s)
    ensures Inv(s)
  {
  }

  lemma WriterStepKeepsInv(s: Lock, step: Step)
    requires Inv(s) && Enabled(s, step) && (step.BeginStore? || step.StoreWord? || step.EndStore?)
    ensures Inv(After(s, step))
  {
    var t := After(s, step);
    assert WriterInv(t) by {
      if step.EndStore? {
        assert s.writer.value[..s.size] == s.writer.value && s.buf[..s.size] == s.buf;
      }
    }
    forall r | 0 <= r < |t.readers|
      ensures PhaseInv(t, t.readers[r].phase) && ResultsInv(t, t.readers[r])
    {
      assert PhaseInv(s, s.readers[r].phase) && ResultsInv(s, s.readers[r]);
      forall k | 0 <= k < |t.readers[r].results|
        ensures IsPublished(t, t.readers[r].results[k])
      {
        assert IsPublished(s, s.readers[r].results[k]);
      }
    }
  }

  /** A load that succeeds returns the vector that is current at that very moment. */
  lemma LoadIsCurrent(s: Lock, r: nat)
    requires Inv(s) && Enabled(s, EndLoad(r)) && s.readers[r].phase.s1 == s.counter
    ensures s.published != [] && s.readers[r].phase.out == s.published[|s.published| - 1]
    ensures s.counter / 2 == |s.published| && s.writer.Idle?
  {
    var phase := s.readers[r].phase;
    assert PhaseInv(s, phase);
    var v := s.published[phase.s1 / 2 - 1];
    assert v[..|phase.out|] == v;
  }

  /** A reader's own step: the shared state and the other readers stay as they are. */
  lemma ReaderMoves(s: Lock, r: nat, reader: Reader)
    requires Inv(s) && r < |s.readers| && PhaseInv(s, reader.phase) && ResultsInv(s, reader)
    ensures Inv(s.(readers := s.readers[r := reader]))
  {
    var t := s.(readers := s.readers[r := reader]);
    assert forall p: Phase | PhaseInv(s, p) :: PhaseInv(t, p);
    assert forall l: Loaded | IsPublished(s, l) :: IsPublished(t, l);
    forall q | 0 <= q < |t.readers|
      ensures PhaseInv(t, t.readers[q].phase) && ResultsInv(t, t.readers[q])
    {
      assert PhaseInv(s, t.readers[q].phase) && ResultsInv(s, t.readers[q]);
    }
  }

  lemma ReaderStepKeepsInv(s: Lock, step: Step)
    requires Inv(s) && Enabled(s, step) && (step.BeginLoad? || step.LoadWord? || step.EndLoad?)
    ensures Inv(After(s, step))
  {
    var reader := s.readers[step.r];
    var next := After(s, step).readers[step.r];
    assert PhaseInv(s, reader.phase) && ResultsInv(s, reader);
    assert PhaseInv(s, next.phase);
    if step.EndLoad? && s.counter == reader.phase.s1 {
      LoadIsCurrent(s, step.r);
    }
    assert ResultsInv(s, next);
    hide Inv, PhaseInv, ResultsInv;
    ReaderMoves(s, step.r, next);
  }

  // ---------------------------------------------------------------------------------------------
  // Every interleaving.

  ghost predicate IsRun(states: seq<Lock>, steps: seq<Step>) {
    && |states| == |steps| + 1 && Initial(states[0])
    && forall i | 0 <= i < |steps| :: Enabled(states[i], steps[i]) && states[i + 1] == After(states[i], steps[i])
  }

  lemma {:induction false} RunInv(states: seq<Lock>, steps: seq<Step>, i: nat)
    requires IsRun(states, steps) && i < |states|
    ensures Inv(states[i])
  {
    hide Inv, Enabled, After, Initial;
    if i == 0 {
      InitialInv(states[0]);
    } else {
      RunInv(states, steps, i - 1);
      if steps[i - 1].BeginLoad? || steps[i - 1].LoadWord? || steps[i - 1].EndLoad? {
        ReaderStepKeepsInv(states[i - 1], steps[i - 1]);
      } else {
        WriterStepKeepsInv(states[i - 1], steps[i - 1]);
      }
    }
  }

  /**
   A load that returned true returned exactly one stored vector, never a mix of two; and the loads of one
   reader never go back in the order of publication.
   */
  lemma LoadsAreSnapshots(states: seq<Lock>, steps: seq<Step>, i: nat, r: nat, j: nat, k: nat)
    requires IsRun(states, steps) && i < |states| && r < |states[i].readers|
    requires j <= k < |states[i].readers[r].results|
    ensures var s := states[i]; var first := s.readers[r].results[j]; var second := s.readers[r].results[k];
            && 1 <= first.version <= second.version <= |s.published|
            && first.value == s.published[first.version - 1] && second.value == s.published[second.version - 1]
  {
    RunInv(states, steps, i);
    hide IsRun;
    var s := states[i];
    assert ResultsInv(s, s.readers[r]);
    assert IsPublished(s, s.readers[r].results[j]) && IsPublished(s, s.readers[r].results[k]);
  }

  // ---------------------------------------------------------------------------------------------
  // Stores and loads that nobody disturbs.

  /** Enabled steps that lead from one state to another. */
  ghost predicate Leads(s: Lock, steps: seq<Step>, t: Lock)
    decreases |steps|
  {
    if steps == [] then s == t else Enabled(s, steps[0]) && Leads(After(s, steps[0]), steps[1..], t)
  }

  lemma {:induction false} LeadsOn(s: Lock, steps: seq<Step>, t: Lock, step: Step)
    requires Leads(s, steps, t) && Enabled(t, step)
    ensures Leads(s, steps + [step], After(t, step))
    decreases |steps|
  {
    hide Enabled, After;
    if steps != [] {
      LeadsOn(After(s, steps[0]), steps[1..], t, step);
      assert (steps + [step])[1..] == steps[1..] + [step];
    }
  }

  lemma LeadsNowhere(s: Lock)
    ensures Leads(s, [], s)
  {
  }

  /** The store of `value` after its first i words. */
  ghost function Stored(s: Lock, value: Vector, i: nat): Lock
    requires i <= |value| == s.size == |s.buf|
  {
    s.(counter := s.counter + 1, writer := Storing(value, i), buf := value[..i] + s.buf[i..])
  }

  lemma {:induction false} StoreGoesOn(s: Lock, value: Vector, i: nat) returns (steps: seq<Step>)
    requires s.writer.Idle? && i <= |value| == s.size == |s.buf|
    ensures Leads(s, steps, Stored(s, value, i))
  {
    if i == 0 {
      LeadsNowhere(s);
      LeadsOn(s, [], s, BeginStore(value));
      assert value[..0] + s.buf[0..] == s.buf;
      steps := [] + [BeginStore(value)];
    } else {
      var before := StoreGoesOn(s, value, i - 1);
      var t := Stored(s, value, i - 1);
      assert t.buf[i - 1 := value[i - 1]] == value[..i] + s.buf[i..];
      LeadsOn(s, before, t, StoreWord);
      steps := before + [StoreWord];
    }
  }

  /** A vector of the right size can be stored whenever no store is going on, and is then the current one. */
  lemma StoreCompletes(s: Lock, value: Vector) returns (steps: seq<Step>, t: Lock)
    requires Inv(s) && s.writer.Idle? && |value| == s.size
    ensures Leads(s, steps, t) && t.published == s.published + [value] && t.writer.Idle? && t.readers == s.readers
  {
    var before := StoreGoesOn(s, value, s.size);
    var u := Stored(s, value, s.size);
    StoredIs(s, value);
    hide Stored, Leads;
    LeadsOn(s, before, u, EndStore);
    steps, t := before + [EndStore], After(u, EndStore);
  }

  lemma StoredIs(s: Lock, value: Vector)
    requires |value| == s.size == |s.buf|
    ensures var u := Stored(s, value, s.size);
            && u.writer == Storing(value, s.size) && u.size == s.size
            && u.published == s.published && u.readers == s.readers
  {
  }

  lemma {:induction false} LoadGoesOn(s: Lock, r: nat, n: nat) returns (steps: seq<Step>)
    requires s.counter % 2 == 0 && s.counter > 0 && n <= s.size == |s.buf|
    requires r < |s.readers| && s.readers[r].phase.Starting?
    ensures Leads(s, steps, s.(readers := s.readers[r := s.readers[r].(phase := Copying(s.counter, s.buf[..n]))]))
  {
    if n == 0 {
      LeadsNowhere(s);
      LeadsOn(s, [], s, BeginLoad(r));
      steps := [] + [BeginLoad(r)];
    } else {
      var before := LoadGoesOn(s, r, n - 1);
      var t := s.(readers := s.readers[r := s.readers[r].(phase := Copying(s.counter, s.buf[..n - 1]))]);
      assert s.buf[..n - 1] + [s.buf[n - 1]] == s.buf[..n];
      var u := s.(readers := s.readers[r := s.readers[r].(phase := Copying(s.counter, s.buf[..n]))]);
      assert After(t, LoadWord(r)).readers == u.readers;
      LeadsOn(s, before, t, LoadWord(r));
      steps := before + [LoadWord(r)];
    }
  }

  /** A load that has begun copies on, up to word n. */
  lemma {:induction false} CopyGoesOn(s: Lock, r: nat, n: nat) returns (steps: seq<Step>)
    requires r < |s.readers| && s.readers[r].phase.Copying? && |s.readers[r].phase.out| <= n <= s.size == |s.buf|
    ensures var phase := s.readers[r].phase;
            var more := phase.(out := phase.out + s.buf[|phase.out|..n]);
            Leads(s, steps, s.(readers := s.readers[r := s.readers[r].(phase := more)]))
  {
    var reader := s.readers[r];
    var out := reader.phase.out;
    if n == |out| {
      LeadsNowhere(s);
      assert out + s.buf[n..n] == out && s.readers[r := reader.(phase := reader.phase.(out := out))] == s.readers;
      steps := [];
    } else {
      var before := CopyGoesOn(s, r, n - 1);
      var t := s.(readers := s.readers[r := reader.(phase := reader.phase.(out := out + s.buf[|out|..n - 1]))]);
      var u := s.(readers := s.readers[r := reader.(phase := reader.phase.(out := out + s.buf[|out|..n]))]);
      assert out + s.buf[|out|..n - 1] + [s.buf[n - 1]] == out + s.buf[|out|..n];
      assert After(t, LoadWord(r)).readers == u.readers;
      LeadsOn(s, before, t, LoadWord(r));
      steps := before + [LoadWord(r)];
    }
  }

  lemma {:induction false} LeadsThen(s: Lock, a: seq<Step>, t: Lock, b: seq<Step>, u: Lock)
    requires Leads(s, a, t) && Leads(t, b, u)
    ensures Leads(s, a + b, u)
    decreases |a|
  {
    hide Enabled, After;
    if a == [] {
      assert a + b == b;
    } else {
      LeadsThen(After(s, a[0]), a[1..], t, b, u);
      assert (a + b)[1..] == a[1..] + b && (a + b)[0] == a[0];
    }
  }

  /** No store is going on and something was stored: the buffer is the current vector. */
  ghost predicate AtRest(s: Lock) {
    && s.published != [] && s.counter == 2 * |s.published|
    && s.buf == s.published[|s.published| - 1] && |s.buf| == s.size
  }

  lemma LoadFromStart(s: Lock, r: nat) returns (steps: seq<Step>, t: Lock)
    requires AtRest(s) && r < |s.readers| && s.readers[r].phase.Starting?
    ensures Leads(s, steps, t) && t.published == s.published && |t.readers| == |s.readers|
    ensures t.readers[r].results == s.readers[r].results + [Loaded(|s.published|, s.published[|s.published| - 1])]
  {
    var before := LoadGoesOn(s, r, s.size);
    var u := s.(readers := s.readers[r := s.readers[r].(phase := Copying(s.counter, s.buf[..s.size]))]);
    assert s.buf[..s.size] == s.buf;
    LeadsOn(s, before, u, EndLoad(r));
    steps, t := before + [EndLoad(r)], After(u, EndLoad(r));
  }

  /**
   Once something was stored and while no store is going on, a load left alone, wherever it is, returns the
   current vector: at once, or after it has found an earlier store and begun again.
   */
  lemma LoadCompletes(s: Lock, r: nat) returns (steps: seq<Step>, t: Lock)
    requires Inv(s) && s.writer.Idle? && s.published != [] && r < |s.readers|
    ensures Leads(s, steps, t) && t.published == s.published && |t.readers| == |s.readers|
    ensures t.readers[r].results == s.readers[r].results + [Loaded(|s.published|, s.published[|s.published| - 1])]
  {
    assert AtRest(s);
    if s.readers[r].phase.Starting? {
      steps, t := LoadFromStart(s, r);
    } else {
      var phase := s.readers[r].phase;
      assert PhaseInv(s, phase);
      var before := CopyGoesOn(s, r, s.size);
      var more := phase.(out := phase.out + s.buf[|phase.out|..s.size]);
      var u := s.(readers := s.readers[r := s.readers[r].(phase := more)]);
      LeadsOn(s, before, u, EndLoad(r));
      steps, t := before + [EndLoad(r)], After(u, EndLoad(r));
      if s.counter == phase.s1 {
        assert more.out == s.buf;
      } else {
        var again;
        var v := t;
        again, t := LoadFromStart(v, r);
        LeadsThen(s, steps, v, again, t);
        steps := steps + again;
      }
    }
  }
}
