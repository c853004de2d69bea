/**
 `SPSCRingBuffer`: one producer and one consumer, in atomic steps that interleave freely (sequentially
 consistent, positions unbounded). Each side reads the other's index once and acts on it later, when it
 may be stale; slots are written and moved out of in place.
 */
module SpscRing {
  import opened RingIndex

  /** The producer: between calls, holding a slot to fill, or about to commit it. */
  datatype Producer<T> = PIdle | Filling(value: T) | Filled(value: T)

  /** The consumer: between calls, holding a slot, having moved its item out, or inside `clear`. */
  datatype Consumer<T> = CIdle | Holding | Took(item: T) | Clearing(upto: nat)

  /** An item given to the consumer, and its place in the order of pushing. */
  datatype Popped<T> = Popped(index: nat, item: T)

  /** `pushed` lists every committed item, `popped` every popped one; `cleared` are the places skipped. */
  datatype Ring<T> = Ring(
    slots: seq<T>,
    head: nat,
    tail: nat,
    producer: Producer<T>,
    consumer: Consumer<T>,
    pushed: seq<T>,
    popped: seq<Popped<T>>,
    cleared: set<nat>)

  datatype Step<T> =
    | ProducerSlot(value: T)
    | Scribble(partial: T)
    | Fill
    | ProducerCommit
    | ConsumerSlot
    | MoveOut(leftover: T)
    | ConsumerPop
    | ClearLoad
    | ClearStore

  // ---------------------------------------------------------------------------------------------
  // The steps.

  predicate Enabled<T>(s: Ring<T>, step: Step<T>) {
    match step
    case ProducerSlot(value) => s.producer.PIdle?
    case Scribble(partial) => s.producer.Filling? && s.slots != []
    case Fill => s.producer.Filling? && s.slots != []
    case ProducerCommit => s.producer.Filled?
    case ConsumerSlot => s.consumer.CIdle?
    case MoveOut(leftover) => s.consumer.Holding? && s.slots != []
    case ConsumerPop => s.consumer.Took?
    case ClearLoad => s.consumer.CIdle?
    case ClearStore => s.consumer.Clearing?
  }

  function HeadSlot<T>(s: Ring<T>): (k: nat)
    requires s.slots != []
    ensures k < |s.slots|
  {
    s.head % |s.slots|
  }

  function TailSlot<T>(s: Ring<T>): (k: nat)
    requires s.slots != []
    ensures k < |s.slots|
  {
    s.tail % |s.slots|
  }

  function After<T>(s: Ring<T>, step: Step<T>): Ring<T>
    requires Enabled(s, step)
  {
    match step
    case ProducerSlot(value) =>
      if s.slots == [] || s.head - s.tail >= |s.slots| then s else s.(producer := Filling(value))
    case Scribble(partial) => s.(slots := s.slots[HeadSlot(s) := partial])
    case Fill => s.(slots := s.slots[HeadSlot(s) := s.producer.value], producer := Filled(s.producer.value))
    case ProducerCommit =>
      s.(head := s.head + 1, producer := PIdle, pushed := s.pushed + [s.producer.value])
    case ConsumerSlot =>
      if s.slots == [] || s.tail == s.head then s else s.(consumer := Holding)
    case MoveOut(leftover) =>
      s.(slots := s.slots[TailSlot(s) := leftover], consumer := Took(s.slots[TailSlot(s)]))
    case ConsumerPop =>
      s.(tail := s.tail + 1, consumer := CIdle, popped := s.popped + [Popped(s.tail, s.consumer.item)])
    case ClearLoad => s.(consumer := Clearing(s.head))
    case ClearStore =>
      var upto := s.consumer.upto;
      s.(tail := upto, consumer := CIdle, cleared := s.cleared + Range(s.tail, upto))
  }

  ghost predicate Initial<T>(s: Ring<T>) {
    && s.head == 0 && s.tail == 0 && s.producer == PIdle && s.consumer == CIdle
    && s.pushed == [] && s.popped == [] && s.cleared == {}
  }

  // ---------------------------------------------------------------------------------------------
  // The invariant.

  ghost predicate Bounds<T>(s: Ring<T>) {
    && s.tail <= s.head <= s.tail + |s.slots| && |s.pushed| == s.head
    && (s.producer.PIdle? || s.head < s.tail + |s.slots|)
    && (s.consumer.Holding? || s.consumer.Took? ==> s.tail < s.head)
    && (s.consumer.Clearing? ==> s.tail <= s.consumer.upto <= s.head)
  }

  /** The slots between tail and head hold what was pushed, except one just moved out of. */
  ghost predicate Contents<T>(s: Ring<T>)
    requires Bounds(s)
  {
    && (forall i: nat | s.tail <= i < s.head && !(i == s.tail && s.consumer.Took?) ::
          s.slots[i % |s.slots|] == s.pushed[i])
    && (s.producer.Filled? ==> s.slots[HeadSlot(s)] == s.producer.value)
    && (s.consumer.Took? ==> s.consumer.item == s.pushed[s.tail])
  }

  /** First in, first out: every place below the tail was popped, in order, or cleared. */
  ghost predicate Fifo<T>(s: Ring<T>) {
    && (forall k | 0 <= k < |s.popped| ::
          s.popped[k].index < s.tail && s.popped[k].index < |s.pushed|
          && s.popped[k].item == s.pushed[s.popped[k].index] && s.popped[k].index !in s.cleared)
    && (forall j, k | 0 <= j < k < |s.popped| :: s.popped[j].index < s.popped[k].index)
    && (forall i | i in s.cleared :: i < s.tail)
    && |s.popped| + |s.cleared| == s.tail
  }

  ghost predicate Inv<T>(s: Ring<T>) {
    Bounds(s) && Contents(s) && Fifo(s)
  }

  lemma BoundsKept<T>(s: Ring<T>, step: Step<T>)
    requires Bounds(s) && Enabled(s, step)
    ensures Bounds(After(s, step))
  {
    hide HeadSlot, TailSlot;
  }

  /** The slot being filled is none of those in use. */
  lemma HeadIsFree<T>(s: Ring<T>, x: T)
    requires Inv(s) && s.head < s.tail + |s.slots|
    ensures Contents(s.(slots := s.slots[HeadSlot(s) := x], producer := Filling(x)))
    ensures Contents(s.(slots := s.slots[HeadSlot(s) := x], producer := Filled(x)))
  {
    forall i: nat | s.tail <= i < s.head
      ensures 0 <= i % |s.slots| < |s.slots| && i % |s.slots| != HeadSlot(s)
    {
      SlotInRange(i, |s.slots|);
      SlotsDiffer(i, s.head, |s.slots|);
    }
  }

  lemma ContentsIgnore<T>(s: Ring<T>, producer: Producer<T>)
    requires Bounds(s) && Contents(s) && Bounds(s.(producer := producer))
    requires producer.Filled? ==> s.slots != [] && s.slots[HeadSlot(s)] == producer.value
    ensures Contents(s.(producer := producer))
  {
  }

  lemma CommitKeepsContents<T>(s: Ring<T>)
    requires Inv(s) && s.producer.Filled?
    ensures Bounds(After(s, ProducerCommit)) && Contents(After(s, ProducerCommit))
  {
  }

  /** The slot moved out of is only the oldest one, and not the one being filled. */
  lemma MoveOutKeepsContents<T>(s: Ring<T>, leftover: T)
    requires Inv(s) && s.consumer.Holding?
    ensures Bounds(After(s, MoveOut(leftover))) && Contents(After(s, MoveOut(leftover)))
  {
    var t := After(s, MoveOut(leftover));
    forall i: nat | s.tail < i < s.head
      ensures 0 <= i % |s.slots| < |s.slots| && t.slots[i % |s.slots|] == s.slots[i % |s.slots|]
    {
      SlotInRange(i, |s.slots|);
      SlotsDiffer(s.tail, i, |s.slots|);
    }
    if s.producer.Filled? {
      SlotsDiffer(s.tail, s.head, |s.slots|);
    }
  }

  lemma TailMoves<T>(s: Ring<T>, step: Step<T>)
    requires Inv(s) && Enabled(s, step) && (step.ConsumerPop? || step.ClearStore?)
    ensures Bounds(After(s, step)) && Contents(After(s, step))
  {
  }

  /** Bounds, contents and order after every step. */
  lemma ContentsKept<T>(s: Ring<T>, step: Step<T>)
    requires Inv(s) && Enabled(s, step)
    ensures Bounds(After(s, step)) && Contents(After(s, step))
  {
    BoundsKept(s, step);
    match step {
      case ProducerSlot(value) =>
        if After(s, step) != s { ContentsIgnore(s, Filling(value)); }
      case Scribble(partial) =>
        HeadIsFree(s, partial);
        ContentsIgnore(s.(slots := s.slots[HeadSlot(s) := partial], producer := Filling(partial)), s.producer);
      case Fill => HeadIsFree(s, s.producer.value);
      case ProducerCommit => CommitKeepsContents(s);
      case ConsumerSlot =>
      case MoveOut(leftover) => MoveOutKeepsContents(s, leftover);
      case ConsumerPop => TailMoves(s, step);
      case ClearLoad =>
      case ClearStore => TailMoves(s, step);
    }
  }

  lemma PopKeepsFifo<T>(s: Ring<T>)
    requires Inv(s) && s.consumer.Took?
    ensures Fifo(After(s, ConsumerPop))
  {
  }

  lemma ClearKeepsFifo<T>(s: Ring<T>)
    requires Inv(s) && s.consumer.Clearing?
    ensures Fifo(After(s, ClearStore))
  {
    hide Contents;
    var more := Range(s.tail, s.consumer.upto);
    assert s.cleared !! more;
    assert |s.cleared + more| == |s.cleared| + |more|;
  }

  lemma FifoKept<T>(s: Ring<T>, step: Step<T>)
    requires Inv(s) && Enabled(s, step)
    ensures Fifo(After(s, step))
  {
    hide HeadSlot, TailSlot, Contents;
    if step.ClearStore? {
      ClearKeepsFifo(s);
    } else if step.ConsumerPop? {
      PopKeepsFifo(s);
    }
  }

  // ---------------------------------------------------------------------------------------------
  // Every interleaving.

  ghost predicate IsRun<T>(states: seq<Ring<T>>, steps: seq<Step<T>>) {
    && |states| == |steps| + 1 && Initial(states[0])
    && forall i | 0 <= i < |steps| :: Enabled(states[i], steps[i]) && states[i + 1] == After(states[i], steps[i])
  }

  lemma {:induction false} RunInv<T>(states: seq<Ring<T>>, steps: seq<Step<T>>, i: nat)
    requires IsRun(states, steps) && i < |states|
    ensures Inv(states[i])
  {
    hide Enabled, After;
    if i > 0 {
      RunInv(states, steps, i - 1);
      hide Bounds, Contents, Fifo, Initial;
      ContentsKept(states[i - 1], steps[i - 1]);
      FifoKept(states[i - 1], steps[i - 1]);
    }
  }

  /** The two sides never touch the same slot, however stale the index each of them acted on. */
  lemma NeverSameSlot<T>(states: seq<Ring<T>>, steps: seq<Step<T>>, i: nat)
    requires IsRun(states, steps) && i < |states|
    requires !states[i].producer.PIdle? && (states[i].consumer.Holding? || states[i].consumer.Took?)
    ensures states[i].slots != [] && HeadSlot(states[i]) != TailSlot(states[i])
  {
    RunInv(states, steps, i);
    hide IsRun, Contents, Fifo;
    var s := states[i];
    SlotsDiffer(s.tail, s.head, |s.slots|);
  }

  /**
   The ring is a queue: the popped items are the pushed items in order, without those discarded by
   `clear`, and tail <= head <= tail + capacity throughout.
   */
  lemma PopsArePushesInOrder<T>(states: seq<Ring<T>>, steps: seq<Step<T>>, i: nat)
    requires IsRun(states, steps) && i < |states|
    ensures var s := states[i];
            && s.tail <= s.head <= s.tail + |s.slots| && |s.pushed| == s.head
            && |s.popped| + |s.cleared| == s.tail
            && (forall k | 0 <= k < |s.popped| ::
                  s.popped[k].index < |s.pushed| && s.popped[k].item == s.pushed[s.popped[k].index]
                  && s.popped[k].index !in s.cleared)
            && (forall j, k | 0 <= j < k < |s.popped| :: s.popped[j].index < s.popped[k].index)
  {
    RunInv(states, steps, i);
    hide IsRun, Contents;
  }

  /** Without `clear`, the popped items are exactly the first items pushed. */
  lemma {:induction false} PopsArePrefix<T>(s: Ring<T>, k: nat)
    requires Inv(s) && s.cleared == {} && k < |s.popped|
    ensures |s.popped| == s.tail <= |s.pushed| && s.popped[k].item == s.pushed[k]
  {
    hide Contents;
    IndicesGrow(s, k);
  }

  /** |popped| increasing indices below |popped|: each index is its place. */
  lemma {:induction false} IndicesGrow<T>(s: Ring<T>, k: nat)
    requires Fifo(s) && k < |s.popped|
    ensures s.popped[k].index >= k && s.popped[k].index + |s.popped| - k <= s.tail
    decreases |s.popped| - k
  {
    LowerBound(s, k);
    if k + 1 < |s.popped| {
      IndicesGrow(s, k + 1);
      assert s.popped[k].index < s.popped[k + 1].index;
    }
  }

  lemma {:induction false} LowerBound<T>(s: Ring<T>, k: nat)
    requires Fifo(s) && k < |s.popped|
    ensures s.popped[k].index >= k
  {
    if k > 0 {
      LowerBound(s, k - 1);
      assert s.popped[k - 1].index < s.popped[k].index;
    }
  }

  // ---------------------------------------------------------------------------------------------
  // Calls that nobody disturbs.

  /** A producer left alone pushes its value exactly if there is room. */
  lemma PushCompletes<T>(s: Ring<T>, value: T)
    requires Inv(s) && s.producer.PIdle?
    ensures var s1 := After(s, ProducerSlot(value));
            && (s1.producer.Filling? <==> s.head < s.tail + |s.slots|)
            && (!s1.producer.Filling? ==> s1 == s)
            && (s1.producer.Filling? ==>
                  && Enabled(s1, Fill) && Enabled(After(s1, Fill), ProducerCommit)
                  && var t := After(After(s1, Fill), ProducerCommit);
                     && t.pushed == s.pushed + [value] && t.producer.PIdle?
                     && t.consumer == s.consumer && t.popped == s.popped && t.tail == s.tail)
  {
    hide HeadSlot;
  }

  /** A consumer left alone pops the oldest unread item exactly if there is one. */
  lemma PopCompletes<T>(s: Ring<T>, leftover: T)
    requires Inv(s) && s.consumer.CIdle?
    ensures var s1 := After(s, ConsumerSlot);
            && (s1.consumer.Holding? <==> s.tail < s.head)
            && (!s1.consumer.Holding? ==> s1 == s)
            && (s1.consumer.Holding? ==>
                  && Enabled(s1, MoveOut(leftover)) && Enabled(After(s1, MoveOut(leftover)), ConsumerPop)
                  && var t := After(After(s1, MoveOut(leftover)), ConsumerPop);
                     && t.popped == s.popped + [Popped(s.tail, s.pushed[s.tail])] && t.consumer.CIdle?
                     && t.producer == s.producer && t.pushed == s.pushed && t.head == s.head)
  {
    if s.tail < s.head {
      assert s.slots[s.tail % |s.slots|] == s.pushed[s.tail];
    }
  }

  /** `clear` left alone discards everything unread. */
  lemma ClearCompletes<T>(s: Ring<T>)
    requires Inv(s) && s.consumer.CIdle?
    ensures Enabled(s, ClearLoad) && Enabled(After(s, ClearLoad), ClearStore)
    ensures var t := After(After(s, ClearLoad), ClearStore);
            && t.tail == t.head == s.head && t.popped == s.popped && t.consumer.CIdle?
            && forall i: nat :: i in t.cleared <==> i in s.cleared || s.tail <= i < s.head
  {
    hide Contents;
  }
}
