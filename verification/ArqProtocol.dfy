/**
 The two parties together. The link may lose, duplicate, delay and reorder both packets and feedback: a
 packet that was ever sent, and a feedback that was ever generated, may arrive at any later time, any
 number of times, or never. The steps are the calls the transmit and receive paths make on the windows.
 */
module ArqProtocol {
  import opened ArqSequence
  import opened ArqReceiver
  import opened ArqRefinement
  import opened ArqSender

  /** A feedback in flight, with the unbounded number its base stands for. */
  datatype Flying = Flying(ack: Feedback, base: nat)

  /**
   `sent[n]` is the payload of packet n and `transmissions[n]` how often it went out; `number` gives the
   packet each entry of the transmit window holds; `arrivals` lists the packets the receiver accepted, in
   the order it did, and `handed` is what it gave to its user.
   */
  datatype Link = Link(
    sent: seq<Payload>,
    transmissions: seq<nat>,
    tx: TxState,
    number: map<u16, nat>,
    released: set<nat>,
    abandoned: set<nat>,
    feedback: set<Flying>,
    rx: RxState,
    past: Past,
    arrivals: seq<nat>,
    handed: seq<Payload>)

  datatype Action =
    | Send(payload: Payload, symbols: seq<int>, now: int)
    | Retransmit(key: u16, now: int)
    | Receive(n: nat)
    | GiveFeedback
    | TakeFeedback(flying: Flying)
    | GiveUp(now: int)

  // ---------------------------------------------------------------------------------------------
  // The steps.

  /**
   The half-space requirement on the modular comparisons: an arriving packet is within half the sequence
   space of the receive base, an arriving feedback within half of every outstanding packet.
   */
  ghost predicate Enabled(s: Link, a: Action)
    requires s.rx.WellFormed() && s.number.Keys == s.tx.entries.Keys
  {
    match a
    case Send(payload, symbols, now) => true
    case Retransmit(key, now) => key in DueKeys(s.tx, now)
    case Receive(n) => n < |s.sent| && InReach(s.past, n)
    case GiveFeedback => s.rx.gotAny
    case TakeFeedback(f) => f in s.feedback && forall k | k in s.number :: HalfSpace(s.number[k], f.base)
    case GiveUp(now) => true
  }

  ghost function NumbersOf(number: map<u16, nat>, keys: set<u16>): set<nat> {
    set k | k in keys && k in number :: number[k]
  }

  ghost function Sent(s: Link, payload: Payload, symbols: seq<int>, now: int): Link {
    var n := |s.sent|;
    var (tx, ok) := TryInsert(s.tx, Low16(n), payload, symbols, now);
    s.(sent := s.sent + [payload], transmissions := s.transmissions + [1], tx := tx,
       number := if ok && Low16(n) !in s.number then s.number[Low16(n) := n] else s.number)
  }

  ghost function Retransmitted(s: Link, key: u16, now: int): Link {
    if key !in s.number || s.number[key] >= |s.transmissions| then s
    else
      var n := s.number[key];
      s.(tx := MarkTransmitted(s.tx, key, now), transmissions := s.transmissions[n := s.transmissions[n] + 1])
  }

  ghost function ReceivedPacket(s: Link, n: nat): Link
    requires s.rx.WellFormed() && n < |s.sent|
  {
    var (rx, isNew, out) := ReceiveAndDrain(s.rx, Low16(n), s.sent[n]);
    s.(rx := rx,
       past := Past(ReceiveNumber(Opened(s.past, n), n, s.sent[n], Span(s.rx.window))),
       arrivals := s.arrivals + if isNew then [n] else [],
       handed := s.handed + if s.rx.ordered then out else if isNew then [s.sent[n]] else [])
  }

  ghost function GaveFeedback(s: Link): Link {
    if s.past.Nothing? then s
    else s.(feedback := s.feedback + {Flying(GenerateAck(s.rx), s.past.history.base)})
  }

  ghost function TookFeedback(s: Link, ack: Feedback): Link {
    var gone := if ack.direction == s.tx.direction then Released(s.tx.entries, ack) else {};
    s.(tx := ProcessAck(s.tx, ack).0,
       number := s.number - gone, released := s.released + NumbersOf(s.number, gone))
  }

  ghost function GaveUp(s: Link, now: int): Link {
    var gone := AbandonedKeys(s.tx, now);
    s.(tx := DropAbandoned(s.tx, now).0,
       number := s.number - gone, abandoned := s.abandoned + NumbersOf(s.number, gone))
  }

  ghost function After(s: Link, a: Action): Link
    requires s.rx.WellFormed() && s.number.Keys == s.tx.entries.Keys && Enabled(s, a)
  {
    match a
    case Send(payload, symbols, now) => Sent(s, payload, symbols, now)
    case Retransmit(key, now) => Retransmitted(s, key, now)
    case Receive(n) => ReceivedPacket(s, n)
    case GiveFeedback => GaveFeedback(s)
    case TakeFeedback(f) => TookFeedback(s, f.ack)
    case GiveUp(now) => GaveUp(s, now)
  }

  ghost predicate Initial(s: Link) {
    && s.sent == [] && s.transmissions == [] && s.tx.entries == map[] && s.number == map[]
    && s.released == {} && s.abandoned == {} && s.feedback == {}
    && s.rx.direction == s.tx.direction && Fresh(s.rx) && s.past == Nothing && s.arrivals == [] && s.handed == []
  }

  // ---------------------------------------------------------------------------------------------
  // The invariant.

  /** Accepted by the receiver, or lost to it for a reason it knows of. */
  ghost predicate Settled(past: Past, n: nat) {
    past.Past? && (n in past.history.accepted || n < past.history.first || n in past.history.passed)
  }

  ghost predicate SenderInv(s: Link) {
    && |s.transmissions| == |s.sent|
    && s.number.Keys == s.tx.entries.Keys
    && (forall k | k in s.number ::
          && s.number[k] < |s.sent| && Low16(s.number[k]) == k
          && s.tx.entries[k].payload == s.sent[s.number[k]]
          && s.transmissions[s.number[k]] == 1 + s.tx.entries[k].retries
          && s.number[k] !in s.released && s.number[k] !in s.abandoned)
    && (forall n | n in s.released || n in s.abandoned :: n < |s.sent|)
    && s.released !! s.abandoned
  }

  /** The retry budget: nobody is sent more often, and nobody is given up on earlier. */
  ghost predicate BudgetInv(s: Link) {
    if s.tx.maxRetries <= 0 then s.abandoned == {}
    else
      && (forall n | 0 <= n < |s.transmissions| :: s.transmissions[n] <= 1 + s.tx.maxRetries)
      && (forall n | n in s.abandoned && n < |s.transmissions| :: s.transmissions[n] == 1 + s.tx.maxRetries)
  }

  ghost predicate Announces(f: Flying, h: History) {
    && f.ack.base == Low16(f.base) && |f.ack.bitmap| == BITS && f.base <= h.base
    && forall i | 0 <= i < BITS :: f.ack.bitmap[i] ==> f.base + i in h.accepted
  }

  ghost predicate ReceiverInv(s: Link) {
    && s.rx.WellFormed() && Tracks(s.rx, s.past)
    && (forall f | f in s.feedback :: s.past.Past? && Announces(f, s.past.history))
    && (forall n | n in s.released :: Settled(s.past, n))
    && (s.past.Past? ==> forall n | n in s.past.history.accepted ::
          n < |s.sent| && s.past.history.accepted[n] == s.sent[n])
    && (s.past.Nothing? ==> s.handed == [])
    && (s.past.Past? && s.rx.ordered ==> s.handed == Payloads(s.past.history, s.past.history.delivered))
  }

  /** Acceptance happens once per packet; without ordering each accepted packet is handed out at once. */
  ghost predicate ArrivalInv(s: Link) {
    && (forall i | 0 <= i < |s.arrivals| :: s.arrivals[i] < |s.sent|)
    && (forall i, j | 0 <= i < j < |s.arrivals| :: s.arrivals[i] != s.arrivals[j])
    && (s.past.Nothing? ==> s.arrivals == [])
    && (s.past.Past? ==> forall n :: n in s.arrivals <==> n in s.past.history.accepted)
    && (!s.rx.ordered ==>
          && |s.handed| == |s.arrivals|
          && forall i | 0 <= i < |s.arrivals| :: s.handed[i] == s.sent[s.arrivals[i]])
  }

  ghost predicate Safe(s: Link) {
    SenderInv(s) && BudgetInv(s) && ReceiverInv(s) && ArrivalInv(s) && s.rx.direction == s.tx.direction
  }

  lemma InitialIsSafe(s: Link)
    requires Initial(s)
    ensures Safe(s)
  {
  }

  // ---------------------------------------------------------------------------------------------
  // Send, retransmit, give up: the sender's side.

  lemma SendKeepsSafe(s: Link, payload: Payload, symbols: seq<int>, now: int)
    requires Safe(s)
    ensures Safe(Sent(s, payload, symbols, now))
  {
    SendKeepsSender(s, payload, symbols, now);
    SendKeepsBudget(s, payload, symbols, now);
    SendKeepsArrivals(s, payload, symbols, now);
    hide Low16, Tracks, Announces, ArrivalInv, SenderInv, BudgetInv, TryInsert;
  }

  lemma SendKeepsSender(s: Link, payload: Payload, symbols: seq<int>, now: int)
    requires SenderInv(s)
    ensures SenderInv(Sent(s, payload, symbols, now))
  {
    hide Low16;
    var n, t := |s.sent|, Sent(s, payload, symbols, now);
    forall k | k in t.number
      ensures t.number[k] == if k in s.number then s.number[k] else n
    {
    }
    assert forall m | m in s.released || m in s.abandoned :: m < n;
  }

  lemma SendKeepsBudget(s: Link, payload: Payload, symbols: seq<int>, now: int)
    requires SenderInv(s) && BudgetInv(s)
    ensures BudgetInv(Sent(s, payload, symbols, now))
  {
    hide Low16;
    assert forall m | m in s.abandoned :: m < |s.sent|;
  }

  lemma SendKeepsArrivals(s: Link, payload: Payload, symbols: seq<int>, now: int)
    requires ArrivalInv(s)
    ensures ArrivalInv(Sent(s, payload, symbols, now))
  {
    hide Low16, TryInsert;
  }

  lemma RetransmitKeepsSafe(s: Link, key: u16, now: int)
    requires Safe(s) && key in DueKeys(s.tx, now)
    ensures Safe(Retransmitted(s, key, now))
  {
    hide Low16, ReceiverInv, ArrivalInv;
    var n, t := s.number[key], Retransmitted(s, key, now);
    forall k | k in s.number && k != key
      ensures s.number[k] != n
    {
      assert Low16(s.number[k]) == k;
    }
    assert ReceiverInv(t) && ArrivalInv(t) by { SenderStep(s, t); }
  }

  lemma SenderStep(s: Link, t: Link)
    requires ReceiverInv(s) && ArrivalInv(s)
    requires t.rx == s.rx && t.past == s.past && t.feedback == s.feedback
    requires t.arrivals == s.arrivals && t.handed == s.handed
    requires t.released == s.released && t.sent == s.sent
    ensures ReceiverInv(t) && ArrivalInv(t)
  {
    hide Tracks, Announces;
  }

  lemma GiveUpKeepsSafe(s: Link, now: int)
    requires Safe(s)
    ensures Safe(GaveUp(s, now))
  {
    GiveUpKeepsSender(s, now);
    GiveUpKeepsBudget(s, now);
    hide SenderInv, BudgetInv, ReceiverInv, ArrivalInv;
    SenderStep(s, GaveUp(s, now));
  }

  lemma GiveUpKeepsSender(s: Link, now: int)
    requires SenderInv(s)
    ensures SenderInv(GaveUp(s, now))
  {
    hide Low16;
    var gone, t := AbandonedKeys(s.tx, now), GaveUp(s, now);
    forall k | k in t.number
      ensures t.number[k] !in t.abandoned
    {
      assert forall j | j in gone :: Low16(s.number[j]) == j;
      assert Low16(s.number[k]) == k;
    }
  }

  lemma GiveUpKeepsBudget(s: Link, now: int)
    requires SenderInv(s) && BudgetInv(s)
    ensures BudgetInv(GaveUp(s, now))
  {
    hide Low16;
  }

  // ---------------------------------------------------------------------------------------------
  // Feedback.

  /** Inside the half-space a feedback releases exactly the numbers below its base and those it lists. */
  lemma AckedIff(k: u16, n: nat, f: Flying)
    requires Low16(n) == k && f.ack.base == Low16(f.base) && |f.ack.bitmap| == BITS && HalfSpace(n, f.base)
    ensures Acked(k, f.ack) <==> n < f.base || (n < f.base + BITS && f.ack.bitmap[n - f.base])
  {
    DiffExact(n, f.base);
    hide SeqDiff, HalfSpace;
    if i :| 0 <= i < |f.ack.bitmap| && f.ack.bitmap[i] && k == Low16(f.ack.base + i) {
      Low16Adds(f.base, i);
      Low16Injective(n, f.base + i);
    }
    Low16Adds(f.base, n - f.base);
    hide Low16;
    if n >= f.base && n < f.base + BITS && f.ack.bitmap[n - f.base] {
      assert k == Low16(f.ack.base + (n - f.base));
    }
  }

  lemma AckedIsSettled(s: Link, f: Flying, k: u16)
    requires Safe(s) && Enabled(s, TakeFeedback(f)) && k in s.number && Acked(k, f.ack)
    ensures Settled(s.past, s.number[k])
  {
    var h := s.past.history;
    var n := s.number[k];
    AckedIff(k, n, f);
    assert Consistent(h, Span(s.rx.window));
    hide Low16, Acked, Tracks, SeqDiff;
    if n >= f.base {
      assert f.ack.bitmap[n - f.base] ==> f.base + (n - f.base) in h.accepted;
    }
  }

  lemma TakeFeedbackKeepsSafe(s: Link, f: Flying)
    requires Safe(s) && Enabled(s, TakeFeedback(f))
    ensures Safe(TookFeedback(s, f.ack))
  {
    hide Low16, Acked, Tracks, Announces, Settled, ArrivalInv;
    var gone := if f.ack.direction == s.tx.direction then Released(s.tx.entries, f.ack) else {};
    var t := TookFeedback(s, f.ack);
    SameArrivals(s, t);
    forall k | k in t.number
      ensures t.number[k] !in t.released
    {
      assert forall j | j in gone :: Low16(s.number[j]) == j;
      assert Low16(s.number[k]) == k;
    }
    assert SenderInv(t);
    forall k | k in gone
      ensures Settled(s.past, s.number[k])
    {
      AckedIsSettled(s, f, k);
    }
  }

  lemma GiveFeedbackKeepsSafe(s: Link)
    requires Safe(s)
    ensures Safe(GaveFeedback(s))
  {
    hide Low16, Acked, Settled, Consistent, NumberFrom, ArrivalInv;
    assert ArrivalInv(GaveFeedback(s)) by { SameArrivals(s, GaveFeedback(s)); }
  }

  lemma SameArrivals(s: Link, t: Link)
    requires ArrivalInv(s) && t.rx == s.rx && t.past == s.past && t.sent == s.sent
    requires t.arrivals == s.arrivals && t.handed == s.handed
    ensures ArrivalInv(t)
  {
  }

  // ---------------------------------------------------------------------------------------------
  // A packet arrives.

  /** The receiver never takes back what it accepted or passed over. */
  ghost predicate Grows(h: History, h2: History) {
    && h2.first == h.first && h.base <= h2.base
    && (forall n | n in h.accepted :: n in h2.accepted && h2.accepted[n] == h.accepted[n])
    && h.passed <= h2.passed && h.delivered <= h2.delivered
  }

  lemma ReceiveGrows(h: History, n: nat, payload: Payload, span: nat)
    ensures Grows(h, ReceiveNumber(h, n, payload, span))
    ensures forall m | m in ReceiveNumber(h, n, payload, span).accepted :: m in h.accepted
              || (m == n && ReceiveNumber(h, n, payload, span).accepted[m] == payload)
  {
    hide NextOpen, NotAccepted, AcceptedIn;
    if IsNew(h, n) {
      var p := PassTo(h, n - (span - 1));
      assert Grows(h, p);
      assert Grows(p, AcceptNumber(p, n, payload));
    }
  }

  lemma PayloadsGrow(h: History, h2: History)
    requires Grows(h, h2) && forall n | n in h.delivered :: n in h.accepted
    ensures Payloads(h2, h2.delivered) == Payloads(h, h.delivered) + Payloads(h2, h2.delivered[|h.delivered|..])
  {
    assert forall i | 0 <= i < |h.delivered| :: h2.delivered[i] == h.delivered[i] && h.delivered[i] in h.delivered;
  }

  lemma OpenedDelivered(s: Link, n: nat)
    requires ReceiverInv(s)
    ensures forall m | m in Opened(s.past, n).delivered :: m in Opened(s.past, n).accepted
    ensures s.rx.ordered ==> s.handed == Payloads(Opened(s.past, n), Opened(s.past, n).delivered)
  {
    hide Low16, BitsShow, NumberFrom, Announces;
  }

  lemma ReceiveKeepsSafe(s: Link, n: nat)
    requires Safe(s) && n < |s.sent| && InReach(s.past, n)
    ensures Safe(ReceivedPacket(s, n))
  {
    hide Low16, Tracks, ReceiveAndDrain, ReceiveNumber, Payloads, SenderInv, BudgetInv, HalfSpace, ArrivalInv;
    var h := Opened(s.past, n);
    var h2 := ReceiveNumber(h, n, s.sent[n], Span(s.rx.window));
    ReceiveRefines(s.rx, s.past, n, s.sent[n]);
    ReceiveGrows(h, n, s.sent[n], Span(s.rx.window));
    OpenedDelivered(s, n);
    PayloadsGrow(h, h2);
    var t := ReceivedPacket(s, n);
    assert SenderInv(t) && BudgetInv(t) by { ReceiverStep(s, t); }
    TracksForm(t.rx, t.past);
    DirectionKept(s.rx, Low16(n), s.sent[n]);
    ArrivalIsNew(s, n);
  }

  lemma AcceptKeepsDirection(st: RxState, seqno: u16, payload: Payload, i: nat)
    requires st.WellFormed() && i < BITS
    ensures Accept(st, seqno, payload, i).direction == st.direction
  {
    hide Smallest, LeadingOnes, ShiftDown, Low16;
  }

  lemma SkipKeepsDirection(st: RxState, seqno: u16)
    requires st.WellFormed()
    ensures SkipToInclude(st, seqno).WellFormed() && SkipToInclude(st, seqno).direction == st.direction
  {
    SkipKeepsForm(st, seqno);
    hide SkippedBitmap, KeysBehind, Low16, SeqDiff, Behind, Span;
  }

  lemma DirectionKept(st: RxState, seqno: u16, payload: Payload)
    requires st.WellFormed()
    ensures ReceiveAndDrain(st, seqno, payload).0.direction == st.direction
  {
    hide SeqDiff, Low16, Deliver, Accept, SkipToInclude, NoBits;
    var s0 := Began(st, seqno);
    SkipKeepsDirection(s0, seqno);
    forall t: RxState, i: nat | t.WellFormed() && i < BITS
      ensures Accept(t, seqno, payload, i).direction == t.direction
    {
      AcceptKeepsDirection(t, seqno, payload, i);
    }
    DeliverKeepsDirection(ProcessReceived(st, seqno, payload).0);
  }

  lemma {:induction false} DeliverKeepsDirection(st: RxState)
    ensures Deliver(st).0.direction == st.direction
    decreases |st.buffer|
  {
    if st.ordered && st.expected in st.buffer {
      Smaller(st.buffer, st.expected);
      DeliverKeepsDirection(st.(buffer := st.buffer - {st.expected}, expected := Low16(st.expected + 1)));
    }
  }

  lemma AcceptedAfter(h: History, n: nat, payload: Payload, span: nat)
    ensures ReceiveNumber(h, n, payload, span).accepted.Keys == h.accepted.Keys + if IsNew(h, n) then {n} else {}
  {
    hide NextOpen, NotAccepted, AcceptedIn;
  }

  lemma ArrivalIsNew(s: Link, n: nat)
    requires Safe(s) && n < |s.sent| && InReach(s.past, n)
    ensures ArrivalInv(ReceivedPacket(s, n))
  {
    hide Low16, Tracks, ReceiveAndDrain, ReceiveNumber, SenderInv, BudgetInv, HalfSpace, Announces;
    var h := Opened(s.past, n);
    ReceiveRefines(s.rx, s.past, n, s.sent[n]);
    AcceptedAfter(h, n, s.sent[n], Span(s.rx.window));
    assert forall m :: m in s.arrivals <==> m in h.accepted;
  }

  lemma TracksForm(rx: RxState, past: Past)
    requires Tracks(rx, past)
    ensures rx.WellFormed()
  {
  }

  lemma ReceiverStep(s: Link, t: Link)
    requires SenderInv(s) && BudgetInv(s)
    requires t == s.(rx := t.rx, past := t.past, arrivals := t.arrivals, handed := t.handed)
    ensures SenderInv(t) && BudgetInv(t)
  {
    hide Low16;
  }

  // ---------------------------------------------------------------------------------------------
  // Every run.

  lemma StepKeepsSafe(s: Link, a: Action)
    requires Safe(s) && Enabled(s, a)
    ensures Safe(After(s, a))
  {
    hide Sent, Retransmitted, ReceivedPacket, GaveFeedback, TookFeedback, GaveUp, HalfSpace;
    match a
    case Send(payload, symbols, now) => SendKeepsSafe(s, payload, symbols, now);
    case Retransmit(key, now) => RetransmitKeepsSafe(s, key, now);
    case Receive(n) => ReceiveKeepsSafe(s, n);
    case GiveFeedback => GiveFeedbackKeepsSafe(s);
    case TakeFeedback(f) => TakeFeedbackKeepsSafe(s, f);
    case GiveUp(now) => GiveUpKeepsSafe(s, now);
  }

  /** A run: each state follows from the one before by an enabled action. */
  ghost predicate IsRun(states: seq<Link>, actions: seq<Action>) {
    && |states| == |actions| + 1 && Initial(states[0])
    && forall i | 0 <= i < |actions| ::
         && states[i].rx.WellFormed() && states[i].number.Keys == states[i].tx.entries.Keys
         && Enabled(states[i], actions[i]) && states[i + 1] == After(states[i], actions[i])
  }

  lemma {:induction false} RunIsSafe(states: seq<Link>, actions: seq<Action>, i: nat)
    requires IsRun(states, actions) && i < |states|
    ensures Safe(states[i])
  {
    hide Initial, Enabled, After, Safe;
    if i == 0 {
      InitialIsSafe(states[0]);
    } else {
      RunIsSafe(states, actions, i - 1);
      StepKeepsSafe(states[i - 1], actions[i - 1]);
    }
  }

  // ---------------------------------------------------------------------------------------------
  // What every reachable state promises.

  /**
   A released packet was accepted with the payload it was sent with, or the receiver began after it, or
   passed over it; exactly one of the three. Its transmissions stayed within the retry budget.
   */
  lemma ReleasedIsSettled(states: seq<Link>, actions: seq<Action>, i: nat, n: nat)
    requires IsRun(states, actions) && i < |states| && n in states[i].released
    ensures var s := states[i];
            && s.past.Past? && n < |s.sent| && n < |s.transmissions|
            && var h := s.past.history;
            && (n in h.accepted <==> n >= h.first && n !in h.passed)
            && !(n < h.first && n in h.passed)
            && (n in h.accepted ==> h.accepted[n] == s.sent[n])
            && (s.tx.maxRetries > 0 ==> s.transmissions[n] <= 1 + s.tx.maxRetries)
  {
    RunIsSafe(states, actions, i);
    hide Low16, IsRun, Announces, BitsShow, NumberFrom;
  }

  /** A packet given up on has used its whole budget and was never released; without a budget there is none. */
  lemma AbandonedUsedBudget(states: seq<Link>, actions: seq<Action>, i: nat, n: nat)
    requires IsRun(states, actions) && i < |states| && n in states[i].abandoned
    ensures var s := states[i];
            && s.tx.maxRetries > 0 && n < |s.transmissions| == |s.sent|
            && s.transmissions[n] == 1 + s.tx.maxRetries && n !in s.released
  {
    RunIsSafe(states, actions, i);
    hide IsRun, ReceiverInv, ArrivalInv;
  }

  /** Packet n is outstanding under its 16-bit number, or was released or given up on. */
  ghost predicate Tracked(s: Link, n: nat) {
    || (Low16(n) in s.tx.entries && Low16(n) in s.number && s.number[Low16(n)] == n)
    || n in s.released || n in s.abandoned
  }

  /** Packet n could not enter the window: it was full, or still held the same 16-bit number. */
  ghost predicate Untracked(s: Link, a: Action, n: nat) {
    a.Send? && n == |s.sent| && (|s.tx.entries| >= s.tx.window || Low16(n) in s.tx.entries)
  }

  lemma SendTracks(s: Link, a: Action)
    requires SenderInv(s) && s.rx.WellFormed() && a.Send?
    ensures Tracked(After(s, a), |s.sent|) || Untracked(s, a, |s.sent|)
  {
    hide Low16;
  }

  lemma StepKeepsTracked(s: Link, a: Action, n: nat)
    requires Safe(s) && Enabled(s, a) && Tracked(s, n)
    ensures Tracked(After(s, a), n)
  {
    hide Low16, Acked, ReceiveAndDrain, ReceiveNumber, HalfSpace, ReceiverInv, ArrivalInv, BudgetInv;
    SafeSender(s);
    var t := After(s, a);
    if n !in s.released && n !in s.abandoned {
      var k := Low16(n);
      if k !in t.number && (a.TakeFeedback? || a.GiveUp?) {
        assert n in NumbersOf(s.number, s.number.Keys - t.number.Keys);
      }
    }
  }

  /** A retransmission counts for the packet under its number, and takes it off the due ones for a while. */
  lemma RetransmissionIsCounted(s: Link, key: u16, now: int)
    requires Safe(s) && Enabled(s, Retransmit(key, now))
    ensures key in s.number && s.number[key] < |s.transmissions|
    ensures var n := s.number[key];
            var t := After(s, Retransmit(key, now));
            && t.transmissions == s.transmissions[n := s.transmissions[n] + 1]
            && (var e := s.tx.entries[key];
                t.tx.entries == s.tx.entries[key := e.(lastTx := now, retries := e.retries + 1)])
            && (s.tx.timeout > 0 ==> DueKeys(t.tx, now) == DueKeys(s.tx, now) - {key})
  {
    hide Low16, ReceiverInv, BudgetInv, ArrivalInv;
  }

  lemma StepSends(s: Link, a: Action)
    requires s.rx.WellFormed() && s.number.Keys == s.tx.entries.Keys && Enabled(s, a)
    ensures |After(s, a).sent| == |s.sent| + if a.Send? then 1 else 0
  {
    hide ReceiveAndDrain, ReceiveNumber, HalfSpace, Acked;
  }

  /**
   No packet is lost track of: in every run each packet sent is outstanding, released or given up on, or its
   insertion met a full window or an entry of the same 16-bit number.
   */
  lemma {:induction false} EveryPacketIsAccounted(states: seq<Link>, actions: seq<Action>, i: nat, n: nat)
    requires IsRun(states, actions) && i < |states| && n < |states[i].sent|
    ensures Tracked(states[i], n) || exists j :: 0 <= j < i && Untracked(states[j], actions[j], n)
  {
    hide Enabled, After, Tracked, Untracked, Safe;
    NothingSent(states[0]);
    if i > 0 {
      RunIsSafe(states, actions, i - 1);
      var s, a := states[i - 1], actions[i - 1];
      StepSends(s, a);
      if n < |s.sent| {
        EveryPacketIsAccounted(states, actions, i - 1, n);
        if Tracked(s, n) {
          StepKeepsTracked(s, a, n);
        }
      } else {
        SafeSender(s);
        SendTracks(s, a);
      }
    }
  }

  lemma NothingSent(s: Link)
    requires Initial(s)
    ensures s.sent == []
  {
  }

  lemma SafeSender(s: Link)
    requires Safe(s)
    ensures SenderInv(s) && s.rx.WellFormed()
  {
  }

  /** Ordered delivery hands out payloads as they were sent, in the order of sending, none twice. */
  lemma HandedInOrder(states: seq<Link>, actions: seq<Action>, i: nat)
    requires IsRun(states, actions) && i < |states|
    requires states[i].past.Past? && states[i].rx.ordered
    ensures var s := states[i]; var order := s.past.history.delivered;
            && |s.handed| == |order|
            && (forall j | 0 <= j < |order| :: order[j] < |s.sent| && s.handed[j] == s.sent[order[j]])
            && (forall j, k | 0 <= j < k < |order| :: order[j] < order[k])
  {
    RunIsSafe(states, actions, i);
    hide Low16, IsRun, Announces, BitsShow, NumberFrom, SenderInv, BudgetInv;
    var s := states[i];
    forall j | 0 <= j < |s.past.history.delivered|
      ensures s.past.history.delivered[j] in s.past.history.accepted
    {
      assert s.past.history.delivered[j] in s.past.history.delivered;
    }
  }

  /** Without ordering: every accepted payload is handed out as it was sent, in the order of acceptance, once. */
  lemma HandedOnce(states: seq<Link>, actions: seq<Action>, i: nat)
    requires IsRun(states, actions) && i < |states| && !states[i].rx.ordered
    ensures var s := states[i];
            && |s.handed| == |s.arrivals|
            && (forall j | 0 <= j < |s.arrivals| :: s.arrivals[j] < |s.sent| && s.handed[j] == s.sent[s.arrivals[j]])
            && (forall j, k | 0 <= j < k < |s.arrivals| :: s.arrivals[j] != s.arrivals[k])
            && (forall n :: n in s.arrivals <==> s.past.Past? && n in s.past.history.accepted)
  {
    RunIsSafe(states, actions, i);
    hide IsRun, SenderInv, BudgetInv, ReceiverInv;
  }

  /** The receiver generates feedback and it reaches the sender at once. */
  ghost function FeedbackRound(s: Link): Link {
    TookFeedback(GaveFeedback(s), GenerateAck(s.rx))
  }

  ghost predicate FeedbackFits(s: Link) {
    s.past.Past? && forall k | k in s.number :: HalfSpace(s.number[k], s.past.history.base)
  }

  lemma RoundIsEnabled(s: Link)
    requires Safe(s) && FeedbackFits(s)
    ensures var f := Flying(GenerateAck(s.rx), s.past.history.base); var s1 := GaveFeedback(s);
            && Enabled(s, GiveFeedback) && s1.rx == s.rx && s1.number.Keys == s1.tx.entries.Keys
            && Enabled(s1, TakeFeedback(f)) && After(s1, TakeFeedback(f)) == FeedbackRound(s)
  {
    hide Low16, SeqDiff, NumberFrom, BitsShow, Consistent, BudgetInv, Announces, Settled, Buffers;
  }

  lemma FreshAckIsExact(s: Link, k: u16)
    requires Safe(s) && FeedbackFits(s) && k in s.number
    ensures Acked(k, GenerateAck(s.rx))
            <==> s.number[k] < s.past.history.base || s.number[k] in s.past.history.accepted
  {
    hide Low16, Acked, SeqDiff, Consistent, NumberFrom, BitsShow, Announces, Settled, Buffers, ArrivalInv, BudgetInv;
    var h, n := s.past.history, s.number[k];
    AckedIff(k, n, Flying(GenerateAck(s.rx), h.base));
    AcceptedBound(h, Span(s.rx.window));
    if n >= h.base && n < h.base + BITS {
      BitIs(s.rx.bitmap, h.base, h.accepted, n);
    }
  }

  /** Feedback generated now leaves outstanding exactly the packets the receiver is still missing. */
  lemma FreshFeedbackIsExact(s: Link, k: u16)
    requires Safe(s) && FeedbackFits(s) && k in s.number
    ensures k in FeedbackRound(s).number
            <==> s.number[k] >= s.past.history.base && s.number[k] !in s.past.history.accepted
    ensures k in FeedbackRound(s).number || s.number[k] in FeedbackRound(s).released
  {
    FreshAckIsExact(s, k);
    hide Low16, Acked, GenerateAck, ReceiverInv, ArrivalInv, BudgetInv, FeedbackFits;
  }

  /**
   Released does not imply received: whatever packet arrives first, the next feedback releases every
   outstanding packet sent before it, though the receiver never saw them.
   */
  lemma FirstArrivalReleasesEarlier(s: Link, k: u16, x: nat)
    requires Safe(s) && s.past.Nothing? && k in s.number && s.number[k] < x < |s.sent|
    requires forall j | j in s.number :: HalfSpace(s.number[j], x + 1)
    ensures Enabled(s, Receive(x)) && FeedbackFits(ReceivedPacket(s, x))
    ensures var s3 := FeedbackRound(ReceivedPacket(s, x));
            s3.past.Past? && s.number[k] in s3.released && s.number[k] !in s3.past.history.accepted
  {
    hide Low16, Acked, SeqDiff, ReceiveAndDrain, Tracks, HalfSpace, ReceiveNumber;
    ReceiveKeepsSafe(s, x);
    FirstHistory(x, s.sent[x], Span(s.rx.window));
    FreshFeedbackIsExact(ReceivedPacket(s, x), k);
  }

  lemma FirstHistory(x: nat, payload: Payload, span: nat)
    requires span >= 1
    ensures var h := ReceiveNumber(Opened(Nothing, x), x, payload, span);
            h.base == x + 1 && h.accepted.Keys == {x}
  {
    assert NextOpen(map[x := payload], x, BITS) == NextOpen(map[x := payload], x + 1, BITS - 1);
  }
}
