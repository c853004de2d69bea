/**
 The receiver on unbounded packet numbers, and the proof that the 16-bit window of the source refines
 it as long as received numbers stay within half the sequence space of the window base.
 */
module ArqRefinement {
  import opened ArqSequence
  import opened ArqReceiver

  /**
   What the receiver has done, in unbounded numbers: the first packet, the window base, the packets
   accepted, those passed over by forced skips, and for ordered delivery the packets handed out, in
   order, and those discarded from the reorder buffer by skips.
   */
  datatype History = History(
    first: nat,
    base: nat,
    accepted: map<nat, Payload>,
    passed: set<nat>,
    delivered: seq<nat>,
    discarded: set<nat>)

  // ---------------------------------------------------------------------------------------------
  // One packet, on unbounded numbers.

  /** The first number from `from` on that is not accepted, at most `n` further. */
  function NextOpen(accepted: map<nat, Payload>, from: nat, n: nat): (b: nat)
    ensures from <= b <= from + n
    ensures forall y: nat | from <= y < b :: y in accepted
    ensures b < from + n ==> b !in accepted
    decreases n
  {
    if n == 0 || from !in accepted then from else NextOpen(accepted, from + 1, n - 1)
  }

  function Numbers(from: nat, to: nat): (r: seq<nat>)
    requires from <= to
    ensures |r| == to - from && forall i | 0 <= i < |r| :: r[i] == from + i
  {
    seq(to - from, i requires 0 <= i < to - from => from + i)
  }

  ghost function NotAccepted(h: History, to: nat): set<nat> {
    set y: nat | h.base <= y < to && y !in h.accepted
  }

  ghost function AcceptedIn(h: History, from: nat, to: nat): set<nat> {
    set y: nat | from <= y < to && y in h.accepted
  }

  /** A forced skip: missing packets are passed over, buffered ones discarded. */
  ghost function PassTo(h: History, base: int): History {
    if base <= h.base then h
    else h.(base := base,
            passed := h.passed + NotAccepted(h, base),
            discarded := h.discarded + AcceptedIn(h, h.base, base))
  }

  ghost function AcceptNumber(h: History, x: nat, payload: Payload): History {
    var accepted := h.accepted[x := payload];
    var base := NextOpen(accepted, h.base, BITS);
    h.(accepted := accepted, base := base, delivered := h.delivered + Numbers(h.base, base))
  }

  /** Accepted are exactly the numbers at or above the base that were not accepted before. */
  ghost predicate IsNew(h: History, x: nat) {
    x >= h.base && x !in h.accepted
  }

  ghost function ReceiveNumber(h: History, x: nat, payload: Payload, span: nat): History {
    if IsNew(h, x) then AcceptNumber(PassTo(h, x - (span - 1)), x, payload) else h
  }

  /** Everything from the first packet to the base is accepted or passed over, nothing is both. */
  ghost predicate Consistent(h: History, span: nat) {
    && h.first <= h.base
    && (forall x: nat | h.first <= x < h.base :: x in h.accepted || x in h.passed)
    && (forall x | x in h.passed :: h.first <= x < h.base && x !in h.accepted)
    && (forall x | x in h.accepted :: h.first <= x < h.base + span)
    && (forall x | x in h.accepted && x < h.base :: x in h.delivered <==> x !in h.discarded)
    && (forall x | x in h.delivered :: x in h.accepted && x < h.base)
    && (forall x | x in h.discarded :: x in h.accepted && x < h.base)
    && (forall i, j | 0 <= i < j < |h.delivered| :: h.delivered[i] < h.delivered[j])
  }

  lemma PassKeepsConsistent(h: History, base: int, span: nat)
    requires Consistent(h, span)
    ensures Consistent(PassTo(h, base), span)
  {
  }

  lemma AcceptKeepsConsistent(h: History, x: nat, payload: Payload, span: nat)
    requires Consistent(h, span) && h.base <= x < h.base + span && x !in h.accepted && span <= BITS
    ensures Consistent(AcceptNumber(h, x, payload), span)
    ensures AcceptNumber(h, x, payload).base !in AcceptNumber(h, x, payload).accepted
  {
    var a := h.accepted[x := payload];
    var b := NextOpen(a, h.base, BITS);
    assert b !in a;
    var n := Numbers(h.base, b);
    var d := h.delivered + n;
    forall y | y in a && y < b
      ensures y in d <==> y !in h.discarded
    {
      if y >= h.base {
        assert n[y - h.base] == y;
      }
    }
    forall y | y in d
      ensures y in a && y < b
    {
      if y !in h.delivered {
        assert y in n;
      }
    }
    forall i, j | 0 <= i < j < |d|
      ensures d[i] < d[j]
    {
      assert i < |h.delivered| ==> d[i] in h.delivered;
    }
  }

  // ---------------------------------------------------------------------------------------------
  // The window of the source represents a history.

  /** Bit i of the bitmap stands for number `base + i`. */
  ghost predicate BitsShow(bitmap: seq<bool>, base: nat, accepted: map<nat, Payload>) {
    |bitmap| == BITS && forall i | 0 <= i < BITS :: bitmap[i] <==> base + i in accepted
  }

  ghost predicate Window(st: RxState, h: History) {
    && st.WellFormed() && st.gotAny
    && st.base == Low16(h.base)
    && BitsShow(st.bitmap, h.base, h.accepted)
    && Consistent(h, Span(st.window))
    && st.outsideDrops == 0 && st.reorderDrops == 0
  }

  /** The number at or above `e` whose low half is `k`. */
  function NumberFrom(e: nat, k: u16): (x: nat)
    ensures e <= x < e + 0x1_0000 && Low16(x) == k
  {
    e + (k - e) % 0x1_0000
  }

  /** The reorder buffer holds the accepted packets from `e` on, and `e` is the next to deliver. */
  ghost predicate Buffers(st: RxState, h: History, e: nat) {
    && st.expected == Low16(e) && e <= h.base <= e + BITS
    && (forall x: nat | e <= x < h.base :: x in h.accepted)
    && (forall x | x in h.accepted && x >= e :: Low16(x) in st.buffer && st.buffer[Low16(x)] == h.accepted[x])
    && (forall k | k in st.buffer :: NumberFrom(e, k) in h.accepted)
  }

  /** Between calls: the base is open, and in ordered mode everything deliverable was delivered. */
  ghost predicate Represents(st: RxState, h: History) {
    && Window(st, h) && h.base !in h.accepted
    && (st.ordered ==> Buffers(st, h, h.base))
  }

  lemma SkipBits(bitmap: seq<bool>, h: History, delta: nat, span: nat)
    requires span <= BITS && Consistent(h, span) && BitsShow(bitmap, h.base, h.accepted)
    ensures BitsShow(SkippedBitmap(bitmap, delta, span), h.base + delta, h.accepted)
  {
    forall j | 0 <= j < BITS
      ensures SkippedBitmap(bitmap, delta, span)[j] <==> h.base + delta + j in h.accepted
    {
      if j + delta < BITS {
        assert bitmap[j + delta] <==> h.base + (j + delta) in h.accepted;
      }
    }
  }

  lemma NumberUnique(e: nat, x: nat)
    requires e <= x < e + 0x1_0000
    ensures NumberFrom(e, Low16(x)) == x
  {
    Low16Injective(NumberFrom(e, Low16(x)), x);
    hide NumberFrom, Low16;
  }

  lemma BehindIff(h: History, base: nat, k: u16)
    requires h.base < base && HalfSpace(base, h.base) && NumberFrom(h.base, k) < h.base + BITS
    ensures Behind(k, Low16(base)) <==> NumberFrom(h.base, k) < base
  {
    hide SeqDiff, NumberFrom, Low16;
    DiffExact(NumberFrom(h.base, k), base);
  }

  /** The skip, with the 16-bit arithmetic carried out. */
  lemma SkipIs(st: RxState, base: nat, x: nat, oldBase: nat)
    requires st.WellFormed() && st.base == Low16(oldBase) && base == x - (Span(st.window) - 1)
    requires base > oldBase && HalfSpace(base, oldBase)
    ensures var behind := KeysBehind(st.buffer, Low16(base));
            SkipToInclude(st, Low16(x)) == st.(
              base := Low16(base),
              bitmap := SkippedBitmap(st.bitmap, base - oldBase, Span(st.window)),
              expected := if Behind(st.expected, Low16(base)) then Low16(base) else st.expected,
              buffer := st.buffer - behind,
              skipDrops := st.skipDrops + |behind|,
              skips := st.skips + 1)
  {
    hide SeqDiff, KeysBehind, SkippedBitmap, Behind, Low16;
    DiffExact(base, oldBase);
    Low16Adds(x, 1 - Span(st.window));
    assert Low16(Low16(x) - (Span(st.window) - 1)) == Low16(base);
  }

  lemma WindowAfterSkip(st: RxState, h: History, base: nat)
    requires Window(st, h) && base > h.base
    ensures Window(st.(base := Low16(base), bitmap := SkippedBitmap(st.bitmap, base - h.base, Span(st.window))),
                   PassTo(h, base))
  {
    SkipBits(st.bitmap, h, base - h.base, Span(st.window));
    PassKeepsConsistent(h, base, Span(st.window));
    hide Consistent, SkippedBitmap, Low16;
  }

  lemma BuffersAfterSkip(st: RxState, h: History, base: nat)
    requires Buffers(st, h, h.base) && base > h.base && HalfSpace(base, h.base)
    requires forall x | x in h.accepted :: x < h.base + BITS
    ensures Buffers(st.(expected := Low16(base), buffer := st.buffer - KeysBehind(st.buffer, Low16(base))),
                    PassTo(h, base), base)
  {
    hide Behind, NumberFrom, Low16;
    var buffer := st.buffer - KeysBehind(st.buffer, Low16(base));
    forall k | k in buffer
      ensures NumberFrom(base, k) in h.accepted
    {
      BehindIff(h, base, k);
      NumberUnique(base, NumberFrom(h.base, k));
    }
    forall x | x in h.accepted && x >= base
      ensures Low16(x) in buffer && buffer[Low16(x)] == h.accepted[x]
    {
      NumberUnique(h.base, x);
      BehindIff(h, base, Low16(x));
    }
  }

  lemma SkipRefines(st: RxState, h: History, x: nat)
    requires Represents(st, h) && x >= h.base + Span(st.window) && HalfSpace(x, h.base)
    ensures var st1 := SkipToInclude(st, Low16(x)); var h1 := PassTo(h, x - (Span(st.window) - 1));
            && Window(st1, h1) && (st.ordered ==> Buffers(st1, h1, h1.base))
            && st1.window == st.window && st1.ordered == st.ordered
            && st1.duplicates == st.duplicates && st1.accepted == st.accepted
  {
    var base := x - (Span(st.window) - 1);
    SkipIs(st, base, x, h.base);
    WindowAfterSkip(st, h, base);
    hide SkipToInclude, PassTo, Consistent, SkippedBitmap, Low16, SeqDiff;
    if st.ordered {
      BuffersAfterSkip(st, h, base);
      DiffExact(h.base, base);
    }
  }

  // ---------------------------------------------------------------------------------------------
  // Accepting.

  lemma {:induction false} LeadingIsNext(bitmap: seq<bool>, accepted: map<nat, Payload>, base: nat)
    requires forall i | 0 <= i < |bitmap| :: bitmap[i] <==> base + i in accepted
    ensures NextOpen(accepted, base, |bitmap|) == base + LeadingOnes(bitmap)
    decreases |bitmap|
  {
    if bitmap != [] && bitmap[0] {
      assert base + 0 in accepted;
      forall i | 0 <= i < |bitmap| - 1
        ensures bitmap[1..][i] <==> base + 1 + i in accepted
      {
        assert bitmap[i + 1] <==> base + (i + 1) in accepted;
      }
      LeadingIsNext(bitmap[1..], accepted, base + 1);
    } else if bitmap != [] {
      assert base + 0 !in accepted;
    }
  }

  lemma ShiftedBits(bitmap: seq<bool>, accepted: map<nat, Payload>, base: nat, n: nat)
    requires n <= BITS && BitsShow(bitmap, base, accepted) && forall x | x in accepted :: x < base + BITS
    ensures BitsShow(ShiftDown(bitmap, n), base + n, accepted)
  {
    forall j | 0 <= j < BITS
      ensures ShiftDown(bitmap, n)[j] <==> base + n + j in accepted
    {
      if j + n < BITS {
        assert bitmap[j + n] <==> base + (j + n) in accepted;
      }
    }
  }

  /** Keys that stand for numbers in a range of length n are at most n. */
  lemma {:induction false} KeysWithin(keys: set<u16>, e: nat, n: nat)
    requires n <= BITS && forall k | k in keys :: NumberFrom(e, k) < e + n
    ensures |keys| <= n
  {
    hide NumberFrom, Low16;
    if n == 0 {
      assert keys == {};
    } else {
      var top := Low16(e + n - 1);
      forall k | k in keys - {top}
        ensures NumberFrom(e, k) < e + n - 1
      {
        assert Low16(NumberFrom(e, k)) == k;
      }
      KeysWithin(keys - {top}, e, n - 1);
    }
  }

  /** The reorder buffer has room for the packet: its overflow branch is not taken. */
  lemma BufferedIs(st: RxState, h: History, x: nat, payload: Payload)
    requires st.ordered && Buffers(st, h, h.base)
    requires h.base <= x < h.base + Span(st.window) && x !in h.accepted
    requires forall y | y in h.accepted :: y < h.base + Span(st.window)
    ensures Low16(x) !in st.buffer
    ensures Buffered(st, Low16(x), payload) == st.(buffer := st.buffer[Low16(x) := payload])
  {
    hide NumberFrom, Low16;
    NumberUnique(h.base, x);
    var buffer := st.buffer[Low16(x) := payload];
    KeysWithin(buffer.Keys, h.base, Span(st.window));
  }

  lemma AdvanceIs(st: RxState, h: History, x: nat, payload: Payload)
    requires Window(st, h) && h.base <= x < h.base + Span(st.window) && x !in h.accepted
    ensures var h2 := AcceptNumber(h, x, payload);
            && Advance(st.(bitmap := st.bitmap[x - h.base := true]))
               == st.(base := Low16(h2.base), bitmap := ShiftDown(st.bitmap[x - h.base := true], h2.base - h.base))
            && BitsShow(ShiftDown(st.bitmap[x - h.base := true], h2.base - h.base), h2.base, h2.accepted)
  {
    hide LeadingOnes, NextOpen, ShiftDown, Low16, Consistent;
    var i := x - h.base;
    var bitmap := st.bitmap[i := true];
    var accepted := h.accepted[x := payload];
    AcceptedBound(h, Span(st.window));
    LeadingIsNext(bitmap, accepted, h.base);
    var n := LeadingOnes(bitmap);
    Low16Adds(h.base, n);
    ShiftedBits(bitmap, accepted, h.base, n);
  }

  /** The window part of an acceptance, with the buffer still to be filled. */
  lemma WindowAfterAccept(st: RxState, h: History, x: nat, payload: Payload)
    requires Window(st, h) && h.base <= x < h.base + Span(st.window) && x !in h.accepted
    ensures var h2 := AcceptNumber(h, x, payload);
            var st1 := Advance(st.(bitmap := st.bitmap[x - h.base := true]));
            && st1 == st.(base := st1.base, bitmap := st1.bitmap)
            && st1.base == Low16(h2.base) && BitsShow(st1.bitmap, h2.base, h2.accepted)
            && Consistent(h2, Span(st.window)) && h2.base !in h2.accepted
  {
    AdvanceIs(st, h, x, payload);
    AcceptKeepsConsistent(h, x, payload, Span(st.window));
    hide Advance, ShiftDown, Low16, Consistent, BitsShow, AcceptNumber;
  }

  lemma BufferAfterAccept(st: RxState, h: History, x: nat, payload: Payload, st1: RxState)
    requires st.ordered && Window(st, h) && Buffers(st, h, h.base)
    requires h.base <= x < h.base + Span(st.window) && x !in h.accepted
    requires st1.ordered && st1.buffer == st.buffer && st1.window == st.window && st1.expected == st.expected
    ensures var st2 := Buffered(st1, Low16(x), payload);
            st2 == st1.(buffer := st2.buffer) && Buffers(st2, AcceptNumber(h, x, payload), h.base)
  {
    AcceptedBound(h, Span(st.window));
    hide Consistent, Low16, BitsShow;
    BufferedIs(st, h, x, payload);
    BufferedIgnores(st, st1, Low16(x), payload);
    BuffersAfterAccept(st, h, x, payload);
    hide Buffered, AcceptNumber;
  }

  lemma AcceptRefines(st: RxState, h: History, x: nat, payload: Payload)
    requires Window(st, h) && (st.ordered ==> Buffers(st, h, h.base))
    requires h.base <= x < h.base + Span(st.window) && x !in h.accepted
    ensures var st2 := Accept(st, Low16(x), payload, x - h.base); var h2 := AcceptNumber(h, x, payload);
            && Window(st2, h2) && h2.base !in h2.accepted && (st.ordered ==> Buffers(st2, h2, h.base))
            && st2 == st.(base := st2.base, bitmap := st2.bitmap, buffer := st2.buffer, accepted := st.accepted + 1)
  {
    WindowAfterAccept(st, h, x, payload);
    var marked := Advance(st.(bitmap := st.bitmap[x - h.base := true]));
    var st1 := marked.(accepted := marked.accepted + 1);
    hide Advance, Low16, Consistent, BitsShow, AcceptNumber, Buffers;
    if st.ordered {
      BufferAfterAccept(st, h, x, payload, st1);
    }
  }

  lemma AcceptedBound(h: History, span: nat)
    requires Consistent(h, span)
    ensures forall y | y in h.accepted :: h.first <= y < h.base + span
  {
  }

  lemma BufferedIgnores(a: RxState, b: RxState, seqno: u16, payload: Payload)
    requires a.ordered && b.ordered && a.buffer == b.buffer && a.window == b.window && seqno !in a.buffer
    requires Buffered(a, seqno, payload) == a.(buffer := a.buffer[seqno := payload])
    ensures Buffered(b, seqno, payload) == b.(buffer := b.buffer[seqno := payload])
  {
  }

  lemma BuffersAfterAccept(st: RxState, h: History, x: nat, payload: Payload)
    requires Buffers(st, h, h.base) && h.base <= x < h.base + BITS && x !in h.accepted
    requires forall y | y in h.accepted :: y < h.base + BITS
    ensures Buffers(st.(buffer := st.buffer[Low16(x) := payload]), AcceptNumber(h, x, payload), h.base)
  {
    hide Low16, NumberFrom;
    NumberUnique(h.base, x);
    var buffer := st.buffer[Low16(x) := payload];
    var accepted := h.accepted[x := payload];
    forall y | y in accepted && y >= h.base
      ensures Low16(y) in buffer && buffer[Low16(y)] == accepted[y]
    {
      NumberUnique(h.base, y);
    }
  }

  // ---------------------------------------------------------------------------------------------
  // Delivering.

  function PayloadOf(h: History, x: nat): Payload {
    if x in h.accepted then h.accepted[x] else []
  }

  function Payloads(h: History, xs: seq<nat>): (r: seq<Payload>)
    ensures |r| == |xs|
  {
    seq(|xs|, i requires 0 <= i < |xs| => PayloadOf(h, xs[i]))
  }

  lemma WindowIgnoresBuffer(st: RxState, h: History, buffer: map<u16, Payload>, expected: u16)
    requires Window(st, h)
    ensures Window(st.(buffer := buffer, expected := expected), h)
  {
    hide Consistent, BitsShow, Low16;
  }

  lemma DrainedStops(st: RxState, h: History)
    requires Window(st, h) && Buffers(st, h, h.base) && h.base !in h.accepted && st.ordered
    ensures Deliver(st) == (st, []) && Represents(st, h) && st.expected == Low16(h.base)
  {
    hide Low16, NumberFrom, Consistent, BitsShow;
    NumberUnique(h.base, h.base);
  }

  /** Handing out one packet. */
  lemma DrainStep(st: RxState, h: History, e: nat, st1: RxState)
    requires st.ordered && Window(st, h) && Buffers(st, h, e) && e != h.base
    requires st1 == st.(buffer := st.buffer - {st.expected}, expected := Low16(st.expected + 1))
    ensures e < h.base && Window(st1, h) && Buffers(st1, h, e + 1)
    ensures Deliver(st).0 == Deliver(st1).0 && Deliver(st).1 == [h.accepted[e]] + Deliver(st1).1
    ensures Payloads(h, Numbers(e, h.base)) == [h.accepted[e]] + Payloads(h, Numbers(e + 1, h.base))
  {
    hide Low16, NumberFrom, Consistent, BitsShow, Payloads;
    AcceptedBound(h, Span(st.window));
    BuffersAfterDeliver(st, h, e);
    WindowIgnoresBuffer(st, h, st.buffer - {st.expected}, Low16(st.expected + 1));
    DeliverOne(st);
    PayloadsFrom(h, e);
  }

  /** Draining hands out exactly the packets from `e` up to the base, in order. */
  lemma {:induction false} DeliverRefines(st: RxState, h: History, e: nat)
    requires st.ordered && Window(st, h) && h.base !in h.accepted && Buffers(st, h, e)
    ensures e <= h.base && Deliver(st).1 == Payloads(h, Numbers(e, h.base))
    ensures var st2 := Deliver(st).0;
            && Represents(st2, h) && st2 == st.(buffer := st2.buffer, expected := Low16(h.base))
    decreases h.base - e
  {
    hide Low16, Window, Represents, Deliver;
    if e == h.base {
      DrainedStops(st, h);
      assert Numbers(e, h.base) == [];
    } else {
      hide Buffers, Payloads, Numbers;
      var st1 := st.(buffer := st.buffer - {st.expected}, expected := Low16(st.expected + 1));
      DrainStep(st, h, e, st1);
      DeliverRefines(st1, h, e + 1);
    }
  }

  lemma PayloadsFrom(h: History, e: nat)
    requires e < h.base && forall y: nat | e <= y < h.base :: y in h.accepted
    ensures Payloads(h, Numbers(e, h.base)) == [h.accepted[e]] + Payloads(h, Numbers(e + 1, h.base))
  {
  }

  lemma BuffersAfterDeliver(st: RxState, h: History, e: nat)
    requires Buffers(st, h, e) && e < h.base && forall y | y in h.accepted :: y < h.base + BITS
    ensures st.expected in st.buffer && st.buffer[st.expected] == h.accepted[e]
    ensures Buffers(st.(buffer := st.buffer - {st.expected}, expected := Low16(st.expected + 1)), h, e + 1)
  {
    hide Low16, NumberFrom;
    Low16Adds(e, 1);
    NumberUnique(e, e);
    forall k | k in st.buffer && k != st.expected
      ensures NumberFrom(e + 1, k) in h.accepted
    {
      NumberUnique(e + 1, NumberFrom(e, k));
    }
    forall y | y in h.accepted && y >= e + 1
      ensures Low16(y) != st.expected
    {
      NumberUnique(e, y);
    }
  }

  // ---------------------------------------------------------------------------------------------
  // Counting.

  /** A set of low halves and the set of numbers they stand for have the same size. */
  lemma {:induction false} SameSize(keys: set<u16>, numbers: set<nat>, e: nat)
    requires forall k | k in keys :: NumberFrom(e, k) in numbers
    requires forall x | x in numbers :: Low16(x) in keys && e <= x < e + 0x1_0000
    ensures |keys| == |numbers|
  {
    hide NumberFrom, Low16;
    if numbers == {} {
      assert keys == {};
    } else {
      var x :| x in numbers;
      var k := Low16(x);
      NumberUnique(e, x);
      forall y | y in numbers - {x}
        ensures Low16(y) in keys - {k}
      {
        NumberUnique(e, y);
      }
      SameSize(keys - {k}, numbers - {x}, e);
    }
  }

  /** The counters of the source agree with the history. */
  ghost predicate Counted(st: RxState, h: History) {
    st.accepted == |h.accepted| && (st.ordered ==> st.skipDrops == |h.discarded|)
  }

  lemma SkipDropsCounted(st: RxState, h: History, base: nat)
    requires Window(st, h) && Buffers(st, h, h.base) && Counted(st, h) && st.ordered
    requires base > h.base && HalfSpace(base, h.base)
    ensures st.skipDrops + |KeysBehind(st.buffer, Low16(base))| == |PassTo(h, base).discarded|
  {
    AcceptedBound(h, Span(st.window));
    DiscardedBelow(h, Span(st.window));
    hide Consistent, BitsShow, Low16, NumberFrom, Behind;
    var behind := KeysBehind(st.buffer, Low16(base));
    var lost := AcceptedIn(h, h.base, base);
    forall k | k in behind
      ensures NumberFrom(h.base, k) in lost
    {
      BehindIff(h, base, k);
    }
    forall x | x in lost
      ensures Low16(x) in behind
    {
      NumberUnique(h.base, x);
      BehindIff(h, base, Low16(x));
    }
    SameSize(behind, lost, h.base);
    assert |h.discarded + lost| == |h.discarded| + |lost|;
  }

  lemma DiscardedBelow(h: History, span: nat)
    requires Consistent(h, span)
    ensures forall x | x in h.discarded :: x < h.base
  {
  }

  lemma SkipCounters(st: RxState, base: nat, x: nat, oldBase: nat)
    requires st.WellFormed() && st.base == Low16(oldBase) && base == x - (Span(st.window) - 1)
    requires base > oldBase && HalfSpace(base, oldBase)
    ensures var st1 := SkipToInclude(st, Low16(x));
            && st1.skipDrops == st.skipDrops + |KeysBehind(st.buffer, Low16(base))|
            && st1.accepted == st.accepted && st1.ordered == st.ordered
  {
    SkipIs(st, base, x, oldBase);
    hide *;
  }

  lemma SkipCounted(st: RxState, h: History, x: nat)
    requires Represents(st, h) && Counted(st, h)
    requires x >= h.base + Span(st.window) && HalfSpace(x, h.base)
    ensures Counted(SkipToInclude(st, Low16(x)), PassTo(h, x - (Span(st.window) - 1)))
  {
    hide SkipToInclude, SkippedBitmap, KeysBehind, Low16, SeqDiff;
    hide NotAccepted, AcceptedIn, Consistent, BitsShow, NumberFrom;
    var base := x - (Span(st.window) - 1);
    SkipCounters(st, base, x, h.base);
    if st.ordered {
      SkipDropsCounted(st, h, base);
    }
  }

  lemma AcceptCounted(st: RxState, h: History, x: nat, payload: Payload, st2: RxState)
    requires Counted(st, h) && x !in h.accepted
    requires st2.accepted == st.accepted + 1 && st2.skipDrops == st.skipDrops && st2.ordered == st.ordered
    ensures Counted(st2, AcceptNumber(h, x, payload))
  {
    hide NextOpen;
    assert h.accepted[x := payload].Keys == h.accepted.Keys + {x};
    assert |h.accepted[x := payload]| == |h.accepted[x := payload].Keys|;
  }

  // ---------------------------------------------------------------------------------------------
  // One call of `process_received`.

  /** What one call establishes, before anything is handed out; `e` is the next number to deliver. */
  ghost predicate Received(st: RxState, h: History, x: nat, payload: Payload)
    requires st.WellFormed()
  {
    var result := ProcessReceived(st, Low16(x), payload);
    var h1 := ReceiveNumber(h, x, payload, Span(st.window));
    && (result.1 <==> IsNew(h, x))
    && Window(result.0, h1) && h1.base !in h1.accepted && Counted(result.0, h1)
    && (st.ordered ==> Buffers(result.0, h1, DeliverFrom(h, x, Span(st.window))))
    && result.0.accepted + result.0.duplicates == st.accepted + st.duplicates + 1
    && result.0.ordered == st.ordered && result.0.window == st.window
  }

  ghost function DeliverFrom(h: History, x: nat, span: nat): nat {
    if IsNew(h, x) then PassTo(h, x - (span - 1)).base else h.base
  }

  lemma WindowKeepsCounters(st: RxState, h: History)
    requires Represents(st, h) && Counted(st, h)
    ensures Represents(Duplicate(st), h) && Counted(Duplicate(st), h)
  {
    hide Consistent, BitsShow, Low16, NumberFrom;
  }

  lemma BitIs(bitmap: seq<bool>, base: nat, accepted: map<nat, Payload>, x: nat)
    requires BitsShow(bitmap, base, accepted) && base <= x < base + BITS
    ensures bitmap[x - base] <==> x in accepted
  {
    assert bitmap[x - base] <==> base + (x - base) in accepted;
  }

  /** Inside the window, or behind it. */
  lemma ReceivesNear(st: RxState, h: History, x: nat, payload: Payload)
    requires Represents(st, h) && Counted(st, h) && HalfSpace(x, h.base) && x < h.base + Span(st.window)
    ensures Received(st, h, x, payload)
  {
    DiffExact(x, h.base);
    hide Low16, SeqDiff, Consistent, Buffers, AcceptNumber, Accept, BitsShow;
    assert PassTo(h, x - (Span(st.window) - 1)) == h;
    if x >= h.base {
      BitIs(st.bitmap, h.base, h.accepted, x);
    }
    if IsNew(h, x) {
      AcceptRefines(st, h, x, payload);
      AcceptCounted(st, h, x, payload, Accept(st, Low16(x), payload, x - h.base));
    } else {
      WindowKeepsCounters(st, h);
    }
  }

  /** Beyond the window the 16-bit code skips, finds the packet at the top of the window, and accepts. */
  lemma FarIs(st: RxState, oldBase: nat, x: nat, payload: Payload)
    requires st.WellFormed() && st.gotAny && st.base == Low16(oldBase)
    requires HalfSpace(x, oldBase) && x >= oldBase + Span(st.window)
    requires var st1 := SkipToInclude(st, Low16(x));
             && st1.WellFormed() && st1.window == st.window
             && st1.base == Low16(x - (Span(st.window) - 1)) && !st1.bitmap[Span(st.window) - 1]
    ensures ProcessReceived(st, Low16(x), payload)
            == (Accept(SkipToInclude(st, Low16(x)), Low16(x), payload, Span(st.window) - 1), true)
  {
    DiffExact(x, oldBase);
    DiffExact(x, x - (Span(st.window) - 1));
    hide Low16, SeqDiff, Accept, SkipToInclude;
  }

  lemma PassedTop(st1: RxState, h: History, base: nat, x: nat, span: nat)
    requires Window(st1, PassTo(h, base)) && Consistent(h, span) && 1 <= span <= BITS
    requires x == base + span - 1 && base > h.base
    ensures !st1.bitmap[span - 1] && x !in h.accepted
  {
    hide Low16, NotAccepted, AcceptedIn;
    BitIs(st1.bitmap, base, h.accepted, x);
  }

  /** Beyond the window: a forced skip makes room, and the packet is accepted. */
  lemma ReceivesFar(st: RxState, h: History, x: nat, payload: Payload)
    requires Represents(st, h) && Counted(st, h) && HalfSpace(x, h.base) && x >= h.base + Span(st.window)
    ensures Received(st, h, x, payload)
  {
    hide Low16, SeqDiff, Consistent, Buffers, AcceptNumber, Accept, BitsShow, SkipToInclude, NotAccepted, AcceptedIn,
      ProcessReceived, Counted;
    var base := x - (Span(st.window) - 1);
    SkipRefines(st, h, x);
    SkipCounted(st, h, x);
    var st1 := SkipToInclude(st, Low16(x));
    var h1 := PassTo(h, base);
    PassedTop(st1, h, base, x, Span(st.window));
    FarIs(st, h.base, x, payload);
    AcceptRefines(st1, h1, x, payload);
    AcceptCounted(st1, h1, x, payload, Accept(st1, Low16(x), payload, x - base));
  }

  // ---------------------------------------------------------------------------------------------
  // A packet from the link: process it, then hand out what became deliverable.

  datatype Past = Nothing | Past(history: History)

  ghost function Opened(past: Past, x: nat): History {
    if past.Past? then past.history else History(x, x, map[], {}, [], {})
  }

  ghost predicate Fresh(st: RxState) {
    && st.WellFormed() && !st.gotAny && st.buffer == map[]
    && st.accepted == 0 && st.outsideDrops == 0 && st.reorderDrops == 0 && st.skipDrops == 0
  }

  ghost predicate Tracks(st: RxState, past: Past) {
    if past.Past? then Represents(st, past.history) && Counted(st, past.history) else Fresh(st)
  }

  /** The half-space hypothesis; the first packet is free. */
  predicate InReach(past: Past, x: nat) {
    past.Past? ==> HalfSpace(x, past.history.base)
  }

  function ReceiveAndDrain(st: RxState, seqno: u16, payload: Payload): (RxState, bool, seq<Payload>)
    requires st.WellFormed()
  {
    var received := ProcessReceived(st, seqno, payload);
    var drained := Deliver(received.0);
    (drained.0, received.1, drained.1)
  }

  lemma OpenedTracks(st: RxState, past: Past, x: nat)
    requires Tracks(st, past)
    ensures Represents(Began(st, Low16(x)), Opened(past, x)) && Counted(Began(st, Low16(x)), Opened(past, x))
  {
    hide Low16, NumberFrom;
  }

  lemma BeganOnce(st: RxState, seqno: u16, payload: Payload)
    requires st.WellFormed()
    ensures ProcessReceived(Began(st, seqno), seqno, payload) == ProcessReceived(st, seqno, payload)
  {
    hide Accept, SkipToInclude, SeqDiff;
  }

  /**
   The receiver refines the unbounded one. A packet is accepted exactly if its number is new, whatever
   its low 16 bits collide with; every call counts as accepted or as a duplicate, the two drop counters
   stay at zero; and in ordered mode what is handed out is exactly the new part of `delivered`.
   */
  lemma ReceiveRefines(st: RxState, past: Past, x: nat, payload: Payload)
    requires Tracks(st, past) && InReach(past, x)
    ensures var (st2, isNew, out) := ReceiveAndDrain(st, Low16(x), payload);
            var h := Opened(past, x);
            var h2 := ReceiveNumber(h, x, payload, Span(st.window));
            && Tracks(st2, Past(h2)) && st2.window == st.window && st2.ordered == st.ordered
            && (isNew <==> IsNew(h, x))
            && st2.accepted + st2.duplicates == st.accepted + st.duplicates + 1
            && h.delivered <= h2.delivered
            && (forall y | y in h2.delivered :: y in h2.accepted)
            && (st.ordered ==> out == Payloads(h2, h2.delivered[|h.delivered|..]))
  {
    var h := Opened(past, x);
    var s0 := Began(st, Low16(x));
    OpenedTracks(st, past, x);
    BeganOnce(st, Low16(x), payload);
    if x < h.base + Span(st.window) {
      ReceivesNear(s0, h, x, payload);
    } else {
      ReceivesFar(s0, h, x, payload);
    }
    DrainRefines(s0, h, x, payload);
    hide *;
  }

  lemma DrainRefines(st: RxState, h: History, x: nat, payload: Payload)
    requires Represents(st, h) && Received(st, h, x, payload)
    ensures var (st2, isNew, out) := ReceiveAndDrain(st, Low16(x), payload);
            var h2 := ReceiveNumber(h, x, payload, Span(st.window));
            && Represents(st2, h2) && Counted(st2, h2) && st2.window == st.window && st2.ordered == st.ordered
            && st2.accepted + st2.duplicates == st.accepted + st.duplicates + 1
            && h.delivered <= h2.delivered
            && (forall y | y in h2.delivered :: y in h2.accepted)
            && (st.ordered ==> out == Payloads(h2, h2.delivered[|h.delivered|..]))
  {
    var received := ProcessReceived(st, Low16(x), payload).0;
    var h2 := ReceiveNumber(h, x, payload, Span(st.window));
    var e := DeliverFrom(h, x, Span(st.window));
    if st.ordered {
      DeliverRefines(received, h2, e);
    }
  }
}
