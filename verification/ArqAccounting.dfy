/**
 What follows from the refinement for ordered delivery: every accepted packet is delivered, buffered or
 discarded by a forced skip, exactly one of the three, and the reorder buffer is the ACK bitmap.
 */
module ArqAccounting {
  import opened ArqSequence
  import opened ArqReceiver
  import opened ArqRefinement
  import opened Sequences

  ghost function Waiting(h: History): set<nat> {
    set x | x in h.accepted && x >= h.base
  }

  lemma ThreeParts(all: set<nat>, a: set<nat>, b: set<nat>, c: set<nat>)
    requires forall x :: x in all <==> x in a || x in b || x in c
    requires a !! b && a !! c && b !! c
    ensures |all| == |a| + |b| + |c|
  {
    assert all == a + b + c;
  }

  lemma BufferSize(st: RxState, h: History)
    requires Window(st, h) && Buffers(st, h, h.base)
    ensures |st.buffer| == |Waiting(h)|
  {
    AcceptedBound(h, Span(st.window));
    hide Low16, NumberFrom, Consistent, BitsShow;
    SameSize(st.buffer.Keys, Waiting(h), h.base);
    assert |st.buffer| == |st.buffer.Keys|;
  }

  /** The accepted packets are split three ways. */
  lemma Partition(h: History, span: nat)
    requires Consistent(h, span)
    ensures |h.accepted| == |h.delivered| + |Waiting(h)| + |h.discarded|
  {
    DistinctCardinality(h.delivered);
    ThreeParts(h.accepted.Keys, Elements(h.delivered), Waiting(h), h.discarded);
    assert |h.accepted| == |h.accepted.Keys|;
  }

  /** accepted = delivered + buffered + dropped by skips. */
  lemma Accounting(st: RxState, h: History)
    requires Represents(st, h) && Counted(st, h) && st.ordered
    ensures st.accepted == |h.delivered| + |st.buffer| + st.skipDrops
    ensures st.reorderDrops == 0 && st.outsideDrops == 0 && |st.buffer| <= st.window
  {
    Partition(h, Span(st.window));
    BufferSize(st, h);
    AcceptedBound(h, Span(st.window));
    hide Consistent, BitsShow, Low16, NumberFrom;
    KeysWithin(st.buffer.Keys, h.base, Span(st.window));
    assert |st.buffer| == |st.buffer.Keys|;
  }

  /** The next packet to deliver is the window base, and the buffer holds exactly the set ACK bits. */
  lemma BufferIsBitmap(st: RxState, h: History, k: u16)
    requires Represents(st, h) && st.ordered
    ensures st.expected == st.base
    ensures k in st.buffer <==> exists i :: 0 <= i < BITS && st.bitmap[i] && k == Low16(h.base + i)
  {
    AcceptedBound(h, Span(st.window));
    hide Low16, Consistent, NumberFrom;
    if k in st.buffer {
      var x := NumberFrom(h.base, k);
      var i := x - h.base;
      assert st.bitmap[i] <==> h.base + i in h.accepted;
    }
    if i :| 0 <= i < BITS && st.bitmap[i] && k == Low16(h.base + i) {
      assert h.base + i in h.accepted;
    }
  }
}
