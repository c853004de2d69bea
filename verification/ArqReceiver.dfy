/**
 `ArqRxWindow`: duplicate suppression, forced window skips and ordered delivery over 16-bit sequence
 numbers. The class updates its fields as the source does; each method is tied to a function on the
 value `RxState` of those fields.
 */
module ArqReceiver {
  import opened ArqSequence

  const BITS := 64

  /** `ArqFeedback`; `direction` tells the two links of a connection apart. */
  datatype Feedback = Feedback(direction: nat, base: u16, bitmap: seq<bool>)

  datatype RxState = RxState(
    gotAny: bool,
    ordered: bool,
    window: nat,
    expected: u16,
    base: u16,
    bitmap: seq<bool>,
    buffer: map<u16, Payload>,
    duplicates: nat,
    accepted: nat,
    skips: nat,
    outsideDrops: nat,
    reorderDrops: nat,
    skipDrops: nat,
    direction: nat)
  {
    /** What `configure` establishes; `_max_reorder_buf` is the window size. */
    predicate WellFormed() {
      1 <= window < 0x8000 && |bitmap| == BITS
    }
  }

  function NoBits(): (r: seq<bool>)
    ensures |r| == BITS
  {
    seq(BITS, _ => false)
  }

  function Span(window: nat): nat {
    if window < BITS then window else BITS
  }

  // ---------------------------------------------------------------------------------------------
  // `_advance_ack_base`: past the set bits at the bottom.

  function LeadingOnes(bitmap: seq<bool>): (n: nat)
    ensures n <= |bitmap|
    ensures forall i | 0 <= i < n :: bitmap[i]
    ensures n < |bitmap| ==> !bitmap[n]
  {
    if bitmap == [] || !bitmap[0] then 0 else 1 + LeadingOnes(bitmap[1..])
  }

  function ShiftDown(bitmap: seq<bool>, n: nat): (r: seq<bool>)
    requires n <= |bitmap|
    ensures |r| == |bitmap|
  {
    bitmap[n..] + seq(n, _ => false)
  }

  function Advance(st: RxState): RxState
    requires st.WellFormed()
  {
    var n := LeadingOnes(st.bitmap);
    st.(base := Low16(st.base + n), bitmap := ShiftDown(st.bitmap, n))
  }

  // ---------------------------------------------------------------------------------------------
  // `_skip_to_include`.

  function SkippedBitmap(bitmap: seq<bool>, delta: nat, span: nat): (r: seq<bool>)
    requires |bitmap| == BITS
    ensures |r| == BITS
  {
    seq(BITS, j requires 0 <= j < BITS => j < span && j + delta < BITS && bitmap[j + delta])
  }

  predicate Behind(seqno: u16, base: u16) {
    SeqDiff(seqno, base) < 0
  }

  function KeysBehind(buffer: map<u16, Payload>, base: u16): set<u16> {
    set k | k in buffer && Behind(k, base)
  }

  function SkipToInclude(st: RxState, seqno: u16): RxState
    requires st.WellFormed()
  {
    var span := Span(st.window);
    var newBase := Low16(seqno - (span - 1));
    var delta := SeqDiff(newBase, st.base);
    if delta <= 0 then st
    else
      var behind := KeysBehind(st.buffer, newBase);
      st.(base := newBase,
          bitmap := SkippedBitmap(st.bitmap, delta, span),
          expected := if Behind(st.expected, newBase) then newBase else st.expected,
          buffer := st.buffer - behind,
          skipDrops := st.skipDrops + |behind|,
          skips := st.skips + 1)
  }

  lemma SkipKeepsForm(st: RxState, seqno: u16)
    requires st.WellFormed()
    ensures SkipToInclude(st, seqno).WellFormed()
  {
  }

  // ---------------------------------------------------------------------------------------------
  // `process_received`.

  function Began(st: RxState, seqno: u16): RxState {
    if st.gotAny then st else st.(gotAny := true, expected := seqno, base := seqno, bitmap := NoBits())
  }

  function Duplicate(st: RxState): RxState {
    st.(duplicates := st.duplicates + 1)
  }

  predicate IsSmallest(k: nat, keys: set<nat>) {
    k in keys && forall j | j in keys :: k <= j
  }

  /** `std::map` keeps its keys in numerical order; an overfull buffer loses the smallest. */
  function Smallest(keys: set<nat>): (k: nat)
    requires keys != {}
    ensures IsSmallest(k, keys)
  {
    SmallestExists(keys);
    SmallestUnique(keys);
    var k :| IsSmallest(k, keys);
    k
  }

  lemma SmallestUnique(keys: set<nat>)
    ensures forall k, m | IsSmallest(k, keys) && IsSmallest(m, keys) :: k == m
  {
  }

  lemma SmallestExists(keys: set<nat>)
    requires keys != {}
    ensures exists k :: IsSmallest(k, keys)
  {
    var k :| k in keys;
    var rest := keys - {k};
    if rest == {} {
      assert keys == {k};
      assert IsSmallest(k, keys);
    } else {
      SmallestExists(rest);
      var m :| IsSmallest(m, rest);
      assert keys == rest + {k};
      assert IsSmallest(if k <= m then k else m, keys);
    }
  }

  function Buffered(st: RxState, seqno: u16, payload: Payload): RxState {
    if !st.ordered then st
    else
      var buffer := if seqno in st.buffer then st.buffer else st.buffer[seqno := payload];
      if |buffer| > st.window then
        st.(buffer := buffer - {Smallest(buffer.Keys)}, reorderDrops := st.reorderDrops + 1)
      else
        st.(buffer := buffer)
  }

  function Accept(st: RxState, seqno: u16, payload: Payload, i: nat): RxState
    requires st.WellFormed() && i < BITS
  {
    var marked := Advance(st.(bitmap := st.bitmap[i := true]));
    Buffered(marked.(accepted := marked.accepted + 1), seqno, payload)
  }

  /** The new state and whether the packet was accepted. */
  function ProcessReceived(st: RxState, seqno: u16, payload: Payload): (RxState, bool)
    requires st.WellFormed()
  {
    var s0 := Began(st, seqno);
    var index := SeqDiff(seqno, s0.base);
    if index < 0 then (Duplicate(s0), false)
    else
      var s1 := if index >= s0.window || index >= BITS then SkipToInclude(s0, seqno) else s0;
      var adjusted := SeqDiff(seqno, s1.base);
      if adjusted < 0 then (Duplicate(s1), false)
      else if adjusted >= s1.window || adjusted >= BITS then
        (s1.(outsideDrops := s1.outsideDrops + 1), false)
      else if s1.bitmap[adjusted] then (Duplicate(s1), false)
      else (Accept(s1, seqno, payload, adjusted), true)
  }

  // ---------------------------------------------------------------------------------------------
  // `get_deliverable` and `generate_ack`.

  /** The state after collecting, and the payloads collected, in order. */
  function Deliver(st: RxState): (RxState, seq<Payload>)
    decreases |st.buffer|
  {
    if !st.ordered || st.expected !in st.buffer then (st, [])
    else
      Smaller(st.buffer, st.expected);
      var rest := Deliver(st.(buffer := st.buffer - {st.expected}, expected := Low16(st.expected + 1)));
      (rest.0, [st.buffer[st.expected]] + rest.1)
  }

  function GenerateAck(st: RxState): Feedback {
    Feedback(st.direction, st.base, st.bitmap)
  }

  // ---------------------------------------------------------------------------------------------
  // The class.

  class ArqRxWindow {
    var gotAny: bool
    var ordered: bool
    var window: nat
    var expected: u16
    var base: u16
    var bitmap: seq<bool>
    var buffer: map<u16, Payload>
    var duplicates: nat
    var accepted: nat
    var skips: nat
    var outsideDrops: nat
    var reorderDrops: nat
    var skipDrops: nat
    var direction: nat

    function State(): RxState
      reads this
    {
      RxState(gotAny, ordered, window, expected, base, bitmap, buffer,
              duplicates, accepted, skips, outsideDrops, reorderDrops, skipDrops, direction)
    }

    /** `configure` and `set_direction` on a fresh object; the window size is clamped to 1..32767. */
    constructor (packets: int, orderedDelivery: bool, dir: nat)
      ensures State().WellFormed()
      ensures State() == RxState(false, orderedDelivery, window, 0, 0, NoBits(), map[], 0, 0, 0, 0, 0, 0, dir)
      ensures window == if packets < 1 then 1 else if packets > 0x7FFF then 0x7FFF else packets
    {
      gotAny, ordered := false, orderedDelivery;
      window := if packets < 1 then 1 else if packets > 0x7FFF then 0x7FFF else packets;
      expected, base, bitmap, buffer := 0, 0, NoBits(), map[];
      duplicates, accepted, skips, outsideDrops, reorderDrops, skipDrops := 0, 0, 0, 0, 0, 0;
      direction := dir;
    }

    method AdvanceAckBase()
      requires State().WellFormed()
      modifies this`base, this`bitmap
      ensures State() == Advance(old(State()))
    {
      hide LeadingOnes, ShiftDown;
      ghost var before := bitmap;
      ghost var n := 0;
      ShiftDownNone(before);
      while bitmap[0]
        invariant n <= LeadingOnes(before) && |before| == BITS
        invariant bitmap == ShiftDown(before, n) && base == Low16(old(base) + n)
        decreases LeadingOnes(before) - n
      {
        OneMore(before, n);
        Low16Adds(old(base) + n, 1);
        bitmap := bitmap[1..] + [false];
        base := (base + 1) % 0x1_0000;
        n := n + 1;
      }
      NoMore(before, n);
    }

    /** The new bitmap, moved down by the distance the base moves up. */
    method MovedBitmap(newBase: u16, span: nat) returns (newBitmap: seq<bool>)
      requires State().WellFormed() && SeqDiff(newBase, base) > 0
      ensures newBitmap == SkippedBitmap(bitmap, SeqDiff(newBase, base), span)
    {
      ghost var delta := SeqDiff(newBase, base);
      newBitmap := NoBits();
      for i := 0 to BITS
        invariant |newBitmap| == BITS
        invariant forall j | 0 <= j < BITS :: newBitmap[j] <==> j < span && j + delta < i && bitmap[j + delta]
      {
        if !bitmap[i] {
          continue;
        }
        var oldSeq: u16 := (base + i) % 0x1_0000;
        var newIndex := SeqDiff(oldSeq, newBase);
        IndexMoves(base, newBase, i);
        if newIndex >= 0 && newIndex < span {
          newBitmap := newBitmap[newIndex := true];
        }
      }
    }

    /** The loop that erases buffered packets now behind the window. */
    method DropBehind()
      modifies this`buffer, this`skipDrops
      ensures buffer == old(buffer) - KeysBehind(old(buffer), base)
      ensures skipDrops == old(skipDrops) + |KeysBehind(old(buffer), base)|
    {
      ghost var behind := KeysBehind(buffer, base);
      var edge := base;
      var kept, dropped := EraseIf(buffer, (k: u16, p: Payload) => SeqDiff(k, edge) < 0);
      assert behind == Doomed(buffer, (k: u16, p: Payload) => SeqDiff(k, edge) < 0);
      buffer := kept;
      skipDrops := skipDrops + dropped;
    }

    method SkipToIncludeSeq(seqno: u16)
      requires State().WellFormed()
      modifies this
      ensures State() == SkipToInclude(old(State()), seqno)
    {
      hide SeqDiff, SkippedBitmap, KeysBehind;
      var span := if window < 64 then window else 64;
      var newBase: u16 := (seqno - (span - 1)) % 0x1_0000;
      if SeqDiff(newBase, base) <= 0 {
        return;
      }
      var newBitmap := MovedBitmap(newBase, span);
      base := newBase;
      bitmap := newBitmap;
      if SeqDiff(expected, base) < 0 {
        expected := base;
      }
      DropBehind();
      skips := skips + 1;
    }

    method BufferPacket(seqno: u16, payload: Payload)
      modifies this`buffer, this`reorderDrops
      ensures State() == Buffered(old(State()), seqno, payload)
    {
      if ordered {
        if seqno !in buffer {
          buffer := buffer[seqno := payload];
        }
        if |buffer| > window {
          assert buffer.Keys != {};
          var first := SmallestKey(buffer.Keys);
          buffer := buffer - {first};
          reorderDrops := reorderDrops + 1;
        }
      }
    }

    method AcceptPacket(seqno: u16, payload: Payload, index: nat)
      requires State().WellFormed() && index < BITS
      modifies this
      ensures State() == Accept(old(State()), seqno, payload, index)
    {
      hide Advance, Buffered;
      bitmap := bitmap[index := true];
      AdvanceAckBase();
      accepted := accepted + 1;
      BufferPacket(seqno, payload);
    }

    /** `process_received`. */
    method ProcessReceivedPacket(seqno: u16, payload: Payload) returns (isNew: bool)
      requires State().WellFormed()
      modifies this
      ensures (State(), isNew) == ProcessReceived(old(State()), seqno, payload)
    {
      hide SeqDiff, Accept, SkipToInclude;
      if !gotAny {
        gotAny, expected, base, bitmap := true, seqno, seqno, NoBits();
      }
      var index := SeqDiff(seqno, base);
      if index < 0 {
        duplicates := duplicates + 1;
        return false;
      }
      if index >= window || index >= BITS {
        SkipKeepsForm(State(), seqno);
        SkipToIncludeSeq(seqno);
      }
      var adjusted := SeqDiff(seqno, base);
      if adjusted < 0 {
        duplicates := duplicates + 1;
        return false;
      }
      if adjusted >= window || adjusted >= BITS {
        outsideDrops := outsideDrops + 1;
        return false;
      }
      if bitmap[adjusted] {
        duplicates := duplicates + 1;
        return false;
      }
      AcceptPacket(seqno, payload, adjusted);
      return true;
    }

    method GetDeliverable() returns (out: seq<Payload>)
      modifies this`buffer, this`expected
      ensures State() == Deliver(old(State())).0 && out == Deliver(old(State())).1
    {
      hide Low16;
      out := [];
      if !ordered {
        return;
      }
      ghost var start := State();
      while expected in buffer
        invariant State() == start.(buffer := buffer, expected := expected)
        invariant Deliver(start).0 == Deliver(State()).0
        invariant Deliver(start).1 == out + Deliver(State()).1
        decreases |buffer|
      {
        ghost var st := State();
        DeliverOne(st);
        Smaller(buffer, expected);
        out := out + [buffer[expected]];
        var next := Low16(expected + 1);
        buffer, expected := buffer - {expected}, next;
      }
    }

    method GenerateAckPacket() returns (ack: Feedback)
      ensures ack == GenerateAck(State())
    {
      ack := Feedback(direction, base, bitmap);
    }
  }

  lemma Smaller(m: map<u16, Payload>, k: u16)
    requires k in m
    ensures |m - {k}| < |m|
  {
    assert (m - {k}).Keys == m.Keys - {k};
    assert |m.Keys - {k}| < |m.Keys|;
  }

  lemma DeliverOne(st: RxState)
    requires st.ordered && st.expected in st.buffer
    ensures var rest := st.(buffer := st.buffer - {st.expected}, expected := Low16(st.expected + 1));
            Deliver(st).0 == Deliver(rest).0 && Deliver(st).1 == [st.buffer[st.expected]] + Deliver(rest).1
  {
  }

  method SmallestKey(keys: set<nat>) returns (k: nat)
    requires keys != {}
    ensures k == Smallest(keys)
  {
    k :| k in keys;
    var left := keys - {k};
    while left != {}
      invariant left <= keys && IsSmallest(k, keys - left)
      decreases left
    {
      var j :| j in left;
      assert keys - (left - {j}) == keys - left + {j};
      if j < k {
        k := j;
      }
      left := left - {j};
    }
    assert keys - left == keys;
    SmallestUnique(keys);
  }

  lemma ShiftDownFirst(bitmap: seq<bool>, n: nat)
    requires n <= |bitmap| && bitmap != []
    ensures ShiftDown(bitmap, n)[0] == (n < |bitmap| && bitmap[n])
  {
  }

  lemma ShiftDownNone(bitmap: seq<bool>)
    ensures ShiftDown(bitmap, 0) == bitmap
  {
  }

  lemma ShiftDownOnce(bitmap: seq<bool>, n: nat)
    requires n < |bitmap|
    ensures ShiftDown(bitmap, n + 1) == ShiftDown(bitmap, n)[1..] + [false]
  {
  }

  lemma OneMore(bitmap: seq<bool>, n: nat)
    requires n <= LeadingOnes(bitmap) && |bitmap| == BITS && ShiftDown(bitmap, n)[0]
    ensures n < LeadingOnes(bitmap)
    ensures ShiftDown(bitmap, n + 1) == ShiftDown(bitmap, n)[1..] + [false]
  {
    ShiftDownFirst(bitmap, n);
    hide LeadingOnes, ShiftDown;
    ShiftDownOnce(bitmap, n);
  }

  lemma NoMore(bitmap: seq<bool>, n: nat)
    requires n <= LeadingOnes(bitmap) && |bitmap| == BITS && !ShiftDown(bitmap, n)[0]
    ensures n == LeadingOnes(bitmap)
  {
    ShiftDownFirst(bitmap, n);
    hide LeadingOnes, ShiftDown;
  }

  /** Moving the base forward by `delta` moves the index of a packet down by `delta`. */
  lemma IndexMoves(base: u16, newBase: u16, i: nat)
    requires i < BITS && SeqDiff(newBase, base) > 0
    ensures SeqDiff(Low16(base + i), newBase) == i - SeqDiff(newBase, base)
  {
  }

  /** A new packet for a full reorder buffer: the numerically smallest of all is lost, and counted. */
  lemma OverflowLosesSmallest(st: RxState, seqno: u16, payload: Payload, lost: u16)
    requires st.ordered && seqno !in st.buffer && |st.buffer| == st.window
    requires (lost in st.buffer || lost == seqno) && (forall k | k in st.buffer :: lost <= k) && lost <= seqno
    ensures Buffered(st, seqno, payload)
            == st.(buffer := st.buffer[seqno := payload] - {lost}, reorderDrops := st.reorderDrops + 1)
  {
    var more := st.buffer[seqno := payload];
    assert more.Keys == st.buffer.Keys + {seqno};
    assert |more| == |more.Keys| == st.window + 1;
    assert IsSmallest(lost, more.Keys);
  }

  /** A packet that finds room, or is there already, is kept as it first came. */
  lemma RoomKeepsAll(st: RxState, seqno: u16, payload: Payload)
    requires st.ordered && (seqno in st.buffer || |st.buffer| < st.window)
    requires |st.buffer| <= st.window
    ensures Buffered(st, seqno, payload)
            == st.(buffer := if seqno in st.buffer then st.buffer else st.buffer[seqno := payload])
  {
    if seqno !in st.buffer {
      assert st.buffer[seqno := payload].Keys == st.buffer.Keys + {seqno};
      assert |st.buffer[seqno := payload]| == |st.buffer[seqno := payload].Keys|;
    }
  }

  lemma LostKeys(buffer: map<u16, Payload>, lost: set<u16>)
    requires lost <= buffer.Keys
    ensures buffer.Keys - (buffer - lost).Keys == lost
  {
  }

  /** A skip is counted exactly if the base moves, and counts the buffered packets it passes over. */
  lemma SkipIsCounted(st: RxState, seqno: u16)
    requires st.WellFormed()
    ensures var t := SkipToInclude(st, seqno);
            && t.skips == st.skips + (if t.base == st.base then 0 else 1)
            && t.skipDrops == st.skipDrops + |st.buffer.Keys - t.buffer.Keys|
            && t.buffer.Keys <= st.buffer.Keys
  {
    var behind := KeysBehind(st.buffer, SkipToInclude(st, seqno).base);
    assert behind <= st.buffer.Keys;
    assert SeqDiff(st.base, st.base) == 0;
    hide SkippedBitmap, Span, SeqDiff, KeysBehind, Low16;
    LostKeys(st.buffer, behind);
    LostKeys(st.buffer, {});
  }
}
