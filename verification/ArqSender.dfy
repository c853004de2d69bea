/**
 `ArqTxWindow`: the packets not yet acknowledged, keyed by 16-bit sequence number, with their retry
 counts. The hash map of the source is iterated in no particular order. Each method of the class is
 tied to a function on the value `TxState` of its fields.
 */
module ArqSender {
  import opened ArqSequence
  import opened ArqReceiver

  /** `symbols` are the encoded symbols of the packet, if they are kept for retransmission. */
  datatype Entry = Entry(payload: Payload, symbols: seq<int>, lastTx: int, retries: nat)

  type Entries = map<u16, Entry>

  datatype TxState = TxState(window: nat, timeout: int, maxRetries: int, direction: nat, entries: Entries)

  // ---------------------------------------------------------------------------------------------
  // What each operation does to the entries.

  predicate HasRoom(st: TxState) {
    |st.entries| < st.window
  }

  /** `try_insert_encoded`: an entry that is already there stays as it is. */
  function TryInsert(st: TxState, seqno: u16, payload: Payload, symbols: seq<int>, now: int): (TxState, bool) {
    if !HasRoom(st) then (st, false)
    else if seqno in st.entries then (st, true)
    else (st.(entries := st.entries[seqno := Entry(payload, symbols, now, 0)]), true)
  }

  predicate Selected(k: u16, ack: Feedback) {
    exists i :: 0 <= i < |ack.bitmap| && ack.bitmap[i] && k == Low16(ack.base + i)
  }

  /** Acknowledged cumulatively, or by a bit. */
  predicate Acked(k: u16, ack: Feedback) {
    Behind(k, ack.base) || Selected(k, ack)
  }

  function Released(entries: Entries, ack: Feedback): set<u16> {
    set k | k in entries && Acked(k, ack)
  }

  function ProcessAck(st: TxState, ack: Feedback): (TxState, nat) {
    if ack.direction != st.direction then (st, 0)
    else
      var released := Released(st.entries, ack);
      (st.(entries := st.entries - released), |released|)
  }

  lemma WithoutKeys(entries: Entries, keys: set<u16>)
    requires keys <= entries.Keys
    ensures |entries - keys| == |entries| - |keys|
  {
    assert (entries - keys).Keys == entries.Keys - keys;
    assert |entries.Keys| == |entries| && |(entries - keys).Keys| == |entries - keys|;
  }

  lemma ReleasedIs(entries: Entries, ack: Feedback, k: u16)
    ensures k in Released(entries, ack) <==>
            && k in entries
            && (SeqDiff(k, ack.base) < 0
                || exists i :: 0 <= i < |ack.bitmap| && ack.bitmap[i] && k == Low16(ack.base + i))
  {
    hide SeqDiff, Low16;
  }

  lemma ProcessAckIs(st: TxState, ack: Feedback)
    ensures var (t, n) := ProcessAck(st, ack);
            && n == |st.entries| - |t.entries|
            && (ack.direction != st.direction ==> t == st)
            && (forall k | k in t.entries :: k in st.entries && t.entries[k] == st.entries[k])
            && (ack.direction == st.direction ==> forall k | k in st.entries ::
                  k !in t.entries <==>
                    || SeqDiff(k, ack.base) < 0
                    || exists i :: 0 <= i < |ack.bitmap| && ack.bitmap[i] && k == Low16(ack.base + i))
  {
    var gone := Released(st.entries, ack);
    assert gone <= st.entries.Keys;
    hide SeqDiff, Low16, Released;
    WithoutKeys(st.entries, gone);
    forall k | k in st.entries
      ensures k in gone <==>
              || SeqDiff(k, ack.base) < 0
              || exists i :: 0 <= i < |ack.bitmap| && ack.bitmap[i] && k == Low16(ack.base + i)
    {
      ReleasedIs(st.entries, ack, k);
    }
  }

  predicate Expired(st: TxState, e: Entry, now: int) {
    now - e.lastTx >= st.timeout
  }

  predicate Due(st: TxState, e: Entry, now: int) {
    Expired(st, e, now) && (st.maxRetries <= 0 || e.retries < st.maxRetries)
  }

  function DueKeys(st: TxState, now: int): set<u16> {
    set k | k in st.entries && Due(st, st.entries[k], now)
  }

  function MarkTransmitted(st: TxState, seqno: u16, now: int): TxState {
    if seqno !in st.entries then st
    else
      var e := st.entries[seqno];
      st.(entries := st.entries[seqno := e.(lastTx := now, retries := e.retries + 1)])
  }

  predicate Abandoned(st: TxState, e: Entry, now: int) {
    st.maxRetries > 0 && e.retries >= st.maxRetries && Expired(st, e, now)
  }

  function AbandonedKeys(st: TxState, now: int): set<u16> {
    set k | k in st.entries && Abandoned(st, st.entries[k], now)
  }

  function DropAbandoned(st: TxState, now: int): (TxState, nat) {
    (st.(entries := st.entries - AbandonedKeys(st, now)), |AbandonedKeys(st, now)|)
  }

  // ---------------------------------------------------------------------------------------------
  // The loops.

  function SelectedKeys(entries: Entries, ack: Feedback): set<u16> {
    set k | k in entries && Selected(k, ack)
  }

  /** Selected by one of the first `n` bits. */
  predicate SelectedBelow(k: u16, ack: Feedback, n: nat) {
    exists i :: 0 <= i < n && i < |ack.bitmap| && ack.bitmap[i] && k == Low16(ack.base + i)
  }

  lemma SelectedStep(entries: Entries, ack: Feedback, i: nat)
    requires i < |ack.bitmap|
    ensures var below := set k | k in entries && SelectedBelow(k, ack, i);
            var below1 := set k | k in entries && SelectedBelow(k, ack, i + 1);
            var k := Low16(ack.base + i);
            below1 == if ack.bitmap[i] && k in entries then below + {k} else below
  {
    hide Low16;
    var below := set k | k in entries && SelectedBelow(k, ack, i);
    var below1 := set k | k in entries && SelectedBelow(k, ack, i + 1);
    var top := Low16(ack.base + i);
    forall k | k in entries
      ensures k in below1 <==> k in below || (ack.bitmap[i] && k == top)
    {
      if SelectedBelow(k, ack, i) {
        var j :| 0 <= j < i && j < |ack.bitmap| && ack.bitmap[j] && k == Low16(ack.base + j);
        assert SelectedBelow(k, ack, i + 1);
      }
      if ack.bitmap[i] && k == top {
        assert SelectedBelow(k, ack, i + 1);
      }
    }
  }

  /** The walk over the bits of the acknowledgement. */
  method EraseSelected(entries: Entries, ack: Feedback) returns (kept: Entries, erased: nat)
    ensures kept == entries - SelectedKeys(entries, ack) && erased == |SelectedKeys(entries, ack)|
  {
    hide Low16;
    kept, erased := entries, 0;
    ghost var gone: set<u16> := {};
    for i := 0 to |ack.bitmap|
      invariant gone == set k | k in entries && SelectedBelow(k, ack, i)
      invariant kept == entries - gone && erased == |gone|
    {
      SelectedStep(entries, ack, i);
      if ack.bitmap[i] {
        var k := Low16(ack.base + i);
        if k in kept {
          EraseMore(entries, gone, k);
          kept := kept - {k};
          erased := erased + 1;
          gone := gone + {k};
        }
      }
    }
    assert gone == SelectedKeys(entries, ack);
  }

  /** The entries left after the cumulative walk and the bits walk. */
  lemma ReleasedInTwo(entries: Entries, ack: Feedback, behind: set<u16>)
    requires behind == set k | k in entries && Behind(k, ack.base)
    ensures var selected := SelectedKeys(entries - behind, ack);
            && entries - behind - selected == entries - Released(entries, ack)
            && |behind| + |selected| == |Released(entries, ack)|
  {
    hide Behind, Selected;
    var selected := SelectedKeys(entries - behind, ack);
    assert behind + selected == Released(entries, ack);
    assert behind !! selected;
  }

  /** The cumulative walk, then the walk over the bits. */
  method EraseAcked(entries: Entries, ack: Feedback) returns (kept: Entries, erased: nat)
    ensures kept == entries - Released(entries, ack) && erased == |Released(entries, ack)|
  {
    hide SeqDiff, Selected;
    ghost var behind := set k | k in entries && Behind(k, ack.base);
    assert behind == Doomed(entries, (k: u16, e: Entry) => SeqDiff(k, ack.base) < 0);
    var rest, count := EraseIf(entries, (k: u16, e: Entry) => SeqDiff(k, ack.base) < 0);
    var more;
    kept, more := EraseSelected(rest, ack);
    ReleasedInTwo(entries, ack, behind);
    erased := count + more;
  }

  // ---------------------------------------------------------------------------------------------
  // The class.

  class ArqTxWindow {
    var window: nat
    var timeout: int
    var maxRetries: int
    var direction: nat
    var entries: Entries

    function State(): TxState
      reads this
    {
      TxState(window, timeout, maxRetries, direction, entries)
    }

    /** `configure` and `set_direction` on a fresh object. */
    constructor (packets: int, timeoutMs: int, retries: int, dir: nat)
      ensures State() == TxState(window, if timeoutMs > 0 then timeoutMs else 100, retries, dir, map[])
      ensures window == if packets < 1 then 1 else if packets > 0x7FFF then 0x7FFF else packets
    {
      window := if packets < 1 then 1 else if packets > 0x7FFF then 0x7FFF else packets;
      timeout := if timeoutMs > 0 then timeoutMs else 100;
      maxRetries, direction, entries := retries, dir, map[];
    }

    method TryInsertPacket(seqno: u16, payload: Payload, now: int) returns (ok: bool)
      modifies this`entries
      ensures (State(), ok) == TryInsert(old(State()), seqno, payload, [], now)
      ensures ok <==> |old(entries)| < window
      ensures entries == if ok && seqno !in old(entries)
                         then old(entries)[seqno := Entry(payload, [], now, 0)] else old(entries)
    {
      ok := TryInsertEncoded(seqno, payload, [], now);
    }

    method TryInsertEncoded(seqno: u16, payload: Payload, symbols: seq<int>, now: int) returns (ok: bool)
      modifies this`entries
      ensures (State(), ok) == TryInsert(old(State()), seqno, payload, symbols, now)
      ensures ok <==> |old(entries)| < window
      ensures entries == if ok && seqno !in old(entries)
                         then old(entries)[seqno := Entry(payload, symbols, now, 0)] else old(entries)
    {
      if |entries| >= window {
        return false;
      }
      if seqno !in entries {
        entries := entries[seqno := Entry(payload, symbols, now, 0)];
      }
      return true;
    }

    method ProcessFeedback(ack: Feedback) returns (released: nat)
      modifies this`entries
      ensures (State(), released) == ProcessAck(old(State()), ack)
      ensures ack.direction != direction ==> entries == old(entries)
      ensures ack.direction == direction ==> forall k | k in old(entries) ::
                k !in entries <==>
                  || SeqDiff(k, ack.base) < 0
                  || exists i :: 0 <= i < |ack.bitmap| && ack.bitmap[i] && k == Low16(ack.base + i)
      ensures forall k | k in entries :: k in old(entries) && entries[k] == old(entries)[k]
      ensures released == |old(entries)| - |entries|
    {
      ProcessAckIs(State(), ack);
      hide SeqDiff, Low16, Released;
      if ack.direction != direction {
        return 0;
      }
      var kept, erased := EraseAcked(entries, ack);
      entries := kept;
      released := erased;
    }

    /** The keys due for another transmission, at most `limit` of them, in the order of the map. */
    method GetRetransmit(now: int, limit: nat) returns (out: seq<u16>)
      ensures forall k | k in out :: k in DueKeys(State(), now)
      ensures forall k | k in out ::
                && k in entries && now - entries[k].lastTx >= timeout
                && (maxRetries > 0 ==> entries[k].retries < maxRetries)
      ensures forall i, j | 0 <= i < j < |out| :: out[i] != out[j]
      ensures |out| < limit ==> forall k | k in DueKeys(State(), now) :: k in out
      ensures |out| < limit ==>
                forall k | k in entries && now - entries[k].lastTx >= timeout
                           && (maxRetries <= 0 || entries[k].retries < maxRetries) :: k in out
      ensures |out| <= limit
    {
      out := [];
      var left := entries.Keys;
      while left != {} && |out| < limit
        invariant left <= entries.Keys && |out| <= limit
        invariant forall k | k in out :: k in DueKeys(State(), now) && k !in left
        invariant forall k | k in DueKeys(State(), now) - left :: k in out
        invariant forall i, j | 0 <= i < j < |out| :: out[i] != out[j]
        decreases left
      {
        var k :| k in left;
        left := left - {k};
        if now - entries[k].lastTx >= timeout {
          if maxRetries <= 0 || entries[k].retries < maxRetries {
            out := out + [k];
          }
        }
      }
    }

    method HasRetransmitPending(now: int) returns (pending: bool)
      ensures pending <==> DueKeys(State(), now) != {}
      ensures pending <==> exists k :: k in entries && now - entries[k].lastTx >= timeout
                                       && (maxRetries <= 0 || entries[k].retries < maxRetries)
    {
      var left := entries.Keys;
      while left != {}
        invariant left <= entries.Keys && DueKeys(State(), now) <= left
        decreases left
      {
        var k :| k in left;
        if now - entries[k].lastTx >= timeout {
          if maxRetries <= 0 || entries[k].retries < maxRetries {
            assert k in DueKeys(State(), now);
            return true;
          }
        }
        left := left - {k};
      }
      assert forall k | k in entries && now - entries[k].lastTx >= timeout
                        && (maxRetries <= 0 || entries[k].retries < maxRetries) :: k in DueKeys(State(), now);
      return false;
    }

    method MarkTransmittedPacket(seqno: u16, now: int)
      modifies this`entries
      ensures State() == MarkTransmitted(old(State()), seqno, now)
      ensures entries.Keys == old(entries).Keys
      ensures forall k | k in entries && k != seqno :: entries[k] == old(entries)[k]
      ensures seqno in entries ==>
                entries[seqno] == old(entries)[seqno].(lastTx := now, retries := old(entries)[seqno].retries + 1)
    {
      if seqno in entries {
        var e := entries[seqno];
        entries := entries[seqno := e.(lastTx := now, retries := e.retries + 1)];
      }
    }

    method DropAbandonedPackets(now: int) returns (dropped: nat)
      modifies this`entries
      ensures (State(), dropped) == DropAbandoned(old(State()), now)
      ensures forall k :: k in entries <==>
                k in old(entries) && !(maxRetries > 0 && old(entries)[k].retries >= maxRetries
                                       && now - old(entries)[k].lastTx >= timeout)
      ensures forall k | k in entries :: entries[k] == old(entries)[k]
      ensures dropped == |old(entries)| - |entries|
    {
      WithoutKeys(entries, AbandonedKeys(State(), now));
      if maxRetries <= 0 {
        assert entries - AbandonedKeys(State(), now) == entries;
        return 0;
      }
      var limit, wait := maxRetries, timeout;
      assert AbandonedKeys(State(), now)
          == Doomed(entries, (k: u16, e: Entry) => e.retries >= limit && now - e.lastTx >= wait);
      var kept, erased := EraseIf(entries, (k: u16, e: Entry) => e.retries >= limit && now - e.lastTx >= wait);
      entries := kept;
      dropped := erased;
    }
  }
}
