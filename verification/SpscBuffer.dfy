/**
 `SPSCRingBuffer` as one side sees it when the other stands still; `SpscRing` has the two interleaved.
 */
module SpscBuffer {
  import opened Outcomes
  import opened RingIndex

  class SPSCRingBuffer<T> {
    const slots: array<T>
    var head: nat
    var tail: nat

    ghost predicate Valid()
      reads this
    {
      tail <= head <= tail + slots.Length
    }

    /** The queue: oldest item first. */
    ghost function Contents(): (r: seq<T>)
      requires Valid()
      reads this, slots
      ensures |r| == head - tail
    {
      Stretch(slots[..], tail, head - tail)
    }

    /** `reset`: the slots are made by the factory. */
    constructor (capacity: nat, factory: nat -> T)
      ensures Valid() && fresh(slots) && slots.Length == capacity && Contents() == []
    {
      slots := new T[capacity](i => factory(i));
      head, tail := 0, 0;
    }

    /** The index of the slot to fill, or nothing if the ring is full. */
    method ProducerSlot() returns (k: Option<nat>)
      requires Valid()
      ensures k.None? <==> |Contents()| == slots.Length
      ensures k.Some? ==> k.value < slots.Length && k.value == Slot(head, slots.Length)
    {
      if slots.Length == 0 || head - tail >= slots.Length {
        return None;
      }
      return Some(Slot(head, slots.Length));
    }

    method TryPush(value: T) returns (ok: bool)
      requires Valid()
      modifies this`head, slots
      ensures Valid() && ok == (|old(Contents())| < slots.Length)
      ensures Contents() == if ok then old(Contents()) + [value] else old(Contents())
    {
      hide Slot;
      var k := ProducerSlot();
      if k.None? {
        return false;
      }
      ghost var before := slots[..];
      slots[k.value] := value;
      OneStored(before, head, value);
      StoredExtends(before, tail, head - tail, [value]);
      head := head + 1;
      return true;
    }

    method TryPop() returns (out: Option<T>)
      requires Valid()
      modifies this`tail
      ensures Valid() && (out.None? <==> old(Contents()) == [])
      ensures out.None? ==> Contents() == old(Contents())
      ensures out.Some? ==> old(Contents()) == [out.value] + Contents()
    {
      if slots.Length == 0 || tail == head {
        return None;
      }
      StretchSplits(slots[..], tail, head - tail, 1);
      assert Slot(tail + 0, slots.Length) == Slot(tail, slots.Length);
      out := Some(slots[Slot(tail, slots.Length)]);
      assert Stretch(slots[..], tail, 1) == [out.value];
      tail := tail + 1;
    }

    /** Consumer side: drop everything. */
    method Clear()
      requires Valid()
      modifies this`tail
      ensures Valid() && Contents() == []
    {
      tail := head;
    }
  }

  lemma OneStored<T>(slots: seq<T>, from: nat, item: T)
    requires slots != []
    ensures Stored(slots, from, [item]) == slots[Slot(from, |slots|) := item]
  {
  }
}
