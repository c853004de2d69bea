/**
 Positions that only grow, stored modulo the capacity.
 */
module RingIndex {

  /** Two positions closer than the capacity have different slots. */
  lemma SlotsDiffer(i: nat, j: nat, capacity: nat)
    requires i < j < i + capacity
    ensures i % capacity != j % capacity
  {
    if i % capacity == j % capacity {
      var q := j / capacity - i / capacity;
      assert j - i == capacity * q;
      if q <= 0 {
        Scales(capacity, q, 0);
      } else {
        Scales(capacity, 1, q);
      }
    }
  }

  lemma Scales(c: nat, a: int, b: int)
    requires a <= b
    ensures c * a <= c * b
  {
  }

  lemma SlotInRange(i: nat, capacity: nat)
    requires capacity > 0
    ensures 0 <= i % capacity < capacity
  {
  }

  /** The slot `k` further on, before and after the wrap. */
  lemma SlotAfter(i: nat, k: nat, capacity: nat)
    requires capacity > 0 && i % capacity + k < 2 * capacity
    ensures (i + k) % capacity
            == if i % capacity + k < capacity then i % capacity + k else i % capacity + k - capacity
  {
    var q := i / capacity;
    var r := i % capacity;
    assert i == q * capacity + r;
    if r + k < capacity {
      RemainderIs(i + k, q, r + k, capacity);
    } else {
      assert (q + 1) * capacity == q * capacity + capacity;
      RemainderIs(i + k, q + 1, r + k - capacity, capacity);
    }
  }

  lemma RemainderIs(n: nat, q: nat, r: nat, c: nat)
    requires c > 0 && n == q * c + r && r < c
    ensures n % c == r
  {
    var q2, r2 := n / c, n % c;
    assert n == q2 * c + r2;
    assert (q2 - q) * c == r - r2;
    SmallMultiple(c, q2 - q);
  }

  lemma SmallMultiple(c: nat, d: int)
    requires 0 - c < d * c < c
    ensures d == 0
  {
    if d > 0 {
      Scales(c, 1, d);
    }
    if d < 0 {
      Scales(c, d, -1);
    }
  }

  function Range(lo: nat, hi: nat): (r: set<nat>)
    ensures forall i: nat :: i in r <==> lo <= i < hi
    ensures |r| == if lo <= hi then hi - lo else 0
  {
    if lo >= hi then {} else Range(lo, hi - 1) + {hi - 1}
  }

  // ---------------------------------------------------------------------------------------------
  // A stretch of positions, and the copies that split it where it wraps.

  function Slot(i: nat, capacity: nat): (k: nat)
    requires capacity > 0
    ensures k < capacity
  {
    i % capacity
  }

  /** What the `n` positions from `from` on hold. */
  function Stretch<T>(slots: seq<T>, from: nat, n: nat): (r: seq<T>)
    requires n == 0 || slots != []
    ensures |r| == n && forall k | 0 <= k < n :: r[k] == slots[Slot(from + k, |slots|)]
  {
    if n == 0 then [] else seq(n, k requires 0 <= k < n => slots[Slot(from + k, |slots|)])
  }

  /** The two copies out of the ring: up to its end, and the rest from its start. */
  function Fetched<T>(slots: seq<T>, from: nat, n: nat): (r: seq<T>)
    requires n <= |slots| && slots != []
    ensures |r| == n
  {
    var at := Slot(from, |slots|);
    var first := if n <= |slots| - at then n else |slots| - at;
    slots[at..at + first] + slots[..n - first]
  }

  lemma FetchedIsStretch<T>(slots: seq<T>, from: nat, n: nat)
    requires n <= |slots| && slots != []
    ensures Fetched(slots, from, n) == Stretch(slots, from, n)
  {
    var r := Fetched(slots, from, n);
    forall k | 0 <= k < n
      ensures r[k] == Stretch(slots, from, n)[k]
    {
      SlotAfter(from, k, |slots|);
    }
  }

  /** A copy to consecutive slots. */
  function Overwritten<T>(slots: seq<T>, at: nat, items: seq<T>): (r: seq<T>)
    requires at + |items| <= |slots|
    ensures |r| == |slots|
  {
    slots[..at] + items + slots[at + |items|..]
  }

  /** The two copies into the ring. */
  function Stored<T>(slots: seq<T>, from: nat, items: seq<T>): (r: seq<T>)
    requires |items| <= |slots| && slots != []
    ensures |r| == |slots|
  {
    var at := Slot(from, |slots|);
    var first := if |items| <= |slots| - at then |items| else |slots| - at;
    Overwritten(Overwritten(slots, at, items[..first]), 0, items[first..])
  }

  /** They put item k where position `from + k` lives, and touch nothing else. */
  lemma StoredAt<T>(slots: seq<T>, from: nat, items: seq<T>, k: nat)
    requires |items| <= |slots| && k < |slots|
    ensures Stored(slots, from, items)[Slot(from + k, |slots|)]
            == if k < |items| then items[k] else slots[Slot(from + k, |slots|)]
  {
    SlotAfter(from, k, |slots|);
  }

  lemma Wraps(i: nat, capacity: nat)
    requires capacity > 0
    ensures Slot(i + capacity, capacity) == Slot(i, capacity)
  {
    var q := i / capacity;
    assert i + capacity == (q + 1) * capacity + i % capacity;
    RemainderIs(i + capacity, q + 1, i % capacity, capacity);
  }

  /** Storing right behind a stretch extends it. */
  lemma StoredExtends<T>(slots: seq<T>, from: nat, n: nat, items: seq<T>)
    requires slots != [] && n + |items| <= |slots|
    ensures Stretch(Stored(slots, from + n, items), from, n + |items|) == Stretch(slots, from, n) + items
  {
    hide Slot, Stored;
    var after := Stored(slots, from + n, items);
    var longer := Stretch(after, from, n + |items|);
    forall k | 0 <= k < n + |items|
      ensures longer[k] == (Stretch(slots, from, n) + items)[k]
    {
      if k < n {
        Wraps(from + k, |slots|);
        StoredAt(slots, from + n, items, k + |slots| - n);
        assert from + n + (k + |slots| - n) == from + k + |slots|;
      } else {
        StoredAt(slots, from + n, items, k - n);
        assert from + n + (k - n) == from + k;
      }
    }
  }

  lemma StretchSplits<T>(slots: seq<T>, from: nat, n: nat, m: nat)
    requires m <= n && (n == 0 || slots != [])
    ensures Stretch(slots, from, n) == Stretch(slots, from, m) + Stretch(slots, from + m, n - m)
  {
    hide Slot;
    var whole := Stretch(slots, from, n);
    var rest := Stretch(slots, from + m, n - m);
    forall k | 0 <= k < n - m
      ensures rest[k] == whole[m + k]
    {
      assert from + m + k == from + (m + k);
    }
  }
}
