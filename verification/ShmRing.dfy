/**
 `ShmRing`: the sample ring with its split copies and its absolute timeline. The class is the ring as one
 side sees it when the other stands still; `SampleStream` has the two sides interleaved.
 */
module ShmRing {
  import opened Integers
  import opened RingIndex

  const I64_MAX: int := 0x7FFF_FFFF_FFFF_FFFF
  const I64_MIN: int := -0x8000_0000_0000_0000

  type i64 = x: int | -0x8000_0000_0000_0000 <= x <= 0x7FFF_FFFF_FFFF_FFFF

  // ---------------------------------------------------------------------------------------------
  // The timeline.

  /** `set_timeline_origin`: the first value wins; the new origin, and whether the call succeeded. */
  function SetOrigin(origin: i64, wanted: i64): (i64, bool) {
    if wanted == I64_MIN then (origin, false)
    else if origin == I64_MIN then (wanted, true)
    else (origin, origin == wanted)
  }

  /** `absolute_consumed` and `absolute_produced` at ring position `pos`. */
  function Absolute(origin: i64, pos: nat): i64 {
    if origin == I64_MIN then I64_MIN
    else if pos > I64_MAX then I64_MAX
    else if origin > I64_MAX - pos then I64_MAX
    else origin + pos
  }

  /**
   The absolute index is origin + position exactly as long as neither the position nor the sum leaves the
   64-bit range. With a negative origin the position saturates first: the sum could still be represented.
   Without an origin there is no absolute index.
   */
  lemma AbsoluteIsExact(origin: i64, pos: nat)
    ensures origin == I64_MIN ==> Absolute(origin, pos) == I64_MIN
    ensures origin != I64_MIN ==> (Absolute(origin, pos) == origin + pos <==>
              (pos <= I64_MAX && origin + pos <= I64_MAX) || origin + pos == I64_MAX)
    ensures origin != I64_MIN && Absolute(origin, pos) != origin + pos ==> Absolute(origin, pos) == I64_MAX
  {
  }

  lemma SaturatesEarly()
    ensures Absolute(-10, I64_MAX + 1) == I64_MAX && -10 + (I64_MAX + 1) < I64_MAX
  {
  }

  // ---------------------------------------------------------------------------------------------
  // The ring.

  /** `memcpy` into an array. */
  method Copy<T>(dst: array<T>, at: nat, src: seq<T>)
    requires at + |src| <= dst.Length
    modifies dst
    ensures dst[..] == Overwritten(old(dst[..]), at, src)
  {
    for k := 0 to |src|
      invariant dst[..] == Overwritten(old(dst[..]), at, src[..k])
    {
      dst[at + k] := src[k];
      assert src[..k + 1] == src[..k] + [src[k]];
    }
    assert src[..|src|] == src;
  }

  /** The two copies of a chunk into the ring. */
  method StoreItems<T>(data: array<T>, from: nat, items: seq<T>)
    requires |items| <= data.Length && data.Length > 0
    modifies data
    ensures data[..] == Stored(old(data[..]), from, items)
  {
    hide Slot, Overwritten;
    var at := Slot(from, data.Length);
    var first := Min(|items|, data.Length - at);
    Copy(data, at, items[..first]);
    Copy(data, 0, items[first..]);
  }

  /** The two copies of a chunk out of the ring. */
  method FetchItems<T>(data: array<T>, from: nat, n: nat) returns (out: seq<T>)
    requires n <= data.Length && data.Length > 0
    ensures out == Fetched(data[..], from, n)
  {
    hide Slot;
    var at := Slot(from, data.Length);
    var first := Min(n, data.Length - at);
    out := data[at..at + first] + data[..n - first];
  }

  lemma FetchTakes<T>(slots: seq<T>, from: nat, n: nat, m: nat)
    requires m <= n <= |slots| && slots != []
    ensures Fetched(slots, from, m) == Stretch(slots, from, n)[..m]
    ensures Stretch(slots, from + m, n - m) == Stretch(slots, from, n)[m..]
  {
    FetchedIsStretch(slots, from, m);
    StretchSplits(slots, from, n, m);
    hide Slot, Stretch, Fetched;
  }

  class ShmRing<T> {
    const data: array<T>
    var writePos: nat
    var readPos: nat
    var origin: i64

    ghost predicate Valid()
      reads this, data
    {
      readPos <= writePos <= readPos + data.Length
    }

    /** The samples written and not yet read, oldest first. */
    ghost function Contents(): (r: seq<T>)
      requires Valid()
      reads this, data
      ensures |r| == writePos - readPos
    {
      Stretch(data[..], readPos, writePos - readPos)
    }

    /** `create`. */
    constructor (capacity: nat, zero: T)
      ensures Valid() && fresh(data) && data.Length == capacity
      ensures writePos == 0 && readPos == 0 && origin == I64_MIN
    {
      data := new T[capacity](_ => zero);
      writePos, readPos, origin := 0, 0, I64_MIN;
    }

    /** A chunk is copied and published. */
    method StoreChunk(chunk: seq<T>)
      requires Valid() && data.Length > 0 && writePos - readPos + |chunk| <= data.Length
      modifies this`writePos, data
      ensures Valid() && Contents() == old(Contents()) + chunk && writePos == old(writePos) + |chunk|
    {
      hide Slot, Stretch, Stored;
      ghost var before := data[..];
      StoreItems(data, writePos, chunk);
      StoredExtends(before, readPos, writePos - readPos, chunk);
      writePos := writePos + |chunk|;
    }

    /** A chunk is copied out and released. */
    method FetchChunk(n: nat) returns (out: seq<T>)
      requires Valid() && data.Length > 0 && n <= writePos - readPos
      modifies this`readPos
      ensures Valid() && out == old(Contents())[..n] && Contents() == old(Contents())[n..]
      ensures readPos == old(readPos) + n
    {
      hide Slot, Stretch, Fetched;
      FetchTakes(data[..], readPos, writePos - readPos, n);
      out := FetchItems(data, readPos, n);
      readPos := readPos + n;
    }

    /** `push_block`, giving up when the ring is full. */
    method PushBlock(src: seq<T>) returns (written: nat)
      requires Valid()
      modifies this`writePos, data
      ensures Valid() && written == Min(|src|, data.Length - |old(Contents())|)
      ensures Contents() == old(Contents()) + src[..written] && writePos == old(writePos) + written
    {
      written := 0;
      while written < |src|
        invariant Valid() && written <= |src| && written <= data.Length - |old(Contents())|
        invariant Contents() == old(Contents()) + src[..written] && writePos == old(writePos) + written
      {
        var free := data.Length - (writePos - readPos);
        if free == 0 {
          break;
        }
        var chunk := Min(free, |src| - written);
        assert src[..written + chunk] == src[..written] + src[written..written + chunk];
        StoreChunk(src[written..written + chunk]);
        written := written + chunk;
      }
    }

    /** `pop_block`, giving up when the ring is empty; `pop_upto` is its first round. */
    method PopBlock(count: nat) returns (out: seq<T>)
      requires Valid()
      modifies this`readPos
      ensures Valid() && out == old(Contents())[..Min(count, |old(Contents())|)]
      ensures Contents() == old(Contents())[|out|..] && readPos == old(readPos) + |out|
    {
      out := [];
      while |out| < count
        invariant Valid() && |out| <= count && |out| <= |old(Contents())|
        invariant out == old(Contents())[..|out|]
        invariant Contents() == old(Contents())[|out|..] && readPos == old(readPos) + |out|
        decreases count - |out|
      {
        var avail := writePos - readPos;
        if avail == 0 {
          break;
        }
        var chunk := FetchChunk(Min(avail, count - |out|));
        out := out + chunk;
      }
    }

    /** `skip_block`, giving up when the ring is empty. */
    method SkipBlock(count: nat) returns (skipped: nat)
      requires Valid()
      modifies this`readPos
      ensures Valid() && skipped == Min(count, |old(Contents())|)
      ensures Contents() == old(Contents())[skipped..] && readPos == old(readPos) + skipped
    {
      skipped := 0;
      while skipped < count
        invariant Valid() && skipped <= count && skipped <= |old(Contents())|
        invariant Contents() == old(Contents())[skipped..] && readPos == old(readPos) + skipped
      {
        var avail := writePos - readPos;
        if avail == 0 {
          break;
        }
        var chunk := Min(avail, count - skipped);
        StretchSplits(data[..], readPos, writePos - readPos, chunk);
        readPos := readPos + chunk;
        skipped := skipped + chunk;
      }
    }

    method SetTimelineOrigin(wanted: i64) returns (ok: bool)
      modifies this`origin
      ensures (origin, ok) == SetOrigin(old(origin), wanted)
      ensures old(origin) != I64_MIN ==> origin == old(origin)
      ensures old(origin) == I64_MIN ==> origin == wanted
      ensures ok <==> wanted != I64_MIN && origin == wanted
    {
      if wanted == I64_MIN {
        return false;
      }
      if origin == I64_MIN {
        origin := wanted;
        return true;
      }
      return origin == wanted;
    }
  }
}
