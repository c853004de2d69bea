/**
 `Scrambler`: the sequence of an 8-bit feedback shift register, added to the bits of a packet so that it has
 no long runs.
 */
module Scrambler {
  /** One step of the 8-bit shift register. */
  predicate Feedback(lfsr: bv8) {
    ((lfsr >> 7) ^ (lfsr >> 3) ^ (lfsr >> 2) ^ (lfsr >> 1)) & 1 == 1
  }

  function Shifted(lfsr: bv8): bv8 {
    (lfsr << 1) | if Feedback(lfsr) then 1 else 0
  }

  function Keystream(lfsr: bv8, n: nat): (r: seq<bool>)
    ensures |r| == n
    decreases n
  {
    if n == 0 then [] else [Feedback(lfsr)] + Keystream(Shifted(lfsr), n - 1)
  }

  method BuildKeystream(maxBits: nat, init: bv8) returns (r: seq<bool>)
    ensures r == Keystream(init, maxBits)
  {
    hide Feedback, Shifted;
    var lfsr := init;
    r := [];
    for i := 0 to maxBits
      invariant Keystream(init, maxBits) == r + Keystream(lfsr, maxBits - i)
    {
      var bit := Feedback(lfsr);
      lfsr := Shifted(lfsr);
      r := r + [bit];
    }
  }

  /** Bits beyond the keystream stay as they are. */
  function Scrambled(bits: seq<bool>, key: seq<bool>): (r: seq<bool>)
    ensures |r| == |bits|
  {
    seq(|bits|, i requires 0 <= i < |bits| => if i < |key| then bits[i] != key[i] else bits[i])
  }

  method ScrambleInPlace(bits: array<bool>, key: seq<bool>)
    modifies bits
    ensures bits[..] == Scrambled(old(bits[..]), key)
    ensures forall k | 0 <= k < bits.Length :: bits[k] != old(bits[k]) <==> k < |key| && key[k]
  {
    var m := if bits.Length < |key| then bits.Length else |key|;
    for i := 0 to m
      invariant forall k | 0 <= k < bits.Length ::
                  bits[k] == if k < i then Scrambled(old(bits[..]), key)[k] else old(bits[k])
    {
      bits[i] := bits[i] != key[i];
    }
  }

  lemma ScrambleTwice(bits: seq<bool>, key: seq<bool>)
    ensures Scrambled(Scrambled(bits, key), key) == bits
  {
  }

  // ---------------------------------------------------------------------------------------------
  // The sequence.

  /** The register after i steps. */
  function StateAt(init: bv8, i: nat): bv8 {
    if i == 0 then init else Shifted(StateAt(init, i - 1))
  }

  lemma {:induction false} StateShifts(init: bv8, i: nat)
    ensures StateAt(Shifted(init), i) == StateAt(init, i + 1)
  {
    hide Shifted;
    if i > 0 {
      StateShifts(init, i - 1);
    }
  }

  lemma {:induction false} KeystreamAt(init: bv8, n: nat, i: nat)
    requires i < n
    ensures Keystream(init, n)[i] == Feedback(StateAt(init, i))
    decreases n
  {
    hide Feedback, Shifted;
    if i > 0 {
      KeystreamAt(Shifted(init), n - 1, i - 1);
      StateShifts(init, i - 1);
    }
  }

  predicate Has(lfsr: bv8, place: bv8) {
    lfsr & place != 0
  }

  /** The places of the register, newest bit first. */
  function Places(lfsr: bv8): (r: seq<bool>)
    ensures |r| == 8
  {
    [Has(lfsr, 0x01), Has(lfsr, 0x02), Has(lfsr, 0x04), Has(lfsr, 0x08),
     Has(lfsr, 0x10), Has(lfsr, 0x20), Has(lfsr, 0x40), Has(lfsr, 0x80)]
  }

  /** `next` has the bit in its first place and the places of the register moved up. */
  ghost predicate Moved(lfsr: bv8, bit: bool, next: bv8) {
    && (Has(next, 0x01) <==> bit) && (Has(next, 0x02) <==> Has(lfsr, 0x01))
    && (Has(next, 0x04) <==> Has(lfsr, 0x02)) && (Has(next, 0x08) <==> Has(lfsr, 0x04))
    && (Has(next, 0x10) <==> Has(lfsr, 0x08)) && (Has(next, 0x20) <==> Has(lfsr, 0x10))
    && (Has(next, 0x40) <==> Has(lfsr, 0x20)) && (Has(next, 0x80) <==> Has(lfsr, 0x40))
  }

  lemma MovesUp(lfsr: bv8, bit: bv8, next: bv8)
    requires bit <= 1 && next == (lfsr << 1) | bit
    ensures Moved(lfsr, bit == 1, next)
  {
  }

  lemma ShiftedMoves(lfsr: bv8)
    ensures Moved(lfsr, Feedback(lfsr), Shifted(lfsr))
  {
    hide Feedback, Moved;
    if Feedback(lfsr) {
      MovesUp(lfsr, 1, Shifted(lfsr));
    } else {
      MovesUp(lfsr, 0, Shifted(lfsr));
    }
  }

  lemma MovedPlaces(lfsr: bv8, bit: bool, next: bv8)
    requires Moved(lfsr, bit, next)
    ensures Places(next) == [bit] + Places(lfsr)[..7]
  {
    hide Has;
  }

  lemma PlacesShift(lfsr: bv8)
    ensures Places(Shifted(lfsr)) == [Feedback(lfsr)] + Places(lfsr)[..7]
  {
    hide Feedback, Shifted, Places, Moved;
    ShiftedMoves(lfsr);
    MovedPlaces(lfsr, Feedback(lfsr), Shifted(lfsr));
  }

  lemma FeedbackPlaces(lfsr: bv8)
    ensures Feedback(lfsr) <==> (Has(lfsr, 0x80) != Has(lfsr, 0x08)) != (Has(lfsr, 0x04) != Has(lfsr, 0x02))
  {
  }

  lemma FeedbackIs(lfsr: bv8)
    ensures Feedback(lfsr) <==> ((Places(lfsr)[7] != Places(lfsr)[3]) != (Places(lfsr)[2] != Places(lfsr)[1]))
  {
    hide Feedback, Has;
    FeedbackPlaces(lfsr);
  }

  lemma ZeroPlaces(lfsr: bv8)
    ensures lfsr == 0 <==>
            && !Has(lfsr, 0x01) && !Has(lfsr, 0x02) && !Has(lfsr, 0x04) && !Has(lfsr, 0x08)
            && !Has(lfsr, 0x10) && !Has(lfsr, 0x20) && !Has(lfsr, 0x40) && !Has(lfsr, 0x80)
  {
  }

  lemma EmptyIsZero(lfsr: bv8)
    ensures (forall k | 0 <= k < 8 :: !Places(lfsr)[k]) <==> lfsr == 0
  {
    hide Has;
    ZeroPlaces(lfsr);
    var p := Places(lfsr);
    assert !p[0] && !p[1] && !p[2] && !p[3] && !p[4] && !p[5] && !p[6] && !p[7] <==> lfsr == 0;
  }

  /** The register holds the last eight bits it gave out. */
  lemma {:induction false} PlacesAreOutput(init: bv8, i: nat, k: nat)
    requires k < 8 && k < i
    ensures Places(StateAt(init, i))[k] == Feedback(StateAt(init, i - 1 - k))
  {
    hide Feedback, Shifted, Places;
    PlacesShift(StateAt(init, i - 1));
    if k > 0 {
      PlacesAreOutput(init, i - 1, k - 1);
    }
  }

  /** From the ninth bit on, each bit is the sum of those 2, 3, 4 and 8 places before it. */
  lemma KeystreamRecurs(init: bv8, n: nat, i: nat)
    requires 8 <= i < n
    ensures var key := Keystream(init, n);
            key[i] <==> ((key[i - 8] != key[i - 4]) != (key[i - 3] != key[i - 2]))
  {
    hide Feedback, Shifted, Places, StateAt;
    FeedbackIs(StateAt(init, i));
    PlacesAreOutput(init, i, 7);
    PlacesAreOutput(init, i, 3);
    PlacesAreOutput(init, i, 2);
    PlacesAreOutput(init, i, 1);
    KeystreamAt(init, n, i);
    KeystreamAt(init, n, i - 8);
    KeystreamAt(init, n, i - 4);
    KeystreamAt(init, n, i - 3);
    KeystreamAt(init, n, i - 2);
  }

  lemma ShiftedNonzero(lfsr: bv8)
    ensures Shifted(lfsr) == 0 <==> lfsr == 0
  {
  }

  lemma {:induction false} StateNonzero(init: bv8, i: nat)
    ensures StateAt(init, i) == 0 <==> init == 0
  {
    hide Shifted;
    if i > 0 {
      ShiftedNonzero(StateAt(init, i - 1));
      StateNonzero(init, i - 1);
    }
  }

  /** Eight bits of the sequence are the register after them. */
  lemma WindowIsState(init: bv8, n: nat, i: nat, j: nat)
    requires i + 8 <= n && i <= j < i + 8
    ensures Keystream(init, n)[j] == Places(StateAt(init, i + 8))[i + 7 - j]
  {
    hide Feedback, Shifted, Places, StateAt;
    PlacesAreOutput(init, i + 8, i + 7 - j);
    KeystreamAt(init, n, j);
  }

  /** Exactly the seeds other than zero give a one among any eight consecutive bits. */
  lemma NoLongZeros(init: bv8, n: nat, i: nat)
    requires i + 8 <= n
    ensures (exists j :: i <= j < i + 8 && Keystream(init, n)[j]) <==> init != 0
  {
    hide Feedback, Shifted, Places, StateAt, Keystream;
    var window := Places(StateAt(init, i + 8));
    EmptyIsZero(StateAt(init, i + 8));
    StateNonzero(init, i + 8);
    forall j | i <= j < i + 8
      ensures Keystream(init, n)[j] == window[i + 7 - j]
    {
      WindowIsState(init, n, i, j);
    }
    if init != 0 {
      var k :| 0 <= k < 8 && window[k];
      assert Keystream(init, n)[i + 7 - k];
    }
  }

  /** Whatever the seed, there is a zero among any nine consecutive bits. */
  lemma NoLongOnes(init: bv8, n: nat, i: nat)
    requires i + 9 <= n
    ensures exists j :: i <= j < i + 9 && !Keystream(init, n)[j]
  {
    hide Keystream;
    KeystreamRecurs(init, n, i + 8);
    if forall j | i <= j < i + 8 :: Keystream(init, n)[j] {
      assert !Keystream(init, n)[i + 8];
    }
  }
}
