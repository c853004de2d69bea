/**
 `crc16_ccitt` as a register fed bit by bit, and why it sees short bursts: the step of the register is
 linear and loses nothing, and within 16 steps only its own content can bring a register to zero.
 */
module Crc16 {
  import opened Bytes

  /** The 16-bit register; wrapped, so that proofs use its laws and not its bits. */
  datatype Register = Register(places: bv16)

  const CLEAR := Register(0)
  const FULL := Register(0xFFFF)
  const POLYNOMIAL := Register(0x1021)

  /** Exclusive or. */
  function Plus(a: Register, b: Register): Register {
    Register(a.places ^ b.places)
  }

  predicate HighestSet(places: bv16) {
    places & 0x8000 != 0
  }

  predicate Highest(a: Register) {
    HighestSet(a.places)
  }

  function Doubled(a: Register): Register {
    Register(a.places << 1)
  }

  /** One turn of the inner loop. */
  function Step(a: Register): Register {
    Reduced(Doubled(a), Highest(a))
  }

  function Reduced(a: Register, overflow: bool): Register {
    if overflow then Plus(a, POLYNOMIAL) else a
  }

  function Steps(a: Register, n: nat): Register {
    if n == 0 then a else Step(Steps(a, n - 1))
  }

  /** A byte in the high half. */
  function OnTop(b: bv8): Register {
    Register((b as bv16) << 8)
  }

  function Crc(data: seq<bv8>): Register {
    if data == [] then FULL
    else Steps(Plus(Crc(data[..|data| - 1]), OnTop(data[|data| - 1])), 8)
  }

  method Crc16Ccitt(data: seq<bv8>) returns (crc: Register)
    ensures crc == Crc(data)
  {
    hide Plus, Highest, Doubled, OnTop;
    crc := FULL;
    for i := 0 to |data|
      invariant crc == Crc(data[..i])
    {
      assert data[..i + 1][..i] == data[..i];
      crc := Plus(crc, OnTop(data[i]));
      ghost var start := crc;
      for bit := 0 to 8
        invariant crc == Steps(start, bit)
      {
        crc := if Highest(crc) then Plus(Doubled(crc), POLYNOMIAL) else Doubled(crc);
      }
    }
    assert data[..|data|] == data;
  }

  // ---------------------------------------------------------------------------------------------
  // The laws of the register.

  lemma PlusCommutes(a: Register, b: Register)
    ensures Plus(a, b) == Plus(b, a)
  {
  }

  lemma PlusAssociates(a: Register, b: Register, c: Register)
    ensures Plus(Plus(a, b), c) == Plus(a, Plus(b, c))
  {
  }

  lemma PlusItself(a: Register)
    ensures Plus(a, CLEAR) == a && Plus(a, a) == CLEAR
  {
  }

  lemma PlusLaws(a: Register, b: Register, c: Register)
    ensures Plus(a, b) == Plus(b, a) && Plus(Plus(a, b), c) == Plus(a, Plus(b, c))
    ensures Plus(a, CLEAR) == a && Plus(a, a) == CLEAR
  {
    hide Plus;
    PlusCommutes(a, b);
    PlusAssociates(a, b, c);
    PlusItself(a);
  }

  lemma PlusRegroups(a: Register, s: Register, b: Register, t: Register)
    ensures Plus(Plus(a, s), Plus(b, t)) == Plus(Plus(a, b), Plus(s, t))
  {
    hide Plus;
    PlusLaws(a, s, Plus(b, t));
    PlusLaws(s, b, t);
    PlusLaws(b, s, t);
    PlusLaws(a, b, Plus(s, t));
  }

  lemma PlusCancels(a: Register, b: Register, s: Register)
    requires Plus(a, s) == Plus(b, s)
    ensures a == b
  {
    hide Plus;
    PlusLaws(a, s, s);
    PlusLaws(b, s, s);
    PlusLaws(s, s, s);
  }

  lemma NoDifference(a: Register, b: Register)
    ensures Plus(a, b) == CLEAR <==> a == b
  {
    hide Plus;
    PlusLaws(a, b, b);
    PlusLaws(b, b, b);
    PlusLaws(CLEAR, b, b);
  }

  lemma HighestPlaces(x: bv16, y: bv16, z: bv16)
    requires z == x ^ y
    ensures HighestSet(z) <==> HighestSet(x) != HighestSet(y)
  {
  }

  lemma HighestDiffers(a: Register, b: Register)
    ensures Highest(Plus(a, b)) <==> Highest(a) != Highest(b)
  {
    hide HighestSet;
    HighestPlaces(a.places, b.places, Plus(a, b).places);
  }

  lemma DoubledIsLinear(a: Register, b: Register)
    ensures Doubled(Plus(a, b)) == Plus(Doubled(a), Doubled(b))
  {
  }

  lemma ReducedIsLinear(a: Register, b: Register, p: bool, q: bool)
    ensures Plus(Reduced(a, p), Reduced(b, q)) == Reduced(Plus(a, b), p != q)
  {
    hide Plus;
    PlusRegroups(a, POLYNOMIAL, b, POLYNOMIAL);
    PlusLaws(POLYNOMIAL, POLYNOMIAL, POLYNOMIAL);
    PlusLaws(Plus(a, b), CLEAR, CLEAR);
    PlusLaws(a, b, POLYNOMIAL);
    PlusLaws(a, POLYNOMIAL, b);
    PlusLaws(POLYNOMIAL, b, a);
  }

  lemma StepIsLinear(a: Register, b: Register)
    ensures Step(Plus(a, b)) == Plus(Step(a), Step(b))
  {
    hide Plus, Doubled, Highest, Reduced;
    HighestDiffers(a, b);
    DoubledIsLinear(a, b);
    ReducedIsLinear(Doubled(a), Doubled(b), Highest(a), Highest(b));
  }

  lemma StepHasNoKernel(a: Register)
    requires Step(a) == CLEAR
    ensures a == CLEAR
  {
  }

  lemma StepIsInjective(a: Register, b: Register)
    requires Step(a) == Step(b)
    ensures a == b
  {
    hide Step, Plus;
    StepIsLinear(a, b);
    NoDifference(Step(a), Step(b));
    NoDifference(a, b);
    StepHasNoKernel(Plus(a, b));
  }

  // ---------------------------------------------------------------------------------------------
  // Feeding single bits.

  /** A bit in the highest place. */
  function Top(bit: bool): Register {
    if bit then Register(0x8000) else CLEAR
  }

  function Feed(a: Register, bit: bool): Register {
    Step(Plus(a, Top(bit)))
  }

  function FeedAll(a: Register, bits: seq<bool>): Register
    decreases |bits|
  {
    if bits == [] then a else FeedAll(Feed(a, bits[0]), bits[1..])
  }

  lemma TopsDiffer(x: bool, y: bool)
    ensures Plus(Top(x), Top(y)) == Top(x != y)
  {
    hide Plus;
    PlusLaws(Register(0x8000), CLEAR, CLEAR);
    PlusLaws(CLEAR, CLEAR, CLEAR);
  }

  /** The register moved down by a place, with a bit in the highest. */
  function Behind(bit: bool, a: Register): Register {
    Register((if bit then 0x8000 else 0) | (a.places >> 1))
  }

  predicate LastClear(a: Register) {
    a.places & 1 == 0
  }

  lemma StepUndone(a: Register)
    requires LastClear(Step(a))
    ensures a == Behind(false, Step(a))
  {
  }

  lemma BehindBit(a: Register, bit: bool)
    ensures Plus(Behind(false, a), Top(bit)) == Behind(bit, a)
  {
  }

  /** One step back from a register whose last place is clear. */
  lemma StepBack(a: Register, bit: bool)
    requires LastClear(Feed(a, bit))
    ensures a == Behind(bit, Feed(a, bit))
  {
    hide Step, Plus, Behind, LastClear, Top;
    StepUndone(Plus(a, Top(bit)));
    BehindBit(Feed(a, bit), bit);
    PlusLaws(a, Top(bit), Top(bit));
    PlusLaws(Top(bit), Top(bit), Top(bit));
    PlusLaws(a, CLEAR, CLEAR);
  }

  // ---------------------------------------------------------------------------------------------
  // Sequences of bits.

  lemma {:induction false} FeedJoins(a: Register, x: seq<bool>, y: seq<bool>)
    ensures FeedAll(a, x + y) == FeedAll(FeedAll(a, x), y)
    decreases |x|
  {
    hide Feed;
    if x == [] {
      assert x + y == y;
    } else {
      FeedJoins(Feed(a, x[0]), x[1..], y);
      assert (x + y)[1..] == x[1..] + y;
    }
  }

  /** The same bits keep different registers different. */
  lemma {:induction false} FeedIsInjective(a: Register, b: Register, bits: seq<bool>)
    requires FeedAll(a, bits) == FeedAll(b, bits)
    ensures a == b
    decreases |bits|
  {
    hide Step, Plus, Top;
    if bits != [] {
      FeedIsInjective(Feed(a, bits[0]), Feed(b, bits[0]), bits[1..]);
      StepIsInjective(Plus(a, Top(bits[0])), Plus(b, Top(bits[0])));
      PlusCancels(a, b, Top(bits[0]));
    }
  }

  /** Where the two differ. */
  function Changes(x: seq<bool>, y: seq<bool>): (r: seq<bool>)
    requires |x| == |y|
    ensures |r| == |x|
  {
    seq(|x|, i requires 0 <= i < |x| => x[i] != y[i])
  }

  lemma FeedChanges(a: Register, b: Register, x: bool, y: bool)
    ensures Feed(Plus(a, b), x != y) == Plus(Feed(a, x), Feed(b, y))
  {
    hide Step, Plus, Top;
    StepIsLinear(Plus(a, Top(x)), Plus(b, Top(y)));
    PlusRegroups(a, Top(x), b, Top(y));
    TopsDiffer(x, y);
  }

  lemma {:induction false} FeedAllChanges(a: Register, b: Register, x: seq<bool>, y: seq<bool>)
    requires |x| == |y|
    ensures FeedAll(Plus(a, b), Changes(x, y)) == Plus(FeedAll(a, x), FeedAll(b, y))
    decreases |x|
  {
    hide Feed, Plus;
    if x != [] {
      FeedChanges(a, b, x[0], y[0]);
      FeedAllChanges(Feed(a, x[0]), Feed(b, y[0]), x[1..], y[1..]);
      assert Changes(x, y)[1..] == Changes(x[1..], y[1..]);
    }
  }

  // ---------------------------------------------------------------------------------------------
  // Bursts.

  /** The bits packed from the highest place down. */
  function Packed(bits: seq<bool>): Register {
    if bits == [] then CLEAR else Behind(bits[0], Packed(bits[1..]))
  }

  /** The 16 - n lowest places. */
  function Mask(n: nat): bv16 {
    if n == 0 then 0xFFFF else Mask(n - 1) >> 1
  }

  /** Only the n highest places are in use. */
  predicate Short(a: Register, n: nat) {
    a.places & Mask(n) == 0
  }

  lemma ClearIsShort()
    ensures Short(CLEAR, 0)
  {
  }

  lemma ShortMoves(a: Register, bit: bool, n: nat)
    requires Short(a, n)
    ensures Short(Behind(bit, a), n + 1)
  {
    MaskMoves(a.places, Mask(n), if bit then 0x8000 else 0);
  }

  lemma MaskMoves(p: bv16, mask: bv16, top: bv16)
    requires p & mask == 0 && (top == 0 || top == 0x8000)
    ensures (top | (p >> 1)) & (mask >> 1) == 0
  {
  }

  lemma {:induction false} PackedIsShort(bits: seq<bool>)
    ensures Short(Packed(bits), |bits|)
  {
    hide Short, Behind;
    if bits == [] {
      ClearIsShort();
    } else {
      PackedIsShort(bits[1..]);
      ShortMoves(Packed(bits[1..]), bits[0], |bits| - 1);
    }
  }

  lemma MaskHasLast(n: nat)
    requires n <= 15
    ensures Mask(n) & 1 == 1
  {
    assert Mask(4) == 0x0FFF;
    assert Mask(8) == 0x00FF;
    assert Mask(12) == 0x000F;
    assert Mask(15) == 0x0001;
  }

  lemma LastPlace(p: bv16, mask: bv16)
    requires p & mask == 0 && mask & 1 == 1
    ensures p & 1 == 0
  {
  }

  lemma ShortEndsClear(a: Register, n: nat)
    requires n <= 15 && Short(a, n)
    ensures LastClear(a)
  {
    MaskHasLast(n);
    LastPlace(a.places, Mask(n));
  }

  /** Only its own content brings a register to zero within 16 steps. */
  lemma {:induction false} ClearedByItself(a: Register, bits: seq<bool>)
    requires |bits| <= 16 && FeedAll(a, bits) == CLEAR
    ensures a == Packed(bits)
    decreases |bits|
  {
    hide Feed, Behind, Short, LastClear;
    if bits != [] {
      ClearedByItself(Feed(a, bits[0]), bits[1..]);
      PackedIsShort(bits[1..]);
      ShortEndsClear(Packed(bits[1..]), |bits| - 1);
      StepBack(a, bits[0]);
    }
  }

  lemma NothingBehind(a: Register, bit: bool)
    requires LastClear(a) && Behind(bit, a) == CLEAR
    ensures !bit && a == CLEAR
  {
  }

  lemma {:induction false} PackedClear(bits: seq<bool>)
    requires |bits| <= 16 && Packed(bits) == CLEAR
    ensures forall i | 0 <= i < |bits| :: !bits[i]
  {
    hide Behind, Short, LastClear;
    if bits != [] {
      PackedIsShort(bits[1..]);
      ShortEndsClear(Packed(bits[1..]), |bits| - 1);
      NothingBehind(Packed(bits[1..]), bits[0]);
      PackedClear(bits[1..]);
      assert bits == [bits[0]] + bits[1..];
    }
  }

  /** From the same register, up to 16 bits are determined by the register they lead to. */
  lemma BurstIsSeen(a: Register, x: seq<bool>, y: seq<bool>)
    requires |x| == |y| <= 16 && FeedAll(a, x) == FeedAll(a, y)
    ensures x == y
  {
    FeedAllChanges(a, a, x, y);
    NoDifference(a, a);
    NoDifference(FeedAll(a, x), FeedAll(a, y));
    hide FeedAll, Packed, Plus;
    ClearedByItself(CLEAR, Changes(x, y));
    PackedClear(Changes(x, y));
    forall i | 0 <= i < |x|
      ensures x[i] == y[i]
    {
      assert !Changes(x, y)[i];
    }
  }

  /**
   Two sequences that lead to the same register and agree outside 16 consecutive places are equal:
   no burst of errors that short goes unseen.
   */
  lemma BurstAnywhereIsSeen(a: Register, x: seq<bool>, y: seq<bool>, from: nat, to: nat)
    requires |x| == |y| && from <= to <= |x| && to - from <= 16
    requires x[..from] == y[..from] && x[to..] == y[to..]
    requires FeedAll(a, x) == FeedAll(a, y)
    ensures x == y
  {
    hide FeedAll;
    var start := FeedAll(a, x[..from]);
    Parts(a, x, from, to);
    Parts(a, y, from, to);
    FeedIsInjective(FeedAll(start, x[from..to]), FeedAll(start, y[from..to]), x[to..]);
    BurstIsSeen(start, x[from..to], y[from..to]);
    assert x == x[..from] + x[from..to] + x[to..];
    assert y == y[..from] + y[from..to] + y[to..];
  }

  lemma Parts(a: Register, x: seq<bool>, from: nat, to: nat)
    requires from <= to <= |x|
    ensures FeedAll(a, x) == FeedAll(FeedAll(FeedAll(a, x[..from]), x[from..to]), x[to..])
  {
    hide FeedAll;
    FeedJoins(a, x[..from], x[from..]);
    FeedJoins(FeedAll(a, x[..from]), x[from..to], x[to..]);
    assert x[..from] + x[from..] == x;
    assert x[from..to] + x[to..] == x[from..];
  }

  // ---------------------------------------------------------------------------------------------
  // Bytes.

  lemma OnTopSplits(b: bv8)
    ensures OnTop(b) == Plus(Top(b & 0x80 != 0), OnTop(b & 0x7F))
  {
  }

  lemma OnTopSteps(b: bv8)
    ensures Step(OnTop(b & 0x7F)) == OnTop(b << 1)
  {
  }

  lemma FeedTop(a: Register, b: bv8)
    ensures Step(Plus(a, OnTop(b))) == Plus(Feed(a, b & 0x80 != 0), OnTop(b << 1))
  {
    hide Step, Plus, OnTop, Top;
    OnTopSplits(b);
    OnTopSteps(b);
    PlusLaws(a, Top(b & 0x80 != 0), OnTop(b & 0x7F));
    StepIsLinear(Plus(a, Top(b & 0x80 != 0)), OnTop(b & 0x7F));
  }

  function Shifted(b: bv8, n: nat): bv8 {
    if n == 0 then b else Shifted(b, n - 1) << 1
  }

  /** Shifted up i places, the byte has its i-th bit on top; after eight places nothing is left. */
  lemma ShiftedOut(b: bv8, i: nat)
    requires i <= 8
    ensures i < 8 ==> (ByteBits(b)[i] <==> Shifted(b, i) & 0x80 != 0)
    ensures i == 8 ==> Shifted(b, i) == 0
  {
    assert Shifted(b, 1) == b << 1;
    assert Shifted(b, 2) == b << 2;
    assert Shifted(b, 3) == b << 3;
    assert Shifted(b, 4) == b << 4;
    assert Shifted(b, 5) == b << 5;
    assert Shifted(b, 6) == b << 6;
    assert Shifted(b, 7) == b << 7;
    hide Shifted;
  }

  lemma OneFed(a: Register, bit: bool)
    ensures FeedAll(a, [bit]) == Feed(a, bit)
  {
    hide Feed;
  }

  /** After n steps the n highest bits of the byte are in and the rest is still on top. */
  lemma {:induction false} ByteGoesIn(a: Register, b: bv8, n: nat)
    requires n <= 8
    ensures Steps(Plus(a, OnTop(b)), n) == Plus(FeedAll(a, ByteBits(b)[..n]), OnTop(Shifted(b, n)))
  {
    hide Step, Plus, OnTop, Feed;
    if n > 0 {
      ByteGoesIn(a, b, n - 1);
      var before := FeedAll(a, ByteBits(b)[..n - 1]);
      FeedTop(before, Shifted(b, n - 1));
      ShiftedOut(b, n - 1);
      FeedJoins(a, ByteBits(b)[..n - 1], [ByteBits(b)[n - 1]]);
      assert ByteBits(b)[..n] == ByteBits(b)[..n - 1] + [ByteBits(b)[n - 1]];
      OneFed(before, ByteBits(b)[n - 1]);
    }
  }

  lemma NothingOnTop()
    ensures OnTop(0) == CLEAR
  {
  }

  /** A byte processed at once is its eight bits fed one by one. */
  lemma ByteIsFed(a: Register, b: bv8)
    ensures Steps(Plus(a, OnTop(b)), 8) == FeedAll(a, ByteBits(b))
  {
    ByteGoesIn(a, b, 8);
    ShiftedOut(b, 8);
    NothingOnTop();
    assert ByteBits(b)[..8] == ByteBits(b);
    hide FeedAll, Steps, Shifted, ByteBits, Plus, OnTop;
    PlusLaws(FeedAll(a, ByteBits(b)), CLEAR, CLEAR);
  }

  function Concat(data: seq<bv8>): seq<bool> {
    if data == [] then [] else Concat(data[..|data| - 1]) + ByteBits(data[|data| - 1])
  }

  lemma NothingFed(a: Register)
    ensures FeedAll(a, []) == a
  {
  }

  /** The CRC is the register fed with all bits of the data. */
  lemma {:induction false} CrcIsFed(data: seq<bv8>)
    ensures Crc(data) == FeedAll(FULL, Concat(data))
  {
    hide FeedAll, ByteBits, Steps, OnTop, Plus;
    if data == [] {
      NothingFed(FULL);
    } else {
      var front, last := data[..|data| - 1], data[|data| - 1];
      CrcIsFed(front);
      ByteIsFed(Crc(front), last);
      FeedJoins(FULL, Concat(front), ByteBits(last));
    }
  }

  // ---------------------------------------------------------------------------------------------
  // Data followed by their CRC.

  function HighByte(a: Register): bv8 {
    (a.places >> 8) as bv8
  }

  function LowByte(a: Register): bv8 {
    (a.places & 0xFF) as bv8
  }

  /** A byte in the low half. */
  function Below(b: bv8): Register {
    Register(b as bv16)
  }

  lemma HighUnloads(a: Register)
    ensures Plus(a, OnTop(HighByte(a))) == Below(LowByte(a))
  {
  }

  /** Without overflow a step only doubles. */
  lemma StepLow(a: Register, mask: bv16)
    requires a.places & mask == 0 && mask & 0x8000 != 0
    ensures Step(a) == Doubled(a) && Doubled(a).places & (mask << 1) == 0
  {
  }

  lemma BelowIsLow(b: bv8)
    ensures Below(b).places & 0xFF00 == 0
  {
  }

  lemma BelowMovesUp(b: bv8)
    ensures Doubled(Doubled(Doubled(Doubled(Doubled(Doubled(Doubled(Doubled(Below(b))))))))) == OnTop(b)
  {
  }

  lemma BelowSteps(b: bv8)
    ensures Steps(Below(b), 8) == OnTop(b)
  {
    BelowIsLow(b);
    BelowMovesUp(b);
    hide Step, Doubled, Below, OnTop;
    var a1 := Doubled(Below(b)); var a2 := Doubled(a1); var a3 := Doubled(a2); var a4 := Doubled(a3);
    var a5 := Doubled(a4); var a6 := Doubled(a5); var a7 := Doubled(a6);
    StepLow(Below(b), 0xFF00);
    StepLow(a1, 0xFE00);
    StepLow(a2, 0xFC00);
    StepLow(a3, 0xF800);
    StepLow(a4, 0xF000);
    StepLow(a5, 0xE000);
    StepLow(a6, 0xC000);
    StepLow(a7, 0x8000);
    assert Steps(Below(b), 0) == Below(b);
    assert Steps(Below(b), 1) == a1;
    assert Steps(Below(b), 2) == a2;
    assert Steps(Below(b), 3) == a3;
    assert Steps(Below(b), 4) == a4;
    assert Steps(Below(b), 5) == a5;
    assert Steps(Below(b), 6) == a6;
    assert Steps(Below(b), 7) == a7;
  }

  /** A CRC fed to its own register, high byte first, leaves nothing. */
  lemma CrcClears(a: Register)
    ensures FeedAll(a, ByteBits(HighByte(a)) + ByteBits(LowByte(a))) == CLEAR
  {
    hide FeedAll, ByteBits, Steps, OnTop, Below, Plus, HighByte, LowByte;
    var high, low := HighByte(a), LowByte(a);
    FeedJoins(a, ByteBits(high), ByteBits(low));
    ByteIsFed(a, high);
    HighUnloads(a);
    BelowSteps(low);
    ByteIsFed(OnTop(low), low);
    NoDifference(OnTop(low), OnTop(low));
    ClearStays(8);
  }

  lemma {:induction false} ClearStays(n: nat)
    ensures Steps(CLEAR, n) == CLEAR
  {
    if n > 0 {
      ClearStays(n - 1);
    }
  }

  /** Data followed by their CRC bring the register to zero. */
  lemma CheckedIsClear(data: seq<bv8>)
    ensures FeedAll(FULL, Concat(data) + ByteBits(HighByte(Crc(data))) + ByteBits(LowByte(Crc(data)))) == CLEAR
  {
    hide FeedAll, ByteBits, HighByte, LowByte, Crc, Concat;
    var tail := ByteBits(HighByte(Crc(data))) + ByteBits(LowByte(Crc(data)));
    CrcIsFed(data);
    CrcClears(Crc(data));
    FeedJoins(FULL, Concat(data), tail);
    assert Concat(data) + tail
        == Concat(data) + ByteBits(HighByte(Crc(data))) + ByteBits(LowByte(Crc(data)));
  }

  // ---------------------------------------------------------------------------------------------
  // The usual check value.

  /** Eight steps, given what each of them leaves. */
  lemma EightSteps(a: bv16, b: bv16, c: bv16, d: bv16, e: bv16, f: bv16, g: bv16, h: bv16, i: bv16)
    requires Step(Register(a)) == Register(b) && Step(Register(b)) == Register(c)
    requires Step(Register(c)) == Register(d) && Step(Register(d)) == Register(e)
    requires Step(Register(e)) == Register(f) && Step(Register(f)) == Register(g)
    requires Step(Register(g)) == Register(h) && Step(Register(h)) == Register(i)
    ensures Steps(Register(a), 8) == Register(i)
  {
    hide Step;
    assert Steps(Register(a), 1) == Register(b);
    assert Steps(Register(a), 2) == Register(c);
    assert Steps(Register(a), 3) == Register(d);
    assert Steps(Register(a), 4) == Register(e);
    assert Steps(Register(a), 5) == Register(f);
    assert Steps(Register(a), 6) == Register(g);
    assert Steps(Register(a), 7) == Register(h);
  }

  lemma CrcOfNext(data: seq<bv8>, n: nat)
    requires n < |data|
    ensures Crc(data[..n + 1]) == Steps(Plus(Crc(data[..n]), OnTop(data[n])), 8)
  {
    assert data[..n + 1][..n] == data[..n];
    hide Steps, Plus, OnTop;
  }

  lemma Digit1()
    ensures Steps(Plus(Register(0xFFFF), OnTop(0x31)), 8) == Register(0xC782)
  {
    EightSteps(0xCEFF, 0x8DDF, 0x0B9F, 0x173E, 0x2E7C, 0x5CF8, 0xB9F0, 0x63C1, 0xC782);
  }

  lemma Digit2()
    ensures Steps(Plus(Register(0xC782), OnTop(0x32)), 8) == Register(0x3DBA)
  {
    EightSteps(0xF582, 0xFB25, 0xE66B, 0xDCF7, 0xA9CF, 0x43BF, 0x877E, 0x1EDD, 0x3DBA);
  }

  lemma Digit3()
    ensures Steps(Plus(Register(0x3DBA), OnTop(0x33)), 8) == Register(0x5BCE)
  {
    EightSteps(0x0EBA, 0x1D74, 0x3AE8, 0x75D0, 0xEBA0, 0xC761, 0x9EE3, 0x2DE7, 0x5BCE);
  }

  lemma Digit4()
    ensures Steps(Plus(Register(0x5BCE), OnTop(0x34)), 8) == Register(0x5349)
  {
    EightSteps(0x6FCE, 0xDF9C, 0xAF19, 0x4E13, 0x9C26, 0x286D, 0x50DA, 0xA1B4, 0x5349);
  }

  lemma Digit5()
    ensures Steps(Plus(Register(0x5349), OnTop(0x35)), 8) == Register(0x4560)
  {
    EightSteps(0x6649, 0xCC92, 0x8905, 0x022B, 0x0456, 0x08AC, 0x1158, 0x22B0, 0x4560);
  }

  lemma Digit6()
    ensures Steps(Plus(Register(0x4560), OnTop(0x36)), 8) == Register(0x2EF4)
  {
    EightSteps(0x7360, 0xE6C0, 0xDDA1, 0xAB63, 0x46E7, 0x8DCE, 0x0BBD, 0x177A, 0x2EF4);
  }

  lemma Digit7()
    ensures Steps(Plus(Register(0x2EF4), OnTop(0x37)), 8) == Register(0x7718)
  {
    EightSteps(0x19F4, 0x33E8, 0x67D0, 0xCFA0, 0x8F61, 0x0EE3, 0x1DC6, 0x3B8C, 0x7718);
  }

  lemma Digit8()
    ensures Steps(Plus(Register(0x7718), OnTop(0x38)), 8) == Register(0xA12B)
  {
    EightSteps(0x4F18, 0x9E30, 0x2C41, 0x5882, 0xB104, 0x7229, 0xE452, 0xD885, 0xA12B);
  }

  lemma Digit9()
    ensures Steps(Plus(Register(0xA12B), OnTop(0x39)), 8) == Register(0x29B1)
  {
    EightSteps(0x982B, 0x2077, 0x40EE, 0x81DC, 0x1399, 0x2732, 0x4E64, 0x9CC8, 0x29B1);
  }

  /** The bytes of "123456789" give 0x29B1. */
  lemma CheckValue()
    ensures Crc([0x31, 0x32, 0x33, 0x34, 0x35, 0x36, 0x37, 0x38, 0x39]) == Register(0x29B1)
  {
    hide Steps, Plus, OnTop;
    var digits: seq<bv8> := [0x31, 0x32, 0x33, 0x34, 0x35, 0x36, 0x37, 0x38, 0x39];
    Digit1();
    CrcOfNext(digits, 0);
    Digit2();
    CrcOfNext(digits, 1);
    Digit3();
    CrcOfNext(digits, 2);
    Digit4();
    CrcOfNext(digits, 3);
    Digit5();
    CrcOfNext(digits, 4);
    Digit6();
    CrcOfNext(digits, 5);
    Digit7();
    CrcOfNext(digits, 6);
    Digit8();
    CrcOfNext(digits, 7);
    Digit9();
    CrcOfNext(digits, 8);
    assert digits[..9] == digits;
  }
}
