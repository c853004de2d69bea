/**
 The bits of numbers and of machine words, most significant first.
 */
module Bytes {
  function NatBits(n: nat, count: nat): (r: seq<bool>)
    ensures |r| == count
  {
    if count == 0 then [] else NatBits(n / 2, count - 1) + [n % 2 == 1]
  }

  function ByteBits(b: bv8): (r: seq<bool>)
    ensures |r| == 8
  {
    [b & 0x80 != 0, b & 0x40 != 0, b & 0x20 != 0, b & 0x10 != 0,
     b & 0x08 != 0, b & 0x04 != 0, b & 0x02 != 0, b & 0x01 != 0]
  }

  predicate Lowest(b: bv8) {
    b & 1 == 1
  }

  function Half(b: bv8): bv8 {
    b >> 1
  }

  lemma HalfIs(b: bv8)
    ensures Half(b) as nat == b as nat / 2
  {
  }

  lemma LowestIs(b: bv8)
    ensures Lowest(b) <==> b as nat % 2 == 1
  {
  }

  /** The lowest bits of a byte. */
  function LowBits(b: bv8, count: nat): (r: seq<bool>)
    ensures |r| == count
  {
    if count == 0 then [] else LowBits(Half(b), count - 1) + [Lowest(b)]
  }

  lemma {:induction false} LowBitsOfNumber(b: bv8, count: nat)
    ensures LowBits(b, count) == NatBits(b as nat, count)
  {
    hide Half, Lowest;
    if count > 0 {
      HalfIs(b);
      LowestIs(b);
      LowBitsOfNumber(Half(b), count - 1);
    }
  }

  lemma EightLowBits(b: bv8)
    ensures LowBits(b, 8) == ByteBits(b)
  {
    Eighths(b);
    hide Half, Lowest, ByteBits;
    var b1 := Half(b); var b2 := Half(b1); var b3 := Half(b2); var b4 := Half(b3);
    var b5 := Half(b4); var b6 := Half(b5); var b7 := Half(b6);
    assert LowBits(b7, 1) == [Lowest(b7)];
    assert LowBits(b6, 2) == [Lowest(b7), Lowest(b6)];
    assert LowBits(b5, 3) == [Lowest(b7), Lowest(b6), Lowest(b5)];
    assert LowBits(b4, 4) == [Lowest(b7), Lowest(b6), Lowest(b5), Lowest(b4)];
    assert LowBits(b3, 5) == [Lowest(b7), Lowest(b6), Lowest(b5), Lowest(b4), Lowest(b3)];
    assert LowBits(b2, 6) == [Lowest(b7), Lowest(b6), Lowest(b5), Lowest(b4), Lowest(b3), Lowest(b2)];
    assert LowBits(b1, 7) == [Lowest(b7), Lowest(b6), Lowest(b5), Lowest(b4), Lowest(b3), Lowest(b2), Lowest(b1)];
  }

  lemma Eighths(b: bv8)
    ensures ByteBits(b) == [
      Lowest(Half(Half(Half(Half(Half(Half(Half(b)))))))), Lowest(Half(Half(Half(Half(Half(Half(b))))))),
      Lowest(Half(Half(Half(Half(Half(b)))))), Lowest(Half(Half(Half(Half(b))))),
      Lowest(Half(Half(Half(b)))), Lowest(Half(Half(b))), Lowest(Half(b)), Lowest(b)]
  {
  }

  /** Two to the power of n. */
  function Power(n: nat): (p: nat)
    ensures p > 0
  {
    if n == 0 then 1 else 2 * Power(n - 1)
  }

  lemma {:induction false} LowPart(high: nat, low: nat, count: nat)
    ensures NatBits(high * Power(count) + low, count) == NatBits(low, count)
  {
    if count > 0 {
      var n := high * Power(count) + low;
      var half := high * Power(count - 1);
      assert n == 2 * half + low;
      assert n / 2 == half + low / 2 && n % 2 == low % 2;
      LowPart(high, low / 2, count - 1);
    }
  }

  lemma PowerEight()
    ensures Power(8) == 0x100
  {
  }

  /** The eight lowest bits of a number are those of its lowest byte. */
  lemma ByteBitsAre(n: nat, b: bv8)
    requires b as nat == n % 0x100
    ensures NatBits(n, 8) == ByteBits(b)
  {
    hide NatBits, LowBits, ByteBits, Power;
    PowerEight();
    LowPart(n / 0x100, n % 0x100, 8);
    LowBitsOfNumber(b, 8);
    EightLowBits(b);
  }

  function Value(b: bv8): nat {
    b as nat
  }

  lemma {:induction false} ByteExists(n: nat)
    requires n < 0x100
    ensures exists b: bv8 :: Value(b) == n
  {
    if n == 0 {
      assert Value(0) == 0;
    } else {
      ByteExists(n - 1);
      var b: bv8 :| Value(b) == n - 1;
      assert Value(b + 1) == n;
    }
  }

  lemma ValueRoundTrip(b: bv8)
    ensures (b as nat) as bv8 == b
  {
  }

  lemma ByteRoundTrip(n: nat)
    requires n < 0x100
    ensures (n as bv8) as nat == n
  {
    ByteExists(n);
    var b: bv8 :| Value(b) == n;
    ValueRoundTrip(b);
  }

  lemma WordParts(w: bv16)
    ensures w as nat == (w >> 8) as nat * 0x100 + (w & 0xFF) as nat
  {
  }

  lemma PartsFit(w: bv16)
    ensures ((w >> 8) as bv8) as nat == (w >> 8) as nat && ((w & 0xFF) as bv8) as nat == (w & 0xFF) as nat
  {
  }

  /** The value of a word is that of its two bytes. */
  lemma WordValue(w: bv16)
    ensures w as nat == ((w >> 8) as bv8) as nat * 0x100 + ((w & 0xFF) as bv8) as nat
  {
    WordParts(w);
    PartsFit(w);
  }
}
