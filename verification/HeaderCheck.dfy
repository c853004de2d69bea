/**
 What the CRC adds to the control header: no word that differs from a packed one in a short burst unpacks.
 */
module HeaderCheck {
  import opened BchEncoder
  import opened Bytes
  import opened Crc16
  import opened HeaderCodec
  import opened Outcomes

  // ---------------------------------------------------------------------------------------------
  // The bits of a number, most significant first.

  lemma {:induction false} BitsSplit(n: nat, a: nat, b: nat)
    ensures NatBits(n, a + b) == NatBits(ShiftRight(n, b), a) + NatBits(n, b)
    decreases b
  {
    if b > 0 {
      BitsSplit(n / 2, a, b - 1);
    }
  }

  lemma {:induction false} BitsDetermine(n: nat, m: nat, count: nat)
    requires n < Pow2(count) && m < Pow2(count) && NatBits(n, count) == NatBits(m, count)
    ensures n == m
  {
    if count > 0 {
      var x, y := NatBits(n, count), NatBits(m, count);
      assert x[..count - 1] == NatBits(n / 2, count - 1) && y[..count - 1] == NatBits(m / 2, count - 1);
      assert x[count - 1] == y[count - 1];
      BitsDetermine(n / 2, m / 2, count - 1);
    }
  }

  lemma ShiftByte(n: nat)
    ensures ShiftRight(n, 8) == n / 0x100
  {
    assert ShiftRight(n, 4) == n / 2 / 2 / 2 / 2;
    ShiftAdds(n, 4, 4);
    assert ShiftRight(n / 2 / 2 / 2 / 2, 4) == n / 2 / 2 / 2 / 2 / 2 / 2 / 2 / 2;
  }

  lemma {:induction false} ShiftAdds(n: nat, a: nat, b: nat)
    ensures ShiftRight(n, a + b) == ShiftRight(ShiftRight(n, a), b)
    decreases a
  {
    if a > 0 {
      ShiftAdds(n / 2, a - 1, b);
    }
  }

  // ---------------------------------------------------------------------------------------------
  // The bytes of a word.

  lemma PrefixByteIs(prefix: nat, i: nat)
    requires i < 6
    ensures PrefixBytes(prefix)[i] as nat == ShiftRight(prefix, 40 - 8 * i) % 0x100
  {
    ByteRoundTrip(ShiftRight(prefix, 40 - 8 * i) % 0x100);
    hide ShiftRight;
  }

  /** The first n bytes of a prefix are its bits above the rest. */
  lemma {:induction false} PrefixBits(prefix: nat, n: nat)
    requires n <= 6
    ensures Concat(PrefixBytes(prefix)[..n]) == NatBits(ShiftRight(prefix, 48 - 8 * n), 8 * n)
  {
    hide NatBits, ShiftRight, ByteBits, PrefixBytes;
    if n == 0 {
      NoBits(ShiftRight(prefix, 48));
    } else {
      PrefixBits(prefix, n - 1);
      var rest, bytes := ShiftRight(prefix, 48 - 8 * n), PrefixBytes(prefix);
      assert bytes[..n][..n - 1] == bytes[..n - 1] && bytes[..n][n - 1] == bytes[n - 1];
      ShiftAdds(prefix, 48 - 8 * n, 8);
      BitsSplit(rest, 8 * (n - 1), 8);
      PrefixByteIs(prefix, n - 1);
      ByteBitsAre(rest, bytes[n - 1]);
    }
  }

  lemma NoBits(n: nat)
    ensures NatBits(n, 0) == []
  {
  }

  lemma Remainders(n: nat, high: nat, low: nat)
    requires high < 0x100 && low < 0x100 && n % 0x1_0000 == high * 0x100 + low
    ensures n % 0x100 == low && n / 0x100 % 0x100 == high
  {
  }

  lemma TwoBytes(n: nat, high: bv8, low: bv8)
    requires n % 0x1_0000 == high as nat * 0x100 + low as nat
    ensures NatBits(n, 16) == ByteBits(high) + ByteBits(low)
  {
    hide NatBits, ShiftRight, ByteBits;
    BitsSplit(n, 8, 8);
    ShiftByte(n);
    Remainders(n, high as nat, low as nat);
    ByteBitsAre(n, low);
    ByteBitsAre(n / 0x100, high);
  }

  lemma RegisterBits(word: nat, a: Register)
    requires a.places as nat == word % 0x1_0000
    ensures NatBits(word, 16) == ByteBits(HighByte(a)) + ByteBits(LowByte(a))
  {
    CrcValue(a);
    hide HighByte, LowByte, NatBits, ByteBits;
    TwoBytes(word, HighByte(a), LowByte(a));
  }

  lemma CrcValue(a: Register)
    ensures a.places as nat == HighByte(a) as nat * 0x100 + LowByte(a) as nat
  {
    WordValue(a.places);
  }

  // ---------------------------------------------------------------------------------------------
  // The check on a whole word.

  ghost function WordBits(word: nat): (r: seq<bool>)
    ensures |r| == 64
  {
    NatBits(word, 64)
  }

  lemma ShiftWord(n: nat)
    ensures ShiftRight(n, 16) == n / 0x1_0000
  {
    ShiftAdds(n, 8, 8);
    ShiftByte(n);
    ShiftByte(n / 0x100);
    hide ShiftRight;
  }

  /** A word that unpacks drives the register to zero. */
  lemma UnpackedIsClear(word: nat)
    requires Unpacked(word).Some?
    ensures FeedAll(FULL, WordBits(word)) == CLEAR
  {
    hide FeedAll, NatBits, ByteBits, Concat, Crc, Parse, BlocksMatch, HighByte, LowByte;
    var prefix := word / 0x1_0000;
    var bytes := PrefixBytes(prefix);
    var crc := Crc(bytes);
    CheckedIsClear(bytes);
    PrefixBits(prefix, 6);
    assert bytes[..6] == bytes && ShiftRight(prefix, 0) == prefix;
    RegisterBits(word, crc);
    BitsSplit(word, 48, 16);
    ShiftWord(word);
    assert Concat(bytes) + ByteBits(HighByte(crc)) + ByteBits(LowByte(crc))
        == Concat(bytes) + (ByteBits(HighByte(crc)) + ByteBits(LowByte(crc)));
  }

  /**
   Changing a word that unpacks in any way confined to 16 consecutive of its 64 bits, the CRC's own
   included, gives a word that does not unpack.
   */
  lemma BurstNeverUnpacks(word: nat, other: nat, from: nat, to: nat)
    requires word < WORDS && other < WORDS && word != other && Unpacked(word).Some?
    requires from <= to <= 64 && to - from <= 16
    requires WordBits(word)[..from] == WordBits(other)[..from] && WordBits(word)[to..] == WordBits(other)[to..]
    ensures Unpacked(other).None?
  {
    hide Unpacked, FeedAll;
    UnpackedIsClear(word);
    if Unpacked(other).Some? {
      UnpackedIsClear(other);
      BurstAnywhereIsSeen(FULL, WordBits(word), WordBits(other), from, to);
      WordCount();
      BitsDetermine(word, other, 64);
    }
  }
}
