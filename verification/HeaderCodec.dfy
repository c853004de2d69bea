/**
 The control header: `pack_header`, `unpack_header`, the QPSK symbols written and the hard decisions read
 back, end to end through the BCH code.
 */
module HeaderCodec {
  import opened GaloisField
  import opened Polynomials
  import opened BchCode
  import opened BchEncoder
  import opened BchDistance
  import opened BchTables
  import opened BchDecoder
  import opened BchCodec
  import opened Crc16
  import opened Outcomes
  import opened Sequences

  const VERSION := 1
  const BLOCKS_EXTENDED := 255

  /** `LdpcMiniHeader`, with the widths of its fields. */
  datatype Header = Header(version: nat, flags: nat, payloadLen: nat, payloadBlocks: nat, number: nat) {
    predicate Fits() {
      version < 0x100 && flags < 0x100 && payloadLen < 0x1_0000 && payloadBlocks < 0x100 && number < 0x1_0000
    }
  }

  /** `payload_blocks_for_len`: the fewest blocks of 63 bytes that hold the payload. */
  function PayloadBlocks(len: nat): (n: nat)
    ensures len <= 63 * n && (n > 0 ==> 63 * (n - 1) < len)
  {
    (len + 62) / 63
  }

  /** `payload_blocks_field_matches`. */
  predicate BlocksMatch(len: nat, field: nat) {
    if PayloadBlocks(len) >= BLOCKS_EXTENDED then field == BLOCKS_EXTENDED else field == PayloadBlocks(len)
  }

  /** What both ends check. `payload_len_fits` always holds for a 16-bit length. */
  predicate Acceptable(h: Header) {
    h.version == VERSION && h.flags < 16 && h.payloadLen < 0x1_0000 && BlocksMatch(h.payloadLen, h.payloadBlocks)
  }

  /** The 48-bit prefix: 4 bits of version, 4 of flags, then length, blocks and number. */
  function Prefix(h: Header): nat {
    ((((h.version % 16) * 16 + h.flags % 16) * 0x1_0000 + h.payloadLen) * 0x100 + h.payloadBlocks) * 0x1_0000 + h.number
  }

  /** Byte `i` of the 48-bit prefix, most significant first. */
  function PrefixByte(prefix: nat, i: nat): bv8
    requires i < 6
  {
    (ShiftRight(prefix, 40 - 8 * i) % 256) as bv8
  }

  function PrefixBytes(prefix: nat): (r: seq<bv8>)
    ensures |r| == 6
  {
    seq(6, i requires 0 <= i < 6 => PrefixByte(prefix, i))
  }

  function CrcOfPrefix(prefix: nat): nat {
    Crc(PrefixBytes(prefix)).places as nat
  }

  // ---------------------------------------------------------------------------------------------
  // Packing.

  datatype PackResult = Packed(word: nat) | Refused(message: string)

  ghost function PackWord(h: Header): nat {
    Prefix(h) * 0x1_0000 + CrcOfPrefix(Prefix(h))
  }

  method PackHeader(h: Header) returns (r: PackResult)
    requires h.Fits()
    ensures r.Packed? <==> Acceptable(h)
    ensures r.Packed? ==> r.word == PackWord(h)
  {
    hide Crc;
    if h.version != VERSION || h.flags >= 16 {
      return Refused("LDPC mini-header version/flags mismatch.");
    }
    if h.payloadLen > 0xFFFF {
      return Refused("LDPC mini-header payload length is too large.");
    }
    if !BlocksMatch(h.payloadLen, h.payloadBlocks) {
      return Refused("LDPC mini-header payload block count mismatch.");
    }
    var prefix := Prefix(h);
    var crc := Crc16Ccitt(PrefixBytes(prefix));
    r := Packed(prefix * 0x1_0000 + crc.places as nat);
  }

  function Parse(prefix: nat): Header {
    var aboveNumber := prefix / 0x1_0000;
    var aboveBlocks := aboveNumber / 0x100;
    var aboveLen := aboveBlocks / 0x1_0000;
    Header(aboveLen / 16 % 16, aboveLen % 16, aboveBlocks % 0x1_0000, aboveNumber % 0x100, prefix % 0x1_0000)
  }

  /** What `unpack_header` returns. */
  ghost function Unpacked(word: nat): Option<Header> {
    var h := Parse(word / 0x1_0000);
    if CrcOfPrefix(word / 0x1_0000) == word % 0x1_0000 && Acceptable(h) then Some(h) else None
  }

  method UnpackHeader(word: nat) returns (r: Option<Header>)
    requires word < WORDS
    ensures r == Unpacked(word)
  {
    hide Crc;
    var prefix := word / 0x1_0000;
    var expected := Crc16Ccitt(PrefixBytes(prefix));
    if expected.places as nat != word % 0x1_0000 {
      return None;
    }
    var parsed := Parse(prefix);
    if parsed.version != VERSION || parsed.flags >= 16 {
      return None;
    }
    if parsed.payloadLen > 0xFFFF {
      return None;
    }
    if !BlocksMatch(parsed.payloadLen, parsed.payloadBlocks) {
      return None;
    }
    r := Some(parsed);
  }

  lemma PrefixParses(h: Header)
    requires h.Fits() && h.version < 16 && h.flags < 16
    ensures Prefix(h) < 0x1_0000_0000_0000 && Parse(Prefix(h)) == h
  {
    var top := h.version * 16 + h.flags;
    var aboveBlocks := top * 0x1_0000 + h.payloadLen;
    var aboveNumber := aboveBlocks * 0x100 + h.payloadBlocks;
    SplitWord(aboveNumber, h.number);
    SplitByte(aboveBlocks, h.payloadBlocks);
    SplitWord(top, h.payloadLen);
    assert top / 16 == h.version && top % 16 == h.flags;
    assert Prefix(h) == aboveNumber * 0x1_0000 + h.number;
    assert top < 0x100 && aboveBlocks < 0x100_0000 && aboveNumber < 0x1_0000_0000;
  }

  lemma SplitWord(high: nat, low: nat)
    requires low < 0x1_0000
    ensures (high * 0x1_0000 + low) / 0x1_0000 == high && (high * 0x1_0000 + low) % 0x1_0000 == low
  {
  }

  lemma SplitByte(high: nat, low: nat)
    requires low < 0x100
    ensures (high * 0x100 + low) / 0x100 == high && (high * 0x100 + low) % 0x100 == low
  {
  }

  lemma ParsedPrefix(prefix: nat)
    requires prefix < 0x1_0000_0000_0000
    ensures Prefix(Parse(prefix)) == prefix && Parse(prefix).Fits()
  {
  }

  /** Unpacking accepts exactly the packed words, and returns the header that was packed. */
  lemma UnpackIff(word: nat, h: Header)
    requires word < WORDS
    ensures Unpacked(word) == Some(h) <==> h.Fits() && Acceptable(h) && word == PackWord(h)
  {
    hide Crc, Prefix, Parse, BlocksMatch;
    var prefix := word / 0x1_0000;
    ParsedPrefix(prefix);
    if h.Fits() && Acceptable(h) {
      PrefixParses(h);
    }
  }

  // ---------------------------------------------------------------------------------------------
  // Over the air.

  /** `write_mini_header_qpsk`: two code bits per symbol, the 128th bit zero. */
  method WriteMiniHeader(t: Tables, h: Header) returns (r: Option<seq<nat>>)
    requires ValidTables(t) && h.Fits()
    ensures r.Some? <==> Acceptable(h)
    ensures r.Some? ==> Carries(r.value, h)
  {
    hide Codeword, PackWord, ValidTables;
    var packed := PackHeader(h);
    if packed.Refused? {
      return None;
    }
    PackedInRange(h);
    CodewordIsCodeword(packed.word);
    var code := BchEncodeHeader(t, packed.word);
    var symbols: seq<nat> := [];
    for sym := 0 to 64
      invariant |symbols| == sym && forall j | 0 <= j < sym :: symbols[j] < 4
      invariant sym == 64 ==> symbols[63] % 2 == 0
      invariant forall i | 0 <= i < CODE_BITS && i < 2 * sym :: SymbolBit(symbols, i) == code[i]
    {
      var bit := sym * 2;
      var b0 := if bit < CODE_BITS then BitValue(code[bit]) else 0;
      var b1 := if bit + 1 < CODE_BITS then BitValue(code[bit + 1]) else 0;
      symbols := symbols + [2 * b0 + b1];
      assert IsBit(code[bit]);
      assert bit + 1 < CODE_BITS ==> IsBit(code[bit + 1]);
    }
    r := Some(symbols);
  }

  function BitValue(a: GF): nat {
    if a == ZERO then 0 else 1
  }

  /** Bit `i` of the symbol stream, as a coefficient. */
  function SymbolBit(symbols: seq<nat>, i: nat): GF
    requires i / 2 < |symbols|
  {
    if (if i % 2 == 0 then symbols[i / 2] / 2 % 2 else symbols[i / 2] % 2) == 1 then ONE else ZERO
  }

  /** 64 two-bit symbols with the code bits of the header; the last bit is padding. */
  ghost predicate Carries(symbols: seq<nat>, h: Header)
    requires h.Fits()
  {
    && |symbols| == 64 && (forall j | 0 <= j < 64 :: symbols[j] < 4) && symbols[63] % 2 == 0
    && forall i | 0 <= i < CODE_BITS :: SymbolBit(symbols, i) == Codeword(PackWord(h))[i]
  }

  lemma PackedInRange(h: Header)
    requires h.Fits() && Acceptable(h)
    ensures PackWord(h) < WORDS
  {
    hide Crc, Prefix, Parse;
    PrefixParses(h);
  }

  /** The sign of a log-likelihood ratio. */
  function HardDecision(llr: real): GF {
    if llr < 0.0 then ONE else ZERO
  }

  ghost function HardDecisions(llrs: seq<real>): (r: Poly)
    requires |llrs| >= CODE_BITS
    ensures |r| == CODE_BITS && Binary(r)
  {
    seq(CODE_BITS, i requires 0 <= i < CODE_BITS => HardDecision(llrs[i]))
  }

  /** The places where the sign of the ratio, negative for a one, is not that of the code bit. */
  ghost function WrongSigns(llrs: seq<real>, code: Poly): set<nat>
    requires |llrs| >= CODE_BITS == |code|
  {
    set i: nat | i < CODE_BITS && (llrs[i] < 0.0) != (code[i] == ONE)
  }

  /** The received signs are those of the header's code bits, but for at most ten. */
  ghost predicate Received(llrs: seq<real>, h: Header)
    requires |llrs| >= CODE_BITS
  {
    h.Fits() && Acceptable(h) && |WrongSigns(llrs, Codeword(PackWord(h)))| <= 10
  }

  lemma WrongSignsAreDistance(llrs: seq<real>, code: Poly)
    requires |llrs| >= CODE_BITS == |code| && Binary(code)
    ensures |WrongSigns(llrs, code)| == Distance(code, HardDecisions(llrs))
  {
    hide Differences;
    var d := Differences(code, HardDecisions(llrs));
    DifferencesAre(code, HardDecisions(llrs));
    DistinctCardinality(d);
    forall i: nat
      ensures i in WrongSigns(llrs, code) <==> i in d
    {
      if i < CODE_BITS {
        assert IsBit(code[i]) && HardDecisions(llrs)[i] == HardDecision(llrs[i]);
      }
    }
    assert Elements(d) == WrongSigns(llrs, code);
  }

  /**
   `decode_mini_header_llrs`, end to end: a header comes out exactly when the received signs differ
   from those of that header's code bits in at most ten places.
   */
  method DecodeMiniHeader(t: Tables, llrs: seq<real>) returns (r: Option<Header>)
    requires ValidTables(t) && |llrs| >= CODE_BITS
    ensures forall h :: r == Some(h) <==> Received(llrs, h)
  {
    hide ValidTables, Codeword, Distance, PackWord, Acceptable, HardDecision, Unpacked, WrongSigns;
    var bits := seq(CODE_BITS, i requires 0 <= i < CODE_BITS => HardDecision(llrs[i]));
    assert bits == HardDecisions(llrs);
    var ok, word := BchDecodeHeader(t, bits);
    if ok {
      r := UnpackHeader(word);
    } else {
      r := None;
    }
    forall h
      ensures r == Some(h) <==> Received(llrs, h)
    {
      if ok {
        UnpackIff(word, h);
      }
      CodewordIsCodeword(PackWord(h));
      WrongSignsAreDistance(llrs, Codeword(PackWord(h)));
      if Received(llrs, h) {
        PackedInRange(h);
        assert DecodesTo(bits, PackWord(h));
        assert ok;
        DecodingUnique(bits, word, PackWord(h));
      }
    }
  }

  /** The places where the sign of the ratio, negative for a one, is not that of the bit sent, high bit first. */
  ghost function WrongSymbolSigns(llrs: seq<real>, symbols: seq<nat>): set<nat>
    requires |llrs| >= CODE_BITS && |symbols| == 64
  {
    set i: nat | i < CODE_BITS
              && (llrs[i] < 0.0) != if i % 2 == 0 then symbols[i / 2] >= 2 else symbols[i / 2] % 2 == 1
  }

  /**
   Round trip over the air: if at most ten of the received signs differ from the symbols written for a
   header, that header is received, and no other.
   */
  lemma MiniHeaderRoundTrip(symbols: seq<nat>, h: Header, llrs: seq<real>)
    requires h.Fits() && Acceptable(h) && Carries(symbols, h) && |llrs| >= CODE_BITS
    requires |WrongSymbolSigns(llrs, symbols)| <= 10
    ensures forall g :: Received(llrs, g) <==> g == h
  {
    hide Codeword, Distance, PackWord, HardDecision, Unpacked, Prefix, Parse;
    PackedInRange(h);
    CodewordIsCodeword(PackWord(h));
    var code := Codeword(PackWord(h));
    assert WrongSymbolSigns(llrs, symbols) == WrongSigns(llrs, code) by {
      SymbolSigns(symbols, h);
    }
    hide WrongSigns, SymbolBit, Acceptable;
    WrongSignsAreDistance(llrs, code);
    forall g | Received(llrs, g)
      ensures g == h
    {
      PackedInRange(g);
      CodewordIsCodeword(PackWord(g));
      WrongSignsAreDistance(llrs, Codeword(PackWord(g)));
      DecodingUnique(HardDecisions(llrs), PackWord(g), PackWord(h));
      UnpackIff(PackWord(h), h);
      UnpackIff(PackWord(h), g);
    }
  }

  lemma SymbolSigns(symbols: seq<nat>, h: Header)
    requires h.Fits() && Carries(symbols, h)
    ensures forall i: nat | i < CODE_BITS ::
              (Codeword(PackWord(h))[i] == ONE <==> if i % 2 == 0 then symbols[i / 2] >= 2 else symbols[i / 2] % 2 == 1)
  {
    hide Codeword, PackWord;
    forall i: nat | i < CODE_BITS
      ensures Codeword(PackWord(h))[i] == ONE <==> if i % 2 == 0 then symbols[i / 2] >= 2 else symbols[i / 2] % 2 == 1
    {
      assert SymbolBit(symbols, i) == Codeword(PackWord(h))[i];
      assert symbols[i / 2] < 4;
    }
  }

  // ---------------------------------------------------------------------------------------------
  // The layout of the word.

  /** Where the fields of a packed word stand: 4, 4, 16, 8, 16 and 16 bits from the top. */
  lemma PackedFields(h: Header)
    requires h.Fits() && Acceptable(h)
    ensures var word := PackWord(h);
            && word / 0x1000_0000_0000_0000 == h.version == 1
            && word / 0x100_0000_0000_0000 % 0x10 == h.flags
            && word / 0x100_0000_0000 % 0x1_0000 == h.payloadLen
            && word / 0x1_0000_0000 % 0x100 == h.payloadBlocks
            && word / 0x1_0000 % 0x1_0000 == h.number
            && word % 0x1_0000 == Crc(PrefixBytes(word / 0x1_0000)).places as nat
  {
    hide Crc, BlocksMatch;
    var top := h.version * 16 + h.flags;
    var aboveBlocks := top * 0x1_0000 + h.payloadLen;
    var aboveNumber := aboveBlocks * 0x100 + h.payloadBlocks;
    var prefix := aboveNumber * 0x1_0000 + h.number;
    var crc := CrcOfPrefix(prefix);
    var word := prefix * 0x1_0000 + crc;
    assert Prefix(h) == prefix && PackWord(h) == word;
    SplitWord(prefix, crc);
    SplitWord(aboveNumber, h.number);
    SplitByte(aboveBlocks, h.payloadBlocks);
    SplitWord(top, h.payloadLen);
    hide CrcOfPrefix, PackWord, Prefix;
    assert word / 0x1_0000_0000 == aboveNumber;
    assert word / 0x100_0000_0000 == aboveBlocks;
    assert word / 0x100_0000_0000_0000 == top;
    assert word / 0x1000_0000_0000_0000 == h.version;
  }

  /** The headers that are accepted, in terms of their fields. */
  lemma AcceptableIff(h: Header)
    requires h.Fits()
    ensures Acceptable(h) <==>
            && h.version == 1 && h.flags < 16
            && (if h.payloadLen <= 63 * 254 then
                  h.payloadLen <= 63 * h.payloadBlocks
                  && (h.payloadBlocks > 0 ==> 63 * (h.payloadBlocks - 1) < h.payloadLen)
                else h.payloadBlocks == 255)
  {
    BlocksAreFewest(h.payloadLen, h.payloadBlocks);
  }

  /** The block count of a header: the fewest blocks of 63 bytes, or 255 if that many or more are needed. */
  lemma BlocksAreFewest(len: nat, field: nat)
    ensures BlocksMatch(len, field) <==>
            || (field < 255 && len <= 63 * field && (field > 0 ==> 63 * (field - 1) < len))
            || (field == 255 && 63 * 254 < len)
  {
  }
}
