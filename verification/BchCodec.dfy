/**
 The loops of `bch_encode_header`, `bch_syndromes` and `bch_decode_header`, tied to the code.
 Each function takes the tables that the source keeps in a function-local static.
 */
module BchCodec {
  import opened GaloisField
  import opened Polynomials
  import opened BchCode
  import opened BchEncoder
  import opened BerlekampMassey
  import opened BchTables
  import opened BchDecoder

  // ---------------------------------------------------------------------------------------------
  // Encoding.

  /** work ^= generator << shift, coefficient by coefficient. */
  method AddGenerator(t: Tables, work: array<GF>, shift: nat)
    requires ValidTables(t) && work.Length == CODE_BITS && shift < HEADER_BITS
    modifies work
    ensures work[..] == Sum(old(work[..]), ShiftedGenerator(shift))
  {
    hide Add, ValidPowers, ShiftedGenerator, Generator;
    ghost var before := work[..];
    ghost var g := ShiftedGenerator(shift);
    GeneratorLength();
    for j := 0 to |t.generator|
      invariant forall i | 0 <= i < CODE_BITS ::
        work[i] == if shift <= i < shift + j then Add(before[i], g[i]) else before[i]
    {
      ShiftedAt(shift, shift + j);
      work[shift + j] := Add(work[shift + j], t.generator[j]);
    }
    forall i | 0 <= i < CODE_BITS
      ensures work[i] == Sum(before, g)[i]
    {
      ShiftedAt(shift, i);
      AddZero(before[i]);
    }
  }

  /** `& 1u` on a coefficient. */
  function LowBit(a: GF): GF {
    GF(a.bits & 1)
  }

  lemma LowBitOfBit(a: GF)
    requires IsBit(a)
    ensures LowBit(a) == a
  {
  }

  method MessageOf(word: nat) returns (message: Poly)
    requires word < WORDS
    ensures message == MessageBits(word)
  {
    message := seq(HEADER_BITS, i requires 0 <= i < HEADER_BITS => HeaderBit(word, i));
    forall i | 0 <= i < HEADER_BITS
      ensures message[i] == MessageBits(word)[i]
    {
      BitAt(word, HEADER_BITS, i);
    }
  }

  method LoadMessage(message: Poly) returns (work: array<GF>)
    requires |message| == HEADER_BITS
    ensures fresh(work) && work.Length == CODE_BITS && work[..] == Unreduced(message)
  {
    work := new GF[CODE_BITS](_ => ZERO);
    for i := 0 to HEADER_BITS
      invariant forall k | 0 <= k < CODE_BITS ::
        work[k] == if CHECK_BITS <= k < CHECK_BITS + i then message[k - CHECK_BITS] else ZERO
    {
      work[CHECK_BITS + i] := message[i];
    }
  }

  /** Polynomial division: the remainder of x^63 times the message. */
  method Divide(t: Tables, message: Poly) returns (work: array<GF>)
    requires ValidTables(t) && |message| == HEADER_BITS
    ensures fresh(work) && work.Length == CODE_BITS
    ensures work[..] == Reduce(Unreduced(message), CODE_BITS)
  {
    hide Reduce, Unreduced, ValidPowers;
    GeneratorIsBinary();
    work := LoadMessage(message);
    for pos := CODE_BITS downto CHECK_BITS
      invariant Reduce(work[..], pos) == Reduce(Unreduced(message), CODE_BITS)
    {
      ReduceStep(work[..], pos);
      if work[pos] == ZERO {
        continue;
      }
      AddGenerator(t, work, pos - CHECK_BITS);
    }
    ReduceDone(work[..]);
  }

  method CheckBits(work: array<GF>) returns (check: Poly)
    requires work.Length == CODE_BITS && Binary(work[..])
    ensures check == work[..CHECK_BITS]
  {
    hide LowBit;
    check := [];
    for i := 0 to CHECK_BITS
      invariant check == work[..i]
    {
      assert IsBit(work[..][i]);
      LowBitOfBit(work[i]);
      check := check + [LowBit(work[i])];
    }
  }

  method BchEncodeHeader(t: Tables, word: nat) returns (code: Poly)
    requires ValidTables(t) && word < WORDS
    ensures code == Codeword(word)
  {
    hide Reduce;
    var message := MessageOf(word);
    assert IsBit(ZERO);
    ReduceIs(Unreduced(message), CODE_BITS);
    var work := Divide(t, message);
    var check := CheckBits(work);
    assert work[..CHECK_BITS] == work[..][..CHECK_BITS];
    code := check + message;
  }

  lemma ReduceStep(work: Poly, pos: nat)
    requires |work| == CODE_BITS && CHECK_BITS <= pos < CODE_BITS
    ensures Reduce(work, pos + 1)
         == Reduce(if work[pos] == ZERO then work else Sum(work, ShiftedGenerator(pos - CHECK_BITS)), pos)
  {
  }

  lemma ReduceDone(work: Poly)
    requires |work| == CODE_BITS
    ensures Reduce(work, CHECK_BITS) == work
  {
  }

  // ---------------------------------------------------------------------------------------------
  // Syndromes.

  /** The table index of the pos-th power of the syndrome's point. */
  function PowerIndex(syndrome: nat, pos: nat): (k: nat)
    ensures k < 127
  {
    (syndrome * pos) % 127
  }

  method OneSyndrome(t: Tables, bits: Poly, syndrome: nat) returns (accum: GF)
    requires ValidTables(t) && |bits| == CODE_BITS && Binary(bits)
    ensures accum == Eval(bits, Exp(syndrome))
  {
    hide Exp, Mul, Add, ValidLog, Eval, PowerIndex, Pow;
    ghost var x := Exp(syndrome);
    accum := ZERO;
    EvalZero(bits[..0], x);
    for pos := 0 to CODE_BITS
      invariant accum == Eval(bits[..pos], x)
    {
      assert bits[..pos + 1] == bits[..pos] + [bits[pos]];
      EvalSnoc(bits[..pos], bits[pos], x);
      SyndromeTerm(syndrome, pos, bits[pos], accum);
      if bits[pos] != ZERO {
        accum := Add(accum, t.exp[PowerIndex(syndrome, pos)]);
      }
    }
    assert bits[..CODE_BITS] == bits;
  }

  method BchSyndromes(t: Tables, bits: Poly) returns (syndromes: Poly)
    requires ValidTables(t) && |bits| == CODE_BITS && Binary(bits)
    ensures syndromes == Syndromes(bits)
  {
    hide Exp, Eval, ValidTables;
    syndromes := [];
    for syndrome := 1 to SYNDROMES + 1
      invariant syndromes == Syndromes(bits)[..syndrome - 1]
    {
      var accum := OneSyndrome(t, bits, syndrome);
      syndromes := syndromes + [accum];
    }
  }

  lemma SyndromeTerm(syndrome: nat, pos: nat, bit: GF, accum: GF)
    requires IsBit(bit)
    ensures Add(accum, Mul(bit, Pow(Exp(syndrome), pos)))
         == if bit == ZERO then accum else Add(accum, Exp(PowerIndex(syndrome, pos)))
  {
    hide Exp, Mul, Add;
    PowExp(syndrome, pos);
    ExpMod(syndrome * pos);
    MulZero(Pow(Exp(syndrome), pos));
    MulOne(Pow(Exp(syndrome), pos));
    AddZero(accum);
  }

  method AllZeroSyndromes(syndromes: Poly) returns (zero: bool)
    ensures zero <==> AllZero(syndromes)
  {
    var hasError := false;
    for k := 0 to |syndromes|
      invariant hasError <==> !AllZero(syndromes[..k])
    {
      assert syndromes[..k + 1][k] == syndromes[k];
      hasError := hasError || syndromes[k] != ZERO;
    }
    assert syndromes[..|syndromes|] == syndromes;
    zero := !hasError;
  }

  // ---------------------------------------------------------------------------------------------
  // Berlekamp-Massey.

  lemma {:induction false} ConvolveTrim(c: Poly, s: seq<GF>, k: nat, d: nat, n: nat)
    requires d < n <= k + 1 && n <= |c| && k < |s| && DegreeAtMost(c, d)
    ensures Convolve(c, s, k, n) == Convolve(c, s, k, d + 1)
    decreases n
  {
    hide Mul, Add;
    if n > d + 1 {
      ConvolveTrim(c, s, k, d, n - 1);
      MulZero(s[k - (n - 1)]);
      AddZero(Convolve(c, s, k, n - 1));
    }
  }

  lemma ConvolveFirst(c: Poly, s: seq<GF>, k: nat)
    requires c != [] && k < |s| && c[0] == ONE
    ensures Convolve(c, s, k, 1) == s[k]
  {
    MulOne(s[k]);
    AddZero(s[k]);
    hide Mul, Add;
    assert Convolve(c, s, k, 0) == ZERO;
  }

  lemma ConvolveStep(c: Poly, s: seq<GF>, k: nat, i: nat)
    requires i <= k && i < |c| && k < |s|
    ensures Convolve(c, s, k, i + 1)
         == if c[i] == ZERO || s[k - i] == ZERO then Convolve(c, s, k, i)
            else Add(Convolve(c, s, k, i), Mul(c[i], s[k - i]))
  {
    hide Mul, Add;
    MulZero(c[i]);
    MulZero(s[k - i]);
    AddZero(Convolve(c, s, k, i));
  }

  method DiscrepancyAt(t: Tables, locator: Poly, degree: nat, s: Poly, n: nat) returns (discrepancy: GF)
    requires ValidTables(t) && |locator| == SLOTS && n < |s| <= SYNDROMES && degree <= n
    requires locator[0] == ONE && DegreeAtMost(locator, degree)
    ensures discrepancy == Discrepancy(locator, s, n)
  {
    hide Mul, Add, ValidPowers, Convolve, DegreeAtMost;
    ConvolveFirst(locator, s, n);
    discrepancy := s[n];
    for i := 1 to degree + 1
      invariant discrepancy == Convolve(locator, s, n, i)
    {
      ConvolveStep(locator, s, n, i);
      if locator[i] != ZERO && s[n - i] != ZERO {
        var product := GfMul(t, locator[i], s[n - i]);
        discrepancy := Add(discrepancy, product);
      }
    }
    if degree < n {
      ConvolveTrim(locator, s, n, degree, n + 1);
    }
  }

  lemma CorrectedAt(c: Poly, b: Poly, shift: nat, factor: GF, i: nat)
    requires |c| == |b| && i < |c|
    ensures Corrected(c, b, shift, factor)[i]
         == if i < shift || b[i - shift] == ZERO then c[i] else Add(c[i], Mul(factor, b[i - shift]))
  {
    hide Mul, Add;
    MulZero(factor);
    AddZero(c[i]);
  }

  /** `after` up to position `m`, `before` from there on. */
  ghost function Spliced(after: Poly, before: Poly, m: nat): (r: Poly)
    requires |after| == |before| && m <= |after|
    ensures |r| == |after|
  {
    after[..m] + before[m..]
  }

  lemma SplicedStep(after: Poly, before: Poly, m: nat)
    requires |after| == |before| && m < |after|
    ensures Spliced(after, before, m)[m] == before[m]
    ensures Spliced(after, before, m)[m := after[m]] == Spliced(after, before, m + 1)
  {
  }

  lemma SplicedStart(after: Poly, before: Poly, m: nat)
    requires |after| == |before| && m <= |after| && forall k | 0 <= k < m :: after[k] == before[k]
    ensures Spliced(after, before, m) == before && Spliced(after, before, |after|) == after
  {
  }

  /** locator += factor * x^shift * previous, within the 21 slots. */
  method AddShifted(t: Tables, locator: array<GF>, previous: Poly, shift: nat, factor: GF)
    requires ValidTables(t) && locator.Length == |previous| == SLOTS && shift < SLOTS
    modifies locator
    ensures locator[..] == Corrected(old(locator[..]), previous, shift, factor)
  {
    hide Mul, Add, ValidPowers, Corrected, Spliced;
    ghost var before := locator[..];
    ghost var after := Corrected(before, previous, shift, factor);
    forall k | 0 <= k < shift
      ensures after[k] == before[k]
    {
      CorrectedAt(before, previous, shift, factor, k);
    }
    SplicedStart(after, before, shift);
    var i := 0;
    while i + shift < SLOTS
      invariant 0 <= i && i + shift <= SLOTS
      invariant locator[..] == Spliced(after, before, i + shift)
    {
      CorrectedAt(before, previous, shift, factor, i + shift);
      SplicedStep(after, before, i + shift);
      assert locator[i + shift] == locator[..][i + shift];
      if previous[i] != ZERO {
        var product := GfMul(t, factor, previous[i]);
        locator[i + shift] := Add(locator[i + shift], product);
      }
      i := i + 1;
    }
  }

  /** The twenty iterations. */
  method FindLocator(t: Tables, s: Poly) returns (locator: array<GF>, degree: nat)
    requires ValidTables(t) && |s| == SYNDROMES
    ensures fresh(locator) && locator.Length == SLOTS && degree < SLOTS
    ensures locator[..degree + 1] == Locator(s) && degree == |Locator(s)| - 1
  {
    hide ValidTables, Discrepancy, Corrected, Mul, Inv, DegreeAtMost;
    locator := new GF[SLOTS](_ => ZERO);
    locator[0] := ONE;
    var previous := locator[..];
    degree := 0;
    var shift := 1;
    var scale := ONE;
    assert locator[..] == Start().locator;
    for n := 0 to SYNDROMES
      invariant locator.Length == SLOTS && fresh(locator)
      invariant State(locator[..], previous, degree, shift, scale) == Run(s, n)
    {
      RunFacts(s, n);
      var discrepancy := DiscrepancyAt(t, locator[..], degree, s, n);
      if discrepancy == ZERO {
        shift := shift + 1;
        continue;
      }
      var saved := locator[..];
      var factor := Divided(t, discrepancy, scale);
      AddShifted(t, locator, previous, shift, factor);
      if 2 * degree <= n {
        degree := n + 1 - degree;
        previous := saved;
        scale := discrepancy;
        shift := 1;
      } else {
        shift := shift + 1;
      }
    }
    RunFacts(s, SYNDROMES);
  }

  /** The division of a round never meets a zero divisor. */
  method Divided(t: Tables, a: GF, b: GF) returns (r: GF)
    requires ValidTables(t) && b != ZERO
    ensures r == Mul(a, Inv(b))
  {
    hide Mul, Inv;
    var quotient := GfDiv(t, a, b);
    r := quotient.value;
  }

  // ---------------------------------------------------------------------------------------------
  // Root search and correction.

  lemma EvalTerm(c: Poly, x: GF, i: nat)
    requires i < |c|
    ensures Eval(c[..i + 1], x)
         == if c[i] == ZERO then Eval(c[..i], x) else Add(Eval(c[..i], x), Mul(c[i], Pow(x, i)))
  {
    hide Mul, Add, Eval;
    assert c[..i + 1] == c[..i] + [c[i]];
    EvalSnoc(c[..i], c[i], x);
    MulZero(Pow(x, i));
    AddZero(Eval(c[..i], x));
  }

  lemma EvalFirst(c: Poly, x: GF)
    requires c != []
    ensures Eval(c[..1], x) == c[0] && Pow(x, 0) == ONE
  {
    hide Mul, Add;
    assert c[..1][1..] == [];
    MulZero(x);
    AddZero(c[0]);
  }

  lemma PowStep(x: GF, i: nat)
    ensures Mul(Pow(x, i), x) == Pow(x, i + 1)
  {
    hide Mul;
    MulCommutes(Pow(x, i), x);
  }

  method LocatorValue(t: Tables, locator: Poly, x: GF) returns (value: GF)
    requires ValidTables(t) && locator != []
    ensures value == Eval(locator, x)
  {
    hide Mul, Add, ValidPowers, Eval, Pow;
    value := locator[0];
    var power := ONE;
    EvalFirst(locator, x);
    for i := 1 to |locator|
      invariant power == Pow(x, i - 1)
      invariant value == Eval(locator[..i], x)
    {
      PowStep(x, i - 1);
      EvalTerm(locator, x, i);
      power := GfMul(t, power, x);
      if locator[i] != ZERO {
        var product := GfMul(t, locator[i], power);
        value := Add(value, product);
      }
    }
    assert locator[..|locator|] == locator;
  }

  lemma TestIndex(pos: nat)
    requires pos < CODE_BITS
    ensures (127 - (pos % 127)) % 127 == (127 - pos) % 127 < ORDER
  {
  }

  method SearchRoots(t: Tables, locator: Poly) returns (positions: seq<nat>)
    requires ValidTables(t) && locator != []
    ensures positions == RootPositions(locator, CODE_BITS)
  {
    hide Exp, Eval, ValidLog, Generator;
    positions := [];
    for pos := 0 to CODE_BITS
      invariant positions == RootPositions(locator, pos)
    {
      TestIndex(pos);
      var x := t.exp[(127 - (pos % 127)) % 127];
      assert x == TestPoint(pos);
      hide TestPoint;
      var value := LocatorValue(t, locator, x);
      if value == ZERO {
        positions := positions + [pos];
      }
    }
  }

  method FlipPositions(bits: Poly, positions: seq<nat>) returns (fixed: Poly)
    requires forall j | 0 <= j < |positions| :: positions[j] < |bits|
    ensures fixed == FlipAll(bits, positions)
  {
    hide Add;
    fixed := bits;
    for j := 0 to |positions|
      invariant fixed == FlipAll(bits, positions[..j])
    {
      assert positions[..j + 1][..j] == positions[..j];
      fixed := fixed[positions[j] := Add(fixed[positions[j]], ONE)];
    }
    assert positions[..|positions|] == positions;
  }

  /** The last loop: the 64 message bits as a word. */
  method ReadWord(bits: Poly) returns (word: nat)
    requires |bits| == CODE_BITS && Binary(bits)
    ensures word == WordOf(bits[CHECK_BITS..])
  {
    word := 0;
    ghost var m := bits[CHECK_BITS..];
    for i := 0 to HEADER_BITS
      invariant word == WordOf(m[..i])
    {
      assert m[..i + 1][..i] == m[..i] && m[..i + 1][i] == bits[CHECK_BITS + i];
      LowBitOfBit(bits[CHECK_BITS + i]);
      word := 2 * word + (if LowBit(bits[CHECK_BITS + i]) == ONE then 1 else 0);
    }
    assert m[..HEADER_BITS] == m;
  }

  /**
   `bch_decode_header`, total on 127-bit words: it succeeds exactly when some header word encodes to
   within distance ten of the input, and then returns that word (the only one, by `DecodingUnique`).
   */
  method BchDecodeHeader(t: Tables, bits: Poly) returns (ok: bool, word: nat)
    requires ValidTables(t) && |bits| == CODE_BITS && Binary(bits)
    ensures ok <==> exists w :: DecodesTo(bits, w)
    ensures ok ==> DecodesTo(bits, word)
  {
    hide ValidTables, DecodesTo, Locator, RootPositions, FlipAll, Syndromes;
    CorrectIff(bits);
    word := 0;
    var code := bits;
    var syndromes := BchSyndromes(t, bits);
    var zero := AllZeroSyndromes(syndromes);
    if !zero {
      var locator, degree := FindLocator(t, syndromes);
      if degree > T {
        return false, 0;
      }
      var positions := SearchRoots(t, locator[..degree + 1]);
      if |positions| != degree {
        return false, 0;
      }
      RootPositionsAre(Locator(syndromes), CODE_BITS);
      code := FlipPositions(bits, positions);
      FlippedDistance(bits, positions);
      var corrected := BchSyndromes(t, code);
      zero := AllZeroSyndromes(corrected);
      if !zero {
        return false, 0;
      }
    }
    ok := true;
    word := ReadWord(code);
  }
}
