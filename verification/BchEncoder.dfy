/**
 Systematic encoding of a 64-bit header word (`bch_encode_header`) as a function, and the identification
 of its outputs with the words that vanish on all roots.
 */
module BchEncoder {
  import opened GaloisField
  import opened Polynomials
  import opened BchCode

  // ---------------------------------------------------------------------------------------------
  // The bits of a header word, most significant first.

  function Pow2(n: nat): (p: nat)
    ensures p > 0
  {
    if n == 0 then 1 else 2 * Pow2(n - 1)
  }

  const WORDS: nat := 0x1_0000_0000_0000_0000

  function BitOf(b: nat): GF {
    if b % 2 == 1 then ONE else ZERO
  }

  /** `word >> k`. */
  function ShiftRight(word: nat, k: nat): nat
    decreases k
  {
    if k == 0 then word else ShiftRight(word / 2, k - 1)
  }

  /** `header_bit`. */
  function HeaderBit(word: nat, i: nat): GF
    requires i < HEADER_BITS
  {
    BitOf(ShiftRight(word, 63 - i))
  }

  ghost function BitsOf(word: nat, n: nat): (r: Poly)
    ensures |r| == n && Binary(r)
  {
    if n == 0 then [] else BitsOf(word / 2, n - 1) + [BitOf(word)]
  }

  ghost function MessageBits(word: nat): Poly {
    BitsOf(word, HEADER_BITS)
  }

  function WordOf(bits: Poly): nat {
    if bits == [] then 0
    else 2 * WordOf(bits[..|bits| - 1]) + (if bits[|bits| - 1] == ONE then 1 else 0)
  }

  lemma {:induction false} BitAt(word: nat, n: nat, i: nat)
    requires i < n
    ensures BitsOf(word, n)[i] == BitOf(ShiftRight(word, n - 1 - i))
  {
    if i < n - 1 {
      BitAt(word / 2, n - 1, i);
    }
  }

  lemma {:induction false} WordOfBits(word: nat, n: nat)
    requires word < Pow2(n)
    ensures WordOf(BitsOf(word, n)) == word
  {
    if n > 0 {
      WordOfBits(word / 2, n - 1);
      assert BitsOf(word, n)[..n - 1] == BitsOf(word / 2, n - 1);
    }
  }

  lemma {:induction false} BitsOfWord(bits: Poly)
    requires Binary(bits)
    ensures WordOf(bits) < Pow2(|bits|) && BitsOf(WordOf(bits), |bits|) == bits
  {
    if bits != [] {
      var n := |bits| - 1;
      BitsOfWord(bits[..n]);
      assert bits[..n] + [bits[n]] == bits;
      assert IsBit(bits[n]);
    }
  }

  lemma {:induction false} Pow2Adds(a: nat, b: nat)
    ensures Pow2(a + b) == Pow2(a) * Pow2(b)
  {
    if a > 0 {
      Pow2Adds(a - 1, b);
    }
  }

  lemma Pow2Byte()
    ensures Pow2(8) == 0x100
  {
  }

  lemma WordCount()
    ensures Pow2(HEADER_BITS) == WORDS
  {
    hide Pow2;
    Pow2Byte();
    Pow2Adds(8, 8);
    Pow2Adds(16, 16);
    Pow2Adds(32, 32);
  }

  // ---------------------------------------------------------------------------------------------
  // Division by the generator.

  ghost function Zeros(n: nat): (r: Poly)
    ensures |r| == n && AllZero(r)
  {
    seq(n, i => ZERO)
  }

  /** x^shift times the generator, as 127 coefficients. */
  ghost function ShiftedGenerator(shift: nat): (r: Poly)
    requires shift < HEADER_BITS
    ensures |r| == CODE_BITS
  {
    RootCount();
    Zeros(shift) + Generator() + Zeros(CHECK_BITS - shift)
  }

  lemma ShiftedAt(shift: nat, i: nat)
    requires shift < HEADER_BITS && i < CODE_BITS
    ensures |Generator()| == HEADER_BITS
    ensures ShiftedGenerator(shift)[i] == if shift <= i < shift + HEADER_BITS then Generator()[i - shift] else ZERO
  {
    hide Generator;
    RootCount();
    GeneratorLength();
  }

  lemma GeneratorLength()
    ensures |Generator()| == HEADER_BITS
  {
    hide Roots, Product;
    RootCount();
  }

  ghost function ClearOne(work: Poly, pos: nat): (r: Poly)
    requires |work| == CODE_BITS && CHECK_BITS <= pos < CODE_BITS
    ensures |r| == CODE_BITS
  {
    if work[pos] == ZERO then work else Sum(work, ShiftedGenerator(pos - CHECK_BITS))
  }

  /** What is left after clearing the coefficients top-1 down to 63. */
  ghost function Reduce(work: Poly, top: nat): (r: Poly)
    requires |work| == CODE_BITS && CHECK_BITS <= top <= CODE_BITS
    ensures |r| == CODE_BITS
    decreases top
  {
    if top == CHECK_BITS then work else Reduce(ClearOne(work, top - 1), top - 1)
  }

  lemma {:induction false} EvalShift(n: nat, c: Poly, x: GF)
    requires Eval(c, x) == ZERO
    ensures Eval(Zeros(n) + c, x) == ZERO
  {
    if n == 0 {
      assert Zeros(0) + c == c;
    } else {
      EvalShift(n - 1, c, x);
      assert (Zeros(n) + c)[1..] == Zeros(n - 1) + c;
      MulZero(x);
      AddZero(ZERO);
    }
  }

  lemma ShiftedVanishes(shift: nat, e: nat)
    requires shift < HEADER_BITS && IsRoot(e)
    ensures Eval(ShiftedGenerator(shift), Exp(e)) == ZERO
  {
    hide IsRoot;
    GeneratorIsBinary();
    var low := Zeros(shift) + Generator();
    var all := ShiftedGenerator(shift);
    EvalShift(shift, Generator(), Exp(e));
    assert all[..|low|] == low;
    EvalTrim(all, |low|, Exp(e));
  }

  lemma BitSum(a: GF, b: GF)
    requires IsBit(a) && IsBit(b)
    ensures IsBit(Add(a, b)) && (Add(a, b) == ZERO <==> a == b)
  {
    AddCancel(a, b);
    AddZero(a);
    AddZero(b);
  }

  lemma BinarySum(a: Poly, b: Poly)
    requires |a| == |b| && Binary(a) && Binary(b)
    ensures Binary(Sum(a, b))
  {
    forall i | 0 <= i < |a|
      ensures IsBit(Sum(a, b)[i])
    {
      BitSum(a[i], b[i]);
    }
  }

  lemma ClearOneIs(work: Poly, pos: nat)
    requires |work| == CODE_BITS && Binary(work) && CHECK_BITS <= pos < CODE_BITS
    ensures Binary(ClearOne(work, pos)) && ClearOne(work, pos)[pos] == ZERO
    ensures forall i | pos < i < CODE_BITS :: ClearOne(work, pos)[i] == work[i]
    ensures forall e: nat | IsRoot(e) :: Eval(ClearOne(work, pos), Exp(e)) == Eval(work, Exp(e))
  {
    hide IsRoot;
    if work[pos] != ZERO {
      GeneratorIsBinary();
      var g := ShiftedGenerator(pos - CHECK_BITS);
      assert Binary(g);
      BinarySum(work, g);
      assert g[pos] == Generator()[CHECK_BITS];
      AddZero(ONE);
      forall i | pos < i < CODE_BITS
        ensures ClearOne(work, pos)[i] == work[i]
      {
        assert g[i] == ZERO;
        AddZero(work[i]);
      }
      forall e: nat | IsRoot(e)
        ensures Eval(ClearOne(work, pos), Exp(e)) == Eval(work, Exp(e))
      {
        ShiftedVanishes(pos - CHECK_BITS, e);
        EvalSum(work, g, Exp(e));
        AddZero(Eval(work, Exp(e)));
      }
    }
  }

  /** The remainder is binary, has degree below 63 and the same value at every root. */
  lemma {:induction false} ReduceIs(work: Poly, top: nat)
    requires |work| == CODE_BITS && Binary(work) && CHECK_BITS <= top <= CODE_BITS
    requires AllZero(work[top..])
    ensures Binary(Reduce(work, top)) && AllZero(Reduce(work, top)[CHECK_BITS..])
    ensures forall e: nat | IsRoot(e) :: Eval(Reduce(work, top), Exp(e)) == Eval(work, Exp(e))
    decreases top
  {
    hide IsRoot, ClearOne;
    if top > CHECK_BITS {
      var next := ClearOne(work, top - 1);
      ClearOneIs(work, top - 1);
      assert AllZero(next[top - 1..]) by {
        forall i | top - 1 <= i < CODE_BITS
          ensures next[i] == ZERO
        {
          assert i >= top ==> next[i] == work[top..][i - top];
        }
      }
      ReduceIs(next, top - 1);
    }
  }

  // ---------------------------------------------------------------------------------------------
  // Codewords.

  ghost function Unreduced(message: Poly): Poly {
    Zeros(CHECK_BITS) + message
  }

  /** The systematic codeword of a header word: 63 check bits, then the 64 message bits. */
  ghost function Codeword(word: nat): (c: Poly)
    ensures |c| == CODE_BITS
  {
    Reduce(Unreduced(MessageBits(word)), CODE_BITS)[..CHECK_BITS] + MessageBits(word)
  }

  ghost function ZeroExponents(c: Poly): set<nat> {
    set e: nat | e < ORDER && Eval(c, Exp(e)) == ZERO
  }

  /** Squaring carries the twenty syndromes to all 63 roots. */
  lemma CodewordVanishes(c: Poly, e: nat)
    requires IsCodeword(c) && IsRoot(e)
    ensures Eval(c, Exp(e)) == ZERO
  {
    hide IsRoot;
    var S := ZeroExponents(c);
    forall d | d in S
      ensures Double(d) in S
    {
      ExpSquare(d);
      EvalSquares(c, Exp(d));
      BinarySquares(c);
      MulZero(ZERO);
    }
    RootsGenerated(S, e);
  }

  lemma VanishingIsCodeword(c: Poly)
    requires |c| == CODE_BITS && Binary(c)
    requires forall e: nat | IsRoot(e) :: Eval(c, Exp(e)) == ZERO
    ensures IsCodeword(c)
  {
    assert forall s: nat | 1 <= s <= SYNDROMES :: IsRoot(s);
  }

  /** The encoder's output has vanishing syndromes and carries the message in its last 64 bits. */
  lemma CodewordIsCodeword(word: nat)
    ensures IsCodeword(Codeword(word)) && Codeword(word)[CHECK_BITS..] == MessageBits(word)
  {
    hide IsRoot, Reduce;
    var m := MessageBits(word);
    var work := Unreduced(m);
    var rest := Reduce(work, CODE_BITS);
    var c := Codeword(word);
    assert IsBit(ZERO);
    assert Binary(work);
    ReduceIs(work, CODE_BITS);
    assert c == Sum(rest, work) by {
      forall i | 0 <= i < CODE_BITS
        ensures c[i] == Sum(rest, work)[i]
      {
        if i < CHECK_BITS {
          AddZero(rest[i]);
        } else {
          assert rest[i] == rest[CHECK_BITS..][i - CHECK_BITS];
          AddZero(work[i]);
        }
      }
    }
    forall e: nat | IsRoot(e)
      ensures Eval(c, Exp(e)) == ZERO
    {
      EvalSum(rest, work, Exp(e));
      AddZero(Eval(work, Exp(e)));
    }
    BinarySum(rest, work);
    VanishingIsCodeword(c);
  }

  lemma CodewordsAdd(a: Poly, b: Poly)
    requires IsCodeword(a) && IsCodeword(b)
    ensures IsCodeword(Sum(a, b))
  {
    BinarySum(a, b);
    forall s | 1 <= s <= SYNDROMES
      ensures Eval(Sum(a, b), Exp(s)) == ZERO
    {
      EvalSum(a, b, Exp(s));
      AddZero(ZERO);
    }
  }

  /** Codewords with the same message bits are equal. */
  lemma SystematicUnique(a: Poly, b: Poly)
    requires IsCodeword(a) && IsCodeword(b) && a[CHECK_BITS..] == b[CHECK_BITS..]
    ensures a == b
  {
    hide IsRoot;
    var d := Sum(a, b);
    CodewordsAdd(a, b);
    assert AllZero(d[CHECK_BITS..]) by {
      forall i | CHECK_BITS <= i < CODE_BITS
        ensures d[i] == ZERO
      {
        assert a[i] == a[CHECK_BITS..][i - CHECK_BITS] == b[CHECK_BITS..][i - CHECK_BITS];
        AddZero(a[i]);
      }
    }
    forall e: nat | IsRoot(e)
      ensures Eval(d[..CHECK_BITS], Exp(e)) == ZERO
    {
      CodewordVanishes(d, e);
      EvalTrim(d, CHECK_BITS, Exp(e));
    }
    VanishesOnRoots(d[..CHECK_BITS]);
    forall i | 0 <= i < |d|
      ensures d[i] == ZERO
    {
      assert d[i] == if i < CHECK_BITS then d[..CHECK_BITS][i] else d[CHECK_BITS..][i - CHECK_BITS];
    }
    SumIsZero(a, b);
  }

  /** A 127-bit word has vanishing syndromes exactly when it is the encoding of its last 64 bits. */
  lemma CodewordIffEncoded(c: Poly)
    requires |c| == CODE_BITS && Binary(c)
    ensures IsCodeword(c) <==> c == Codeword(WordOf(c[CHECK_BITS..]))
    ensures WordOf(c[CHECK_BITS..]) < WORDS
  {
    var word := WordOf(c[CHECK_BITS..]);
    WordCount();
    BitsOfWord(c[CHECK_BITS..]);
    CodewordIsCodeword(word);
    if IsCodeword(c) {
      SystematicUnique(c, Codeword(word));
    }
  }

  /** Different header words have different codewords. */
  lemma CodewordInjective(v: nat, w: nat)
    requires v < WORDS && w < WORDS && Codeword(v) == Codeword(w)
    ensures v == w
  {
    WordCount();
    CodewordIsCodeword(v);
    CodewordIsCodeword(w);
    WordOfBits(v, HEADER_BITS);
    WordOfBits(w, HEADER_BITS);
  }

  lemma {:induction false} ShiftDivides(word: nat, k: nat)
    ensures ShiftRight(word, k) == word / Pow2(k)
  {
    if k > 0 {
      ShiftDivides(word / 2, k - 1);
      DivideTwice(word, Pow2(k - 1));
    }
  }

  lemma DivideTwice(a: nat, m: nat)
    requires m > 0
    ensures a / 2 / m == a / (2 * m)
  {
    var q := a / 2 / m;
    assert a / 2 == q * m + a / 2 % m;
    assert a == 2 * (q * m) + (2 * (a / 2 % m) + a % 2);
    assert 2 * (q * m) == q * (2 * m);
    QuotientIs(a, q, 2 * (a / 2 % m) + a % 2, 2 * m);
  }

  lemma QuotientIs(a: nat, q: nat, r: nat, m: nat)
    requires m > 0 && r < m && a == q * m + r
    ensures a / m == q
  {
    var p, s := a / m, a % m;
    assert a == p * m + s;
    if p > q {
      Scales(m, q + 1, p);
    }
    if p < q {
      Scales(m, p + 1, q);
    }
  }

  lemma Scales(m: nat, a: nat, b: nat)
    requires a <= b
    ensures a * m <= b * m
  {
    assert b * m == a * m + (b - a) * m;
  }

  /** The last 64 places of a codeword are the bits of the word, most significant first. */
  lemma MessageIsWord(word: nat, i: nat)
    requires i < HEADER_BITS
    ensures Codeword(word)[CHECK_BITS + i] == ONE <==> word / Pow2(63 - i) % 2 == 1
  {
    hide Codeword, Pow2, ShiftRight;
    CodewordIsCodeword(word);
    BitAt(word, HEADER_BITS, i);
    assert Codeword(word)[CHECK_BITS..][i] == Codeword(word)[CHECK_BITS + i];
    ShiftDivides(word, 63 - i);
  }
}
