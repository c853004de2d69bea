/**
 The decoder as a function, proved against the code: correction succeeds exactly on the words within
 distance 10 of a codeword, and returns that codeword.
 */
module BchDecoder {
  import opened GaloisField
  import opened Polynomials
  import opened BchCode
  import opened BchEncoder
  import opened BchDistance
  import opened BerlekampMassey
  import opened Outcomes
  import opened Sequences

  // ---------------------------------------------------------------------------------------------
  // The roots of the locator.

  /** The point at which position `pos` is tested: the inverse of its locator. */
  function TestPoint(pos: nat): GF
    requires pos < CODE_BITS
  {
    Exp((127 - pos) % 127)
  }

  /** The positions below `n` whose test point is a root of `c`. */
  ghost function RootPositions(c: Poly, n: nat): seq<nat>
    requires n <= CODE_BITS
  {
    if n == 0 then []
    else RootPositions(c, n - 1) + (if Eval(c, TestPoint(n - 1)) == ZERO then [n - 1] else [])
  }

  lemma TestPointInverts(pos: nat)
    requires pos < CODE_BITS
    ensures Mul(Exp(pos), TestPoint(pos)) == ONE
  {
    hide Exp, Mul;
    MulExp(pos, (127 - pos) % 127);
    ExpMod(pos + (127 - pos) % 127);
    ExpOrder();
    assert Exp(0) == ONE by { PowExp(0, 0); }
    assert pos + (127 - pos) % 127 == if pos == 0 then 0 else 127;
  }

  lemma TestPointInjective(p: nat, q: nat)
    requires p < CODE_BITS && q < CODE_BITS && TestPoint(p) == TestPoint(q)
    ensures p == q
  {
    hide Exp;
    ExpInjective((127 - p) % 127, (127 - q) % 127);
  }

  /** x^n c(1/x) is the reversed polynomial, up to one factor x. */
  lemma {:induction false} ReversedIsEval(c: Poly, n: nat, x: GF, y: GF)
    requires n <= |c| && Mul(x, y) == ONE
    ensures Mul(Pow(x, n), Eval(c[..n], y)) == Mul(x, Reversed(c, n, x))
  {
    hide Mul, Add;
    if n == 0 {
      assert c[..0] == [];
      MulZero(x);
      MulZero(Pow(x, 0));
    } else {
      var m := n - 1;
      var e, r, d := Eval(c[..m], y), Reversed(c, m, x), c[m];
      assert c[..n] == c[..m] + [d];
      EvalSnoc(c[..m], d, y);
      ReversedIsEval(c, m, x, y);
      MulDistributes(Pow(x, n), e, Mul(d, Pow(y, m)));
      assert Mul(Pow(x, n), e) == Mul(x, Mul(r, x)) by {
        MulAssociates(x, Pow(x, m), e);
        MulCommutes(r, x);
      }
      assert Mul(Pow(x, n), Mul(d, Pow(y, m))) == Mul(x, d) by {
        PowersCancel(x, y, m);
        MulCommutes(d, Pow(y, m));
        MulAssociates(Pow(x, n), Pow(y, m), d);
        MulAssociates(x, Pow(x, m), Pow(y, m));
        MulOne(x);
      }
      MulDistributes(x, Mul(r, x), d);
    }
  }

  lemma {:induction false} PowersCancel(x: GF, y: GF, m: nat)
    requires Mul(x, y) == ONE
    ensures Mul(Pow(x, m), Pow(y, m)) == ONE
  {
    hide Mul;
    if m == 0 {
      MulOne(ONE);
    } else {
      var p, q := Pow(x, m - 1), Pow(y, m - 1);
      PowersCancel(x, y, m - 1);
      MulAssociates(x, p, Mul(y, q));
      MulAssociates(p, y, q);
      MulCommutes(p, y);
      MulAssociates(y, p, q);
      MulOne(y);
    }
  }

  lemma {:induction false} PowNonzero(x: GF, n: nat)
    requires x != ZERO
    ensures Pow(x, n) != ZERO
  {
    if n > 0 {
      PowNonzero(x, n - 1);
      MulNonzero(x, Pow(x, n - 1));
    }
  }

  lemma ReversedRoot(c: Poly, n: nat, pos: nat)
    requires n <= |c| && pos < CODE_BITS && Reversed(c, n, Exp(pos)) == ZERO
    ensures Eval(c[..n], TestPoint(pos)) == ZERO
  {
    hide Mul, Exp, Eval, Pow, Reversed;
    var x := Exp(pos);
    TestPointInverts(pos);
    ReversedIsEval(c, n, x, TestPoint(pos));
    MulZero(x);
    ExpNonzero(pos);
    PowNonzero(x, n);
    MulNonzero(Pow(x, n), Eval(c[..n], TestPoint(pos)));
  }

  ghost function TestPoints(ps: seq<nat>): (r: seq<GF>)
    requires forall i | 0 <= i < |ps| :: ps[i] < CODE_BITS
    ensures |r| == |ps|
  {
    seq(|ps|, i requires 0 <= i < |ps| => TestPoint(ps[i]))
  }

  lemma TestPointsDistinct(ps: seq<nat>)
    requires Distinct(ps) && forall i | 0 <= i < |ps| :: ps[i] < CODE_BITS
    ensures Distinct(TestPoints(ps))
  {
    hide TestPoint;
    forall i, j | 0 <= i < j < |ps|
      ensures TestPoints(ps)[i] != TestPoints(ps)[j]
    {
      if TestPoint(ps[i]) == TestPoint(ps[j]) {
        TestPointInjective(ps[i], ps[j]);
      }
    }
  }

  /** A polynomial with constant term 1 has at most as many root positions as its degree. */
  lemma RootPositionBound(c: Poly, ps: seq<nat>)
    requires c != [] && c[0] == ONE && Distinct(ps)
    requires forall i | 0 <= i < |ps| :: ps[i] < CODE_BITS && Eval(c, TestPoint(ps[i])) == ZERO
    ensures |ps| < |c|
  {
    hide TestPoint, Eval;
    if |c| <= |ps| {
      TestPointsDistinct(ps);
      RootBound(c, TestPoints(ps));
    }
  }

  // ---------------------------------------------------------------------------------------------
  // Completeness: with at most ten errors the locator's root positions are the error positions.

  ghost function Locator(s: seq<GF>): (c: Poly)
    requires |s| == SYNDROMES
    ensures c != []
  {
    RunInvariant(s, SYNDROMES);
    var st := Run(s, SYNDROMES);
    st.locator[..st.degree + 1]
  }

  ghost function ErrorSyndromes(a: Poly, b: Poly): (s: seq<GF>)
    requires |a| == |b|
    ensures |s| == SYNDROMES
  {
    PowerSums(Locators(Differences(a, b)), SYNDROMES)
  }

  lemma LocatorVanishes(a: Poly, b: Poly)
    requires |a| == |b| == CODE_BITS && Distance(a, b) <= 10
    ensures var c := Locator(ErrorSyndromes(a, b)); 
            && c[0] == ONE && |c| <= Distance(a, b) + 1
            && forall p: nat | p in Differences(a, b) :: p < CODE_BITS && Eval(c, TestPoint(p)) == ZERO
  {
    hide Exp, Eval, TestPoint, Reversed, Mul, Add, Discrepancy, Differences, PowerSum;
    var ps := Differences(a, b);
    var xs := Locators(ps);
    var s := ErrorSyndromes(a, b);
    var st := Run(s, SYNDROMES);
    ErrorLocators(a, b);
    forall j | 0 <= j < |xs|
      ensures xs[j] != ZERO
    {
      ExpNonzero(ps[j]);
    }
    RunInvariant(s, SYNDROMES);
    DegreeBound(xs, SYNDROMES);
    hide Run;
    GeneratesAll(st.locator, st.degree, xs, SYNDROMES);
    forall p: nat | p in ps
      ensures p < CODE_BITS && Eval(Locator(s), TestPoint(p)) == ZERO
    {
      var j :| 0 <= j < |ps| && ps[j] == p;
      assert xs[j] == Exp(p);
      ReversedRoot(st.locator, st.degree + 1, p);
    }
  }

  lemma {:induction false} PositionsAgree(c: Poly, a: Poly, b: Poly, n: nat)
    requires |a| == |b| == CODE_BITS && n <= CODE_BITS
    requires forall p: nat | p < CODE_BITS :: Eval(c, TestPoint(p)) == ZERO <==> a[p] != b[p]
    ensures RootPositions(c, n) == Differences(a[..n], b[..n])
  {
    hide Eval, TestPoint;
    if n > 0 {
      PositionsAgree(c, a, b, n - 1);
      assert a[..n][..n - 1] == a[..n - 1] && b[..n][..n - 1] == b[..n - 1];
    }
  }

  /** With at most ten errors, the locator has one root position per error and no others. */
  lemma LocatorFindsErrors(a: Poly, b: Poly)
    requires |a| == |b| == CODE_BITS && Distance(a, b) <= 10
    ensures |Locator(ErrorSyndromes(a, b))| == Distance(a, b) + 1
    ensures RootPositions(Locator(ErrorSyndromes(a, b)), CODE_BITS) == Differences(a, b)
  {
    hide Eval, TestPoint, Differences, Locator, ErrorSyndromes;
    var ps := Differences(a, b);
    var c := Locator(ErrorSyndromes(a, b));
    LocatorVanishes(a, b);
    DifferencesAre(a, b);
    assert forall i | 0 <= i < |ps| :: ps[i] in ps;
    RootPositionBound(c, ps);
    forall p: nat | p < CODE_BITS
      ensures Eval(c, TestPoint(p)) == ZERO <==> a[p] != b[p]
    {
      if Eval(c, TestPoint(p)) == ZERO && p !in ps {
        RootPositionBound(c, ps + [p]);
      }
      assert p in ps <==> a[p] != b[p];
    }
    PositionsAgree(c, a, b, CODE_BITS);
    assert a[..CODE_BITS] == a && b[..CODE_BITS] == b;
  }

  // ---------------------------------------------------------------------------------------------
  // Flipping bits.

  ghost function Flip(bits: Poly, p: nat): (r: Poly)
    ensures |r| == |bits|
  {
    if p < |bits| then bits[p := Add(bits[p], ONE)] else bits
  }

  ghost function FlipAll(bits: Poly, ps: seq<nat>): (r: Poly)
    ensures |r| == |bits|
  {
    if ps == [] then bits else Flip(FlipAll(bits, ps[..|ps| - 1]), ps[|ps| - 1])
  }

  lemma {:induction false} FlipAllAt(bits: Poly, ps: seq<nat>, i: nat)
    requires Distinct(ps) && i < |bits|
    ensures FlipAll(bits, ps)[i] == if i in ps then Add(bits[i], ONE) else bits[i]
  {
    hide Add;
    if ps != [] {
      var n := |ps| - 1;
      FlipAllAt(bits, ps[..n], i);
      assert i in ps <==> i in ps[..n] || i == ps[n];
      if i in ps[..n] {
        var j :| 0 <= j < n && ps[..n][j] == i;
        assert ps[j] != ps[n];
      }
    }
  }

  lemma FlipBit(a: GF)
    requires IsBit(a)
    ensures IsBit(Add(a, ONE)) && Add(a, ONE) != a
    ensures forall b | IsBit(b) && b != a :: b == Add(a, ONE)
  {
    AddZero(ONE);
  }

  /** Flipping the positions where a binary word differs from another yields the other. */
  lemma FlipDifferences(a: Poly, b: Poly)
    requires |a| == |b| && Binary(a) && Binary(b)
    ensures FlipAll(b, Differences(a, b)) == a
  {
    hide Differences, FlipAll, Add;
    var ps := Differences(a, b);
    DifferencesAre(a, b);
    assert forall j | 0 <= j < |ps| :: ps[j] in ps;
    forall i | 0 <= i < |a|
      ensures FlipAll(b, ps)[i] == a[i]
    {
      FlipAllAt(b, ps, i);
      FlipBit(b[i]);
      assert IsBit(a[i]);
      assert i in ps <==> a[i] != b[i];
    }
  }

  /** Flipping k distinct positions of a binary word moves it by distance k. */
  lemma FlippedDistance(bits: Poly, ps: seq<nat>)
    requires Binary(bits) && Distinct(ps) && forall j | 0 <= j < |ps| :: ps[j] < |bits|
    ensures Binary(FlipAll(bits, ps)) && Distance(FlipAll(bits, ps), bits) == |ps|
  {
    hide Differences, FlipAll, Add;
    var fixed := FlipAll(bits, ps);
    forall i | 0 <= i < |bits|
      ensures IsBit(fixed[i]) && (fixed[i] != bits[i] <==> i in ps)
    {
      FlipAllAt(bits, ps, i);
      FlipBit(bits[i]);
    }
    DifferencesAre(fixed, bits);
    DistinctCardinality(ps);
    DistinctCardinality(Differences(fixed, bits));
    assert forall p | p in ps :: p < |bits|;
    assert Elements(ps) == Elements(Differences(fixed, bits));
  }

  lemma {:induction false} RootPositionsAre(c: Poly, n: nat)
    requires n <= CODE_BITS
    ensures Distinct(RootPositions(c, n))
    ensures forall j | 0 <= j < |RootPositions(c, n)| :: RootPositions(c, n)[j] < n
  {
    hide Eval, TestPoint;
    if n > 0 {
      RootPositionsAre(c, n - 1);
    }
  }

  // ---------------------------------------------------------------------------------------------
  // The decoder as a function, and what it decodes.

  ghost function Syndromes(bits: Poly): (s: seq<GF>)
    ensures |s| == SYNDROMES
  {
    seq(SYNDROMES, k requires 0 <= k < SYNDROMES => Eval(bits, Exp(k + 1)))
  }

  /** The corrected word, or nothing when the decoder gives up. */
  ghost function Correct(bits: Poly): Option<Poly>
    requires |bits| == CODE_BITS
  {
    if AllZero(Syndromes(bits)) then Some(bits)
    else
      var c := Locator(Syndromes(bits));
      var ps := RootPositions(c, CODE_BITS);
      if |c| - 1 > T || |ps| != |c| - 1 then None
      else if AllZero(Syndromes(FlipAll(bits, ps))) then Some(FlipAll(bits, ps))
      else None
  }

  ghost predicate DecodesTo(bits: Poly, word: nat)
    requires |bits| == CODE_BITS
  {
    word < WORDS && Distance(Codeword(word), bits) <= 10
  }

  lemma SyndromesVanish(bits: Poly)
    requires |bits| == CODE_BITS && Binary(bits)
    ensures AllZero(Syndromes(bits)) <==> IsCodeword(bits)
  {
    hide Eval, Exp;
    if AllZero(Syndromes(bits)) {
      forall s | 1 <= s <= SYNDROMES
        ensures Eval(bits, Exp(s)) == ZERO
      {
        assert Syndromes(bits)[s - 1] == ZERO;
      }
    }
  }

  /** The syndromes of a word depend only on where it differs from a codeword. */
  lemma SyndromesOfErrors(c: Poly, bits: Poly)
    requires IsCodeword(c) && |bits| == CODE_BITS && Binary(bits)
    ensures Syndromes(bits) == ErrorSyndromes(c, bits)
  {
    hide Eval, Exp, Add, Differences, PowerSum;
    forall k | 0 <= k < SYNDROMES
      ensures Syndromes(bits)[k] == ErrorSyndromes(c, bits)[k]
    {
      SyndromesArePowerSums(c, bits, k + 1);
      EvalSum(c, bits, Exp(k + 1));
      AddZero(Eval(bits, Exp(k + 1)));
    }
  }

  /** Ten or fewer flipped bits of any codeword are corrected. */
  lemma CorrectsTenErrors(bits: Poly, word: nat)
    requires |bits| == CODE_BITS && Binary(bits) && DecodesTo(bits, word)
    ensures Correct(bits) == Some(Codeword(word))
  {
    hide Eval, Exp, Differences, Codeword, Locator, RootPositions, FlipAll, Syndromes, ErrorSyndromes;
    var c := Codeword(word);
    CodewordIsCodeword(word);
    SyndromesVanish(bits);
    SyndromesVanish(c);
    if IsCodeword(bits) {
      forall s | 1 <= s <= SYNDROMES
        ensures Eval(c, Exp(s)) == Eval(bits, Exp(s))
      {
      }
      SyndromesSeparate(c, bits);
    } else {
      SyndromesOfErrors(c, bits);
      LocatorFindsErrors(c, bits);
      FlipDifferences(c, bits);
    }
  }

  /** Whatever the decoder accepts is a codeword within distance ten of the input. */
  lemma CorrectIsSound(bits: Poly)
    requires |bits| == CODE_BITS && Binary(bits) && Correct(bits).Some?
    ensures var c := Correct(bits).value;
            |c| == CODE_BITS && IsCodeword(c) && Distance(c, bits) <= 10
  {
    hide Eval, Exp, Differences, Locator, RootPositions, FlipAll, Syndromes;
    SyndromesVanish(bits);
    if IsCodeword(bits) {
      DistanceZero(bits, bits);
    } else {
      var ps := RootPositions(Locator(Syndromes(bits)), CODE_BITS);
      RootPositionsAre(Locator(Syndromes(bits)), CODE_BITS);
      FlippedDistance(bits, ps);
      SyndromesVanish(FlipAll(bits, ps));
    }
  }

  /** Bounded-distance decoding, exactly: success iff some header word encodes to within distance ten. */
  lemma CorrectIff(bits: Poly)
    requires |bits| == CODE_BITS && Binary(bits)
    ensures Correct(bits).Some? <==> exists word :: DecodesTo(bits, word)
    ensures Correct(bits).Some? ==>
              && |Correct(bits).value| == CODE_BITS
              && DecodesTo(bits, WordOf(Correct(bits).value[CHECK_BITS..]))
  {
    hide Correct, Codeword, Distance, IsCodeword;
    if Correct(bits).Some? {
      CorrectIsSound(bits);
      CodewordBinary(Correct(bits).value);
      CodewordIffEncoded(Correct(bits).value);
      assert DecodesTo(bits, WordOf(Correct(bits).value[CHECK_BITS..]));
    }
    forall word | DecodesTo(bits, word)
      ensures Correct(bits).Some?
    {
      CorrectsTenErrors(bits, word);
    }
  }

  lemma CodewordBinary(c: Poly)
    requires IsCodeword(c)
    ensures |c| == CODE_BITS && Binary(c)
  {
  }
}
