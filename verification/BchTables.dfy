/**
 `bch_tables`: the exponent and logarithm tables and the generator polynomial, computed as the
 source computes them, and the table-driven `gf_mul` and `gf_div`.
 */
module BchTables {
  import opened GaloisField
  import opened Polynomials
  import opened BchCode
  import opened Sorting
  import opened Sequences

  datatype Tables = Tables(exp: seq<GF>, log: seq<int>, generator: Poly)

  datatype BuildResult = Built(tables: Tables) | Failed(message: string)

  /** A field element as a table index. */
  function Index(a: GF): (i: nat)
    ensures i < 128
  {
    a.bits as nat
  }

  ghost predicate ValidExp(exp: seq<GF>) {
    |exp| == ORDER && forall i | 0 <= i < ORDER :: exp[i] == Exp(i)
  }

  ghost predicate ValidLog(log: seq<int>) {
    |log| == 128 && log[0] == -1 && forall a: GF | a != ZERO :: log[Index(a)] == Log(a)
  }

  ghost predicate ValidPowers(t: Tables) {
    ValidExp(t.exp) && ValidLog(t.log)
  }

  ghost predicate ValidTables(t: Tables) {
    ValidPowers(t) && t.generator == Generator()
  }

  /** The remainder of C++, which takes the sign of `a`. */
  function Remainder(a: int, b: int): int
    requires b > 0
  {
    if a >= 0 then a % b else -((-a) % b)
  }

  function TableLog(t: Tables, a: GF): (i: int)
    requires ValidPowers(t) && a != ZERO
    ensures i == Log(a) && 0 <= i < ORDER
  {
    t.log[Index(a)]
  }

  method GfMul(t: Tables, a: GF, b: GF) returns (r: GF)
    requires ValidPowers(t)
    ensures r == Mul(a, b)
  {
    hide Exp, TableLog, IsLog, ValidLog;
    if a == ZERO || b == ZERO {
      return ZERO;
    }
    var sum := TableLog(t, a) + TableLog(t, b);
    r := t.exp[sum % 127];
  }

  datatype Quotient = Quotient(value: GF) | DivideByZero

  /** `gf_div`: zero divided by anything is zero; a nonzero value divided by zero is the exception. */
  method GfDiv(t: Tables, a: GF, b: GF) returns (r: Quotient)
    requires ValidPowers(t)
    ensures r.DivideByZero? <==> a != ZERO && b == ZERO
    ensures r.Quotient? ==> if b == ZERO then r.value == ZERO else Mul(r.value, b) == a
    ensures r.Quotient? && b != ZERO ==> r.value == Mul(a, Inv(b))
  {
    hide Exp, Mul, Inv, TableLog, IsLog, ValidLog;
    if a == ZERO {
      MulZero(Inv(b));
      MulZero(b);
      return Quotient(ZERO);
    }
    if b == ZERO {
      return DivideByZero;
    }
    var diff := TableLog(t, a) - TableLog(t, b);
    diff := Remainder(diff, 127);
    if diff < 0 {
      diff := diff + ORDER;
    }
    DivideLogs(a, b);
    QuotientTimes(a, b);
    r := Quotient(t.exp[diff]);
  }

  lemma QuotientTimes(a: GF, b: GF)
    requires b != ZERO
    ensures Mul(Mul(a, Inv(b)), b) == a
  {
    hide Mul, Inv;
    MulAssociates(a, Inv(b), b);
    MulInverse(b);
    MulCommutes(b, Inv(b));
    MulCommutes(a, ONE);
    MulOne(a);
  }

  lemma DivideLogs(a: GF, b: GF)
    requires a != ZERO && b != ZERO
    ensures Mul(a, Inv(b)) == Exp(if Log(a) >= Log(b) then Log(a) - Log(b) else Log(a) + ORDER - Log(b))
  {
    var i, j := Log(a), Log(b);
    if j == 0 {
      assert Inv(b) == Exp(0);
      MulExp(i, 0);
    } else {
      assert Inv(b) == Exp(ORDER - j);
      MulExp(i, ORDER - j);
      if i >= j {
        ExpPeriodic(i - j);
      }
    }
  }

  /** Any duplicate-free list of the root exponents has 63 of them. */
  lemma RootExponentCount(exponents: seq<nat>)
    requires Distinct(exponents) && forall e: nat :: e in exponents <==> IsRoot(e)
    ensures |exponents| == CHECK_BITS
  {
    hide IsRoot, RootList;
    RootCount();
    RootListAre(ORDER);
    forall e: nat | IsRoot(e)
      ensures e in Roots()
    {
      RootBounded(e);
    }
    DistinctCardinality(exponents);
    DistinctCardinality(Roots());
    assert Elements(exponents) == Elements(Roots());
  }

  lemma ClosureHasAllRoots(exponents: seq<nat>, e: nat)
    requires forall r | 1 <= r <= SYNDROMES :: r in exponents
    requires forall d | d in exponents :: d < ORDER && Double(d) in exponents
    requires IsRoot(e)
    ensures e in exponents
  {
    hide IsRoot;
    RootsGenerated(Elements(exponents), e);
  }

  function DoubleTimes(e: nat, i: nat): (d: nat)
    requires e < ORDER
    ensures d < ORDER
  {
    if i == 0 then e else Double(DoubleTimes(e, i - 1))
  }

  lemma DoubleTimesStep(e: nat, i: nat, m: nat)
    requires e < ORDER && DoubleTimes(e, i) == m % 127
    ensures DoubleTimes(e, i + 1) == (2 * m) % 127
  {
    ModDouble(m);
  }

  lemma SevenDoublings(e: nat)
    requires e < ORDER
    ensures DoubleTimes(e, 7) == e
  {
    hide DoubleTimes;
    assert DoubleTimes(e, 0) == e by { DoubleTimesZero(e); }
    DoubleTimesStep(e, 0, e);
    DoubleTimesStep(e, 1, 2 * e);
    DoubleTimesStep(e, 2, 4 * e);
    DoubleTimesStep(e, 3, 8 * e);
    DoubleTimesStep(e, 4, 16 * e);
    DoubleTimesStep(e, 5, 32 * e);
    DoubleTimesStep(e, 6, 64 * e);
  }

  lemma DoubleTimesZero(e: nat)
    requires e < ORDER
    ensures DoubleTimes(e, 0) == e
  {
  }

  ghost predicate Marks(seen: seq<bool>, exponents: seq<nat>) {
    forall e: nat :: e in exponents <==> e < |seen| && seen[e]
  }

  /** Duplicate-free root exponents whose doubles are listed too, except perhaps `open`. */
  ghost predicate Closing(exponents: seq<nat>, open: nat) {
    && Distinct(exponents)
    && forall e | e in exponents :: IsRoot(e) && e < ORDER && (Double(e) in exponents || Double(e) == open)
  }

  ghost predicate Closed(exponents: seq<nat>) {
    Distinct(exponents) && forall e | e in exponents :: IsRoot(e) && e < ORDER && Double(e) in exponents
  }

  lemma ClosingStep(seen: seq<bool>, exponents: seq<nat>, e: nat)
    requires Closing(exponents, e) && IsRoot(e) && e < ORDER == |seen| && Marks(seen, exponents)
    ensures seen[e] <==> e in exponents
    ensures IsRoot(Double(e))
    ensures if seen[e] then Closing(exponents, Double(e))
            else Closing(exponents + [e], Double(e)) && Marks(seen[e := true], exponents + [e])
  {
    RootDoubles(e);
    hide IsRoot;
  }

  /** The inner loop: `root` and its doubles, those not seen before appended. */
  method AppendDoubles(seenBefore: seq<bool>, before: seq<nat>, root: nat)
      returns (seen: seq<bool>, exponents: seq<nat>)
    requires |seenBefore| == ORDER && 1 <= root <= SYNDROMES
    requires Marks(seenBefore, before) && Closing(before, root)
    ensures |seen| == ORDER && Marks(seen, exponents) && Closing(exponents, root)
    ensures root in exponents && forall e | e in before :: e in exponents
  {
    seen, exponents := seenBefore, before;
    var exponent: nat := root % 127;
    assert IsRoot(root);
    hide IsRoot, Closing, Marks;
    for i := 0 to 7
      invariant |seen| == ORDER && exponent < ORDER && IsRoot(exponent)
      invariant exponent == DoubleTimes(root, i)
      invariant Marks(seen, exponents) && Closing(exponents, exponent)
      invariant if i == 0 then exponent == root else root in exponents
      invariant forall e | e in before :: e in exponents
    {
      ClosingStep(seen, exponents, exponent);
      if !seen[exponent] {
        seen, exponents := seen[exponent := true], exponents + [exponent];
      }
      exponent := (exponent * 2) % 127;
    }
    SevenDoublings(root);
  }

  /** Every root exponent once, in some order. */
  method RootExponents() returns (exponents: seq<nat>)
    ensures |exponents| == CHECK_BITS && Distinct(exponents)
    ensures forall e: nat :: e in exponents <==> IsRoot(e)
  {
    hide IsRoot;
    var seen := seq(ORDER, _ => false);
    exponents := [];
    for root := 1 to SYNDROMES + 1
      invariant |seen| == ORDER && Marks(seen, exponents)
      invariant Closed(exponents)
      invariant forall r | 1 <= r < root :: r in exponents
    {
      seen, exponents := AppendDoubles(seen, exponents, root);
    }
    forall e: nat
      ensures e in exponents <==> IsRoot(e)
    {
      if IsRoot(e) {
        ClosureHasAllRoots(exponents, e);
      }
    }
    RootExponentCount(exponents);
  }

  ghost predicate LogFilled(table: seq<int>, n: nat) {
    |table| == 128 && table[0] == -1 && forall j: nat | j < n :: table[Index(Exp(j))] == j
  }

  lemma LogFilledStep(table: seq<int>, i: nat)
    requires |table| == 128 && LogFilled(table, i) && i < ORDER
    ensures LogFilled(table[Index(Exp(i)) := i], i + 1)
  {
    hide Exp, Index;
    FreshPower(i);
  }

  lemma LogEmpty(table: seq<int>)
    requires table == seq(128, _ => -1)
    ensures LogFilled(table, 0)
  {
  }

  /** The exponent and logarithm tables. The check that the powers return to 1 always passes. */
  method PowerTables() returns (exp: seq<GF>, log: seq<int>, last: GF)
    ensures ValidExp(exp) && ValidLog(log) && last == ONE
  {
    exp := [];
    log := seq(128, _ => -1);
    LogEmpty(log);
    last := ONE;
    ExpNext(0);
    ExpOrder();
    hide Index, IsLog, Xtime, LogFilled, ValidLog, Exp;
    for i := 0 to ORDER
      invariant |exp| == i && |log| == 128 && last == Exp(i) && LogFilled(log, i)
      invariant forall j | 0 <= j < i :: exp[j] == Exp(j)
    {
      LogFilledStep(log, i);
      exp := exp + [last];
      log := log[Index(last) := i];
      ExpNext(i);
      last := Xtime(last);
    }
    LogTableFilled(log);
  }

  lemma ExpNext(i: nat)
    ensures Exp(0) == ONE && Exp(i + 1) == Xtime(Exp(i))
  {
    hide Xtime;
  }

  lemma FreshPower(i: nat)
    requires i < ORDER
    ensures Index(Exp(i)) != 0
    ensures forall j: nat | j < i :: Index(Exp(j)) != Index(Exp(i))
  {
    hide Exp;
    ExpNonzero(i);
    if Index(Exp(i)) == 0 {
      BitsInjective(Exp(i), ZERO);
    }
    forall j: nat | j < i
      ensures Index(Exp(j)) != Index(Exp(i))
    {
      if Index(Exp(j)) == Index(Exp(i)) {
        BitsInjective(Exp(i), Exp(j));
        ExpInjective(i, j);
      }
    }
  }

  lemma BitsInjective(a: GF, b: GF)
    requires Index(a) == Index(b)
    ensures a == b
  {
    assert (a.bits as nat) as bv7 == (b.bits as nat) as bv7;
  }

  lemma LogTableFilled(log: seq<int>)
    requires LogFilled(log, ORDER)
    ensures ValidLog(log)
  {
    hide Exp;
    forall a: GF | a != ZERO
      ensures log[Index(a)] == Log(a)
    {
      assert Exp(Log(a)) == a;
    }
  }

  lemma MulLinearAt(poly: Poly, root: GF, i: nat)
    requires i <= |poly|
    ensures MulLinear(poly, root)[i]
         == if i == |poly| then (if i == 0 then ZERO else poly[i - 1])
            else if i == 0 then Mul(poly[0], root)
            else Add(poly[i - 1], Mul(poly[i], root))
  {
    hide Mul, Add;
    if i < |poly| {
      AddZero(Mul(poly[i], root));
      if i > 0 {
        AddCommutes(Mul(poly[i], root), poly[i - 1]);
      }
    } else if i > 0 {
      AddZero(poly[i - 1]);
    } else {
      AddZero(ZERO);
    }
  }

  /** The inner loops of the generator computation: one more linear factor. */
  method TimesLinear(t: Tables, poly: Poly, root: GF) returns (next: Poly)
    requires ValidPowers(t)
    ensures next == MulLinear(poly, root)
  {
    hide ValidPowers, Mul, Add, MulLinear;
    ghost var result := MulLinear(poly, root);
    next := seq(|poly| + 1, _ => ZERO);
    for i := 0 to |poly|
      invariant |next| == |poly| + 1
      invariant next[..i] == result[..i]
      invariant next[i] == (if i == 0 then ZERO else poly[i - 1])
      invariant forall j | i < j < |next| :: next[j] == ZERO
    {
      var product := GfMul(t, poly[i], root);
      MulLinearAt(poly, root, i);
      AddZero(product);
      AddZero(poly[i]);
      next := next[i := Add(next[i], product)];
      next := next[i + 1 := Add(next[i + 1], poly[i])];
    }
    MulLinearAt(poly, root, |poly|);
  }

  method ProductOf(t: Tables, exponents: seq<nat>) returns (poly: Poly)
    requires ValidPowers(t) && forall e | e in exponents :: e < ORDER
    ensures poly == Product(exponents)
  {
    poly := [ONE];
    for k := 0 to |exponents|
      invariant poly == Product(exponents[..k])
    {
      assert exponents[k] in exponents;
      assert exponents[..k + 1][..k] == exponents[..k];
      poly := TimesLinear(t, poly, t.exp[exponents[k]]);
    }
    assert exponents[..|exponents|] == exponents;
  }

  /** The product does not depend on the order of the factors: it is the only such monic polynomial. */
  lemma ProductIsGenerator(exponents: seq<nat>)
    requires |exponents| == CHECK_BITS && forall e: nat :: e in exponents <==> IsRoot(e)
    ensures Product(exponents) == Generator()
  {
    hide IsRoot;
    GeneratorIsBinary();
    ProductVanishes(exponents);
    MonicUnique(Product(exponents), Generator());
  }

  /** `bch_tables`: none of its four consistency checks can fail. */
  method BuildTables() returns (r: BuildResult)
    ensures r.Built? && ValidTables(r.tables)
  {
    hide IsRoot;
    var exp, log, last := PowerTables();
    if last != ONE {
      return Failed("BCH GF(2^7) primitive polynomial order check failed.");
    }
    var found := RootExponents();
    var exponents: seq<nat> := Sort<nat>(found, e => Db(-(e as real)));
    PermutationMembers(exponents, found);
    forall e | e in exponents
      ensures e < ORDER
    {
      RootBounded(e);
    }
    var poly := ProductOf(Tables(exp, log, []), exponents);
    ProductIsGenerator(exponents);
    GeneratorIsBinary();
    if |poly| != HEADER_BITS {
      return Failed("BCH(127,64) generator degree mismatch.");
    }
    for i := 0 to |poly|
    {
      if poly[i] != ZERO && poly[i] != ONE {
        return Failed("BCH(127,64) generator is not binary.");
      }
    }
    if poly[|poly| - 1] != ONE {
      return Failed("BCH(127,64) generator is not monic.");
    }
    r := Built(Tables(exp, log, poly));
  }
}
