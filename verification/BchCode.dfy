/**
 The BCH(127,64) code of the control header: its generator polynomial, the systematic codewords,
 and the equivalence of "produced by the encoder" with "all twenty syndromes vanish".
 */
module BchCode {
  import opened GaloisField
  import opened Polynomials
  import opened Sequences

  const CODE_BITS := 127
  const HEADER_BITS := 64
  const CHECK_BITS := 63
  const T := 10
  const SYNDROMES := 20

  predicate IsBit(a: GF) {
    a == ZERO || a == ONE
  }

  predicate Binary(c: Poly) {
    forall i | 0 <= i < |c| :: IsBit(c[i])
  }

  /** All syndromes of the binary word `c` vanish. */
  ghost predicate IsCodeword(c: Poly) {
    |c| == CODE_BITS && Binary(c) && forall s | 1 <= s <= SYNDROMES :: Eval(c, Exp(s)) == ZERO
  }

  // ---------------------------------------------------------------------------------------------
  // The exponents of the roots of the generator: 1..20 and what doubling modulo 127 makes of them.

  predicate IsRoot(e: nat) {
    || 1 <= e <= 20 || e == 22 || 24 <= e <= 26 || e == 28 || e == 30
    || 32 <= e <= 36 || e == 38 || e == 40 || e == 44 || 48 <= e <= 50 || e == 52 || e == 56 || e == 60
    || 64 <= e <= 73 || e == 76 || 80 <= e <= 81 || e == 88
    || 96 <= e <= 100 || e == 104 || 112 <= e <= 113 || e == 120
  }

  /** The root exponents below `n`, in increasing order. */
  function RootList(n: nat): seq<nat> {
    if n == 0 then [] else RootList(n - 1) + (if IsRoot(n - 1) then [n - 1] else [])
  }

  function Roots(): seq<nat> {
    RootList(ORDER)
  }

  lemma {:induction false} RootListAre(n: nat)
    ensures forall e: nat :: e in RootList(n) <==> e < n && IsRoot(e)
    ensures Distinct(RootList(n))
  {
    hide IsRoot;
    if n > 0 {
      RootListAre(n - 1);
      var r := RootList(n - 1);
      forall i, j | 0 <= i < j < |RootList(n)|
        ensures RootList(n)[i] != RootList(n)[j]
      {
        assert RootList(n)[i] == r[i];
        assert r[i] in r;
      }
    }
  }

  /** a..m-1 are roots, m..b-1 are not. */
  lemma {:induction false} RootRun(a: nat, m: nat, b: nat)
    requires a <= m <= b
    requires forall e | a <= e < b :: IsRoot(e) <==> e < m
    ensures |RootList(b)| == |RootList(a)| + m - a
  {
    hide IsRoot;
    if m < b {
      RootRun(a, m, b - 1);
    } else if a < b {
      RootRun(a, b - 1, b - 1);
    }
  }

  lemma RootCountLow()
    ensures |RootList(32)| == |RootList(1)| + 26
  {
    hide RootList;
    RootRun(1, 21, 22); RootRun(22, 23, 24); RootRun(24, 27, 28); RootRun(28, 29, 30);
    RootRun(30, 31, 32);
  }

  lemma RootCountMiddle()
    ensures |RootList(64)| == |RootList(32)| + 14
  {
    hide RootList;
    RootRun(32, 37, 38); RootRun(38, 39, 40); RootRun(40, 41, 44); RootRun(44, 45, 48);
    RootRun(48, 51, 52); RootRun(52, 53, 56); RootRun(56, 57, 60); RootRun(60, 61, 64);
  }

  lemma RootCountHigh()
    ensures |RootList(127)| == |RootList(64)| + 23
  {
    hide RootList;
    RootRun(64, 74, 76); RootRun(76, 77, 80); RootRun(80, 82, 88); RootRun(88, 89, 96);
    RootRun(96, 101, 104); RootRun(104, 105, 112); RootRun(112, 114, 120); RootRun(120, 121, 127);
  }

  lemma RootCount()
    ensures |Roots()| == CHECK_BITS
  {
    assert |RootList(1)| == 0;
    hide RootList;
    RootCountLow();
    RootCountMiddle();
    RootCountHigh();
  }

  lemma RootBounded(e: nat)
    requires IsRoot(e)
    ensures 1 <= e < ORDER
  {
  }

  lemma RootDoubles(e: nat)
    requires IsRoot(e)
    ensures IsRoot((2 * e) % 127)
  {
    assert (2 * e) % 127 == if e < 64 then 2 * e else 2 * e - ORDER;
  }

  function Double(e: nat): nat
    requires e < ORDER
    ensures Double(e) < ORDER && Double(e) == (2 * e) % 127
  {
    if e < 64 then 2 * e else 2 * e - ORDER
  }

  ghost predicate ClosedUnderDoubling(S: set<nat>) {
    forall e | e in S :: e < ORDER && Double(e) in S
  }

  lemma DoublesSixTimes(S: set<nat>, r: nat)
    requires ClosedUnderDoubling(S) && r in S
    ensures forall d | d in Doubles(r) :: d in S
  {
    var d1 := Double(r);
    var d2 := Double(d1);
    var d3 := Double(d2);
    var d4 := Double(d3);
    var d5 := Double(d4);
    assert Double(d5) in S;
  }

  function Doubles(r: nat): seq<nat>
    requires r < ORDER
  {
    var d1 := Double(r);
    var d2 := Double(d1);
    var d3 := Double(d2);
    var d4 := Double(d3);
    var d5 := Double(d4);
    [r, d1, d2, d3, d4, d5, Double(d5)]
  }

  /** Each root exponent is a double of one of nine odd numbers. */
  lemma RootOrbit(e: nat)
    requires IsRoot(e)
    ensures e in Doubles(1) || e in Doubles(3) || e in Doubles(5) || e in Doubles(7) || e in Doubles(9)
         || e in Doubles(11) || e in Doubles(13) || e in Doubles(15) || e in Doubles(19)
  {
  }

  /** The root exponents are generated by 1..20 under doubling: any closed set has them all. */
  lemma RootsGenerated(S: set<nat>, e: nat)
    requires ClosedUnderDoubling(S) && forall r | 1 <= r <= SYNDROMES :: r in S
    requires IsRoot(e)
    ensures e in S
  {
    RootOrbit(e);
    hide IsRoot, Doubles, ClosedUnderDoubling;
    DoublesSixTimes(S, 1);
    DoublesSixTimes(S, 3);
    DoublesSixTimes(S, 5);
    DoublesSixTimes(S, 7);
    DoublesSixTimes(S, 9);
    DoublesSixTimes(S, 11);
    DoublesSixTimes(S, 13);
    DoublesSixTimes(S, 15);
    DoublesSixTimes(S, 19);
  }

  // ---------------------------------------------------------------------------------------------
  // The generator: the product of x - root over all root exponents.

  ghost function Scale(c: Poly, r: GF): (p: Poly)
    ensures |p| == |c|
  {
    seq(|c|, i requires 0 <= i < |c| => Mul(c[i], r))
  }

  /** (x - root) * c. */
  ghost function MulLinear(c: Poly, root: GF): (p: Poly)
    ensures |p| == |c| + 1
  {
    Sum(Scale(c, root) + [ZERO], [ZERO] + c)
  }

  ghost function Product(exponents: seq<nat>): (p: Poly)
    ensures |p| == |exponents| + 1
  {
    if exponents == [] then [ONE]
    else MulLinear(Product(exponents[..|exponents| - 1]), Exp(exponents[|exponents| - 1]))
  }

  ghost function Generator(): Poly {
    Product(Roots())
  }

  lemma {:induction false} EvalScale(c: Poly, r: GF, x: GF)
    ensures Eval(Scale(c, r), x) == Mul(r, Eval(c, x))
  {
    if c == [] {
      MulZero(r);
    } else {
      var t := Eval(c[1..], x);
      assert Scale(c, r)[1..] == Scale(c[1..], r);
      EvalScale(c[1..], r, x);
      MulAssociates(x, r, t);
      MulCommutes(x, r);
      MulAssociates(r, x, t);
      MulCommutes(c[0], r);
      MulDistributes(r, c[0], Mul(x, t));
    }
  }

  lemma EvalMulLinear(c: Poly, root: GF, x: GF)
    ensures Eval(MulLinear(c, root), x) == Mul(Add(root, x), Eval(c, x))
  {
    hide Mul, Add;
    var scaled := Scale(c, root) + [ZERO];
    EvalSum(scaled, [ZERO] + c, x);
    assert AllZero(scaled[|c|..]);
    EvalTrim(scaled, |c|, x);
    assert scaled[..|c|] == Scale(c, root);
    EvalScale(c, root, x);
    assert ([ZERO] + c)[1..] == c;
    AddZero(Mul(x, Eval(c, x)));
    MulDistributes(Eval(c, x), root, x);
  }

  /** The product vanishes at each of its exponents and is monic. */
  lemma {:induction false} ProductVanishes(exponents: seq<nat>)
    ensures forall e | e in exponents :: Eval(Product(exponents), Exp(e)) == ZERO
    ensures Product(exponents)[|exponents|] == ONE
  {
    hide Mul, Add;
    if exponents != [] {
      var n := |exponents| - 1;
      var init, last := exponents[..n], exponents[n];
      ProductVanishes(init);
      AddZero(Product(init)[n]);
      forall e | e in exponents
        ensures Eval(Product(exponents), Exp(e)) == ZERO
      {
        EvalMulLinear(Product(init), Exp(last), Exp(e));
        if e == last {
          AddZero(Exp(e));
        } else {
          assert e in init;
        }
        MulZero(Add(Exp(last), Exp(e)));
        MulZero(Eval(Product(init), Exp(e)));
      }
    }
  }

  ghost function RootPoints(): (xs: seq<GF>)
    ensures |xs| == |Roots()|
  {
    seq(|Roots()|, i requires 0 <= i < |Roots()| => Exp(Roots()[i]))
  }

  lemma RootPointsAre()
    ensures |RootPoints()| == CHECK_BITS && Distinct(RootPoints())
    ensures forall i | 0 <= i < CHECK_BITS :: IsRoot(Roots()[i]) && RootPoints()[i] == Exp(Roots()[i])
  {
    hide IsRoot, RootList, Exp;
    RootCount();
    RootListAre(ORDER);
    forall i | 0 <= i < CHECK_BITS
      ensures IsRoot(Roots()[i]) && Roots()[i] < ORDER
    {
      assert Roots()[i] in Roots();
    }
    forall i, j | 0 <= i < j < CHECK_BITS
      ensures RootPoints()[i] != RootPoints()[j]
    {
      if Exp(Roots()[i]) == Exp(Roots()[j]) {
        ExpInjective(Roots()[i], Roots()[j]);
      }
    }
  }

  /** At most 63 coefficients and zero at all 63 roots: zero. */
  lemma VanishesOnRoots(c: Poly)
    requires |c| <= CHECK_BITS
    requires forall e: nat | IsRoot(e) :: Eval(c, Exp(e)) == ZERO
    ensures AllZero(c)
  {
    hide IsRoot;
    RootPointsAre();
    RootBound(c, RootPoints());
  }

  lemma SumIsZero(a: Poly, b: Poly)
    requires |a| == |b| && AllZero(Sum(a, b))
    ensures a == b
  {
    forall i | 0 <= i < |a|
      ensures a[i] == b[i]
    {
      assert Sum(a, b)[i] == ZERO;
      AddCancel(a[i], b[i]);
    }
  }

  /** Two monic polynomials of degree 63 with all the roots are equal. */
  lemma MonicUnique(a: Poly, b: Poly)
    requires |a| == |b| == CHECK_BITS + 1 && a[CHECK_BITS] == b[CHECK_BITS]
    requires forall e: nat | IsRoot(e) :: Eval(a, Exp(e)) == ZERO && Eval(b, Exp(e)) == ZERO
    ensures a == b
  {
    hide IsRoot;
    var d := Sum(a, b);
    AddCancel(a[CHECK_BITS], b[CHECK_BITS]);
    forall e: nat | IsRoot(e)
      ensures Eval(d[..CHECK_BITS], Exp(e)) == ZERO
    {
      EvalSum(a, b, Exp(e));
      AddZero(ZERO);
      EvalTrim(d, CHECK_BITS, Exp(e));
    }
    VanishesOnRoots(d[..CHECK_BITS]);
    assert AllZero(d) by {
      forall i | 0 <= i < |d|
        ensures d[i] == ZERO
      {
        assert i < CHECK_BITS ==> d[..CHECK_BITS][i] == d[i];
      }
    }
    SumIsZero(a, b);
  }

  // ---------------------------------------------------------------------------------------------
  // Squaring: the generator is binary, and a binary word that vanishes at x vanishes at x^2.

  ghost function Squares(c: Poly): (r: Poly)
    ensures |r| == |c|
  {
    seq(|c|, i requires 0 <= i < |c| => Mul(c[i], c[i]))
  }

  lemma {:induction false} EvalSquares(c: Poly, x: GF)
    ensures Eval(Squares(c), Mul(x, x)) == Mul(Eval(c, x), Eval(c, x))
  {
    if c == [] {
      MulZero(ZERO);
    } else {
      var t := Eval(c[1..], x);
      assert Squares(c)[1..] == Squares(c[1..]);
      EvalSquares(c[1..], x);
      Frobenius(c[0], Mul(x, t));
      MulAssociates(x, x, Mul(t, t));
      MulAssociates(x, t, t);
      MulCommutes(x, Mul(t, t));
      MulCommutes(Mul(x, t), t);
      MulAssociates(t, x, t);
      MulAssociates(x, t, Mul(x, t));
      MulCommutes(t, Mul(x, t));
    }
  }

  lemma SquareIsBit(a: GF)
    ensures Mul(a, a) == a <==> IsBit(a)
  {
    MulOne(a);
    MulZero(a);
    if Mul(a, a) == a && a != ZERO {
      MulDistributes(a, a, ONE);
      AddZero(a);
      MulNonzero(a, Add(a, ONE));
      AddCancel(a, ONE);
    }
  }

  lemma BinarySquares(c: Poly)
    ensures Squares(c) == c <==> Binary(c)
  {
    forall i | 0 <= i < |c|
      ensures Squares(c)[i] == c[i] <==> IsBit(c[i])
    {
      SquareIsBit(c[i]);
    }
    if Squares(c) == c {
      assert forall i | 0 <= i < |c| :: Squares(c)[i] == c[i];
    }
  }

  lemma ExpSquare(e: nat)
    ensures Mul(Exp(e), Exp(e)) == Exp((2 * e) % 127)
  {
    hide *;
    MulExp(e, e);
    ExpMod(2 * e);
  }

  lemma ModDouble(m: nat)
    ensures (2 * (m % 127)) % 127 == (2 * m) % 127
  {
  }

  /** Doubling keeps root exponents, also before reduction. */
  lemma RootDoubled(m: nat)
    requires IsRoot(m % 127)
    ensures IsRoot((2 * m) % 127)
  {
    RootDoubles(m % 127);
    hide IsRoot;
    ModDouble(m);
  }

  lemma HalfModulo(e: nat)
    requires e < ORDER
    ensures e % 127 == e && (2 * ((64 * e) % 127)) % 127 == e
  {
    ModDouble(64 * e);
  }

  /** Every root exponent is the double of a root exponent: 2^7 is 1 modulo 127. */
  lemma RootHalves(e: nat) returns (h: nat)
    requires IsRoot(e)
    ensures IsRoot(h) && (2 * h) % 127 == e
  {
    hide IsRoot;
    RootBounded(e);
    HalfModulo(e);
    RootDoubled(e);
    RootDoubled(2 * e);
    RootDoubled(4 * e);
    RootDoubled(8 * e);
    RootDoubled(16 * e);
    RootDoubled(32 * e);
    h := (64 * e) % 127;
  }

  /** The check `bch_tables` makes on the generator cannot fail: 64 binary coefficients, monic. */
  lemma GeneratorIsBinary()
    ensures |Generator()| == CHECK_BITS + 1 && Generator()[CHECK_BITS] == ONE
    ensures Binary(Generator())
    ensures forall e: nat | IsRoot(e) :: Eval(Generator(), Exp(e)) == ZERO
  {
    hide IsRoot;
    var g := Generator();
    RootCount();
    ProductVanishes(Roots());
    RootListAre(ORDER);
    assert forall e: nat | IsRoot(e) :: Eval(g, Exp(e)) == ZERO by {
      forall e: nat | IsRoot(e)
        ensures Eval(g, Exp(e)) == ZERO
      {
        RootBounded(e);
        assert e in Roots();
      }
    }
    forall e: nat | IsRoot(e)
      ensures Eval(Squares(g), Exp(e)) == ZERO
    {
      var h := RootHalves(e);
      ExpSquare(h);
      EvalSquares(g, Exp(h));
      MulZero(ZERO);
    }
    MulOne(ONE);
    MonicUnique(g, Squares(g));
    BinarySquares(g);
  }

}
