/**
 Errors as lists of positions: the syndromes of a corrupted codeword are power sums over the error
 positions, from which the minimum distance 21 of the code follows.
 */
module BchDistance {
  import opened GaloisField
  import opened Polynomials
  import opened BchCode
  import opened BchEncoder
  import opened Sequences

  /** The positions where `a` and `b` differ, in increasing order. */
  ghost function Differences(a: Poly, b: Poly): (r: seq<nat>)
    requires |a| == |b|
    ensures |r| <= |a|
  {
    if a == [] then []
    else
      var n := |a| - 1;
      Differences(a[..n], b[..n]) + (if a[n] == b[n] then [] else [n])
  }

  /** Hamming distance. */
  ghost function Distance(a: Poly, b: Poly): nat
    requires |a| == |b|
  {
    |Differences(a, b)|
  }

  /** The field elements that locate the positions `ps`. */
  ghost function Locators(ps: seq<nat>): (xs: seq<GF>)
    ensures |xs| == |ps|
  {
    seq(|ps|, i requires 0 <= i < |ps| => Exp(ps[i]))
  }

  lemma {:induction false} DifferencesAre(a: Poly, b: Poly)
    requires |a| == |b|
    ensures forall p: nat :: p in Differences(a, b) <==> p < |a| && a[p] != b[p]
    ensures Distinct(Differences(a, b))
  {
    if a != [] {
      var n := |a| - 1;
      var d := Differences(a[..n], b[..n]);
      DifferencesAre(a[..n], b[..n]);
      forall i, j | 0 <= i < j < |Differences(a, b)|
        ensures Differences(a, b)[i] != Differences(a, b)[j]
      {
        assert Differences(a, b)[i] == d[i] && d[i] in d;
      }
    }
  }

  lemma {:induction false} DistanceSymmetric(a: Poly, b: Poly)
    requires |a| == |b|
    ensures Differences(a, b) == Differences(b, a)
  {
    if a != [] {
      DistanceSymmetric(a[..|a| - 1], b[..|a| - 1]);
    }
  }

  lemma {:induction false} DistanceTriangle(a: Poly, b: Poly, c: Poly)
    requires |a| == |b| == |c|
    ensures Distance(a, c) <= Distance(a, b) + Distance(b, c)
  {
    if a != [] {
      var n := |a| - 1;
      DistanceTriangle(a[..n], b[..n], c[..n]);
    }
  }

  lemma DistanceZero(a: Poly, b: Poly)
    requires |a| == |b|
    ensures Distance(a, b) == 0 <==> a == b
  {
    DifferencesAre(a, b);
    if Distance(a, b) == 0 {
      forall p: nat | p < |a|
        ensures a[p] == b[p]
      {
        assert p !in Differences(a, b);
      }
    } else {
      assert Differences(a, b)[0] in Differences(a, b);
    }
  }

  lemma LocatorsDistinct(ps: seq<nat>)
    requires Distinct(ps) && forall i | 0 <= i < |ps| :: ps[i] < CODE_BITS
    ensures Distinct(Locators(ps))
  {
    forall i, j | 0 <= i < j < |ps|
      ensures Locators(ps)[i] != Locators(ps)[j]
    {
      if Exp(ps[i]) == Exp(ps[j]) {
        ExpInjective(ps[i], ps[j]);
      }
    }
  }

  lemma ErrorLocators(a: Poly, b: Poly)
    requires |a| == |b| == CODE_BITS
    ensures Distinct(Locators(Differences(a, b)))
    ensures forall i | 0 <= i < Distance(a, b) :: Differences(a, b)[i] < CODE_BITS
  {
    DifferencesAre(a, b);
    var d := Differences(a, b);
    forall i | 0 <= i < |d|
      ensures d[i] < CODE_BITS
    {
      assert d[i] in d;
    }
    LocatorsDistinct(d);
  }

  lemma {:induction false} PowerSumSnoc(a: seq<GF>, xs: seq<GF>, d: GF, x: GF, t: nat)
    requires |a| == |xs|
    ensures PowerSum(a + [d], xs + [x], t) == Add(PowerSum(a, xs, t), Mul(d, Pow(x, t)))
  {
    hide Mul, Add, Pow;
    if a == [] {
      assert (a + [d])[1..] == [] && (xs + [x])[1..] == [];
      AddCommutes(Mul(d, Pow(x, t)), ZERO);
    } else {
      assert (a + [d])[1..] == a[1..] + [d] && (xs + [x])[1..] == xs[1..] + [x];
      PowerSumSnoc(a[1..], xs[1..], d, x, t);
      AddAssociates(Mul(a[0], Pow(xs[0], t)), PowerSum(a[1..], xs[1..], t), Mul(d, Pow(x, t)));
    }
  }

  /** p-th power of Exp(s) and s-th power of the locator of p agree. */
  lemma LocatorPower(p: nat, s: nat)
    requires s > 0
    ensures Pow(Exp(s), p) == Mul(Exp(p), Pow(Exp(p), s - 1)) == Exp(s * p)
  {
    hide *;
    PowExp(s, p);
    PowExp(p, s - 1);
    MulExp(p, p * (s - 1));
    assert p + p * (s - 1) == s * p;
  }

  /** The syndromes of an error word are the power sums of its locators, each weighted by itself. */
  lemma {:induction false} SyndromesArePowerSums(a: Poly, b: Poly, s: nat)
    requires |a| == |b| && Binary(a) && Binary(b) && s > 0
    ensures var xs := Locators(Differences(a, b)); Eval(Sum(a, b), Exp(s)) == PowerSum(xs, xs, s - 1)
  {
    hide Mul, Add, Exp, Pow;
    if a != [] {
      var n := |a| - 1;
      var ds, xs := Differences(a[..n], b[..n]), Locators(Differences(a[..n], b[..n]));
      var d := Add(a[n], b[n]);
      SyndromesArePowerSums(a[..n], b[..n], s);
      assert Sum(a, b) == Sum(a[..n], b[..n]) + [d];
      EvalSnoc(Sum(a[..n], b[..n]), d, Exp(s));
      BitSum(a[n], b[n]);
      LocatorPower(n, s);
      if a[n] == b[n] {
        assert ds + [] == ds;
        MulZero(Pow(Exp(s), n));
        AddZero(Eval(Sum(a[..n], b[..n]), Exp(s)));
      } else {
        assert Locators(ds + [n]) == xs + [Exp(n)];
        PowerSumSnoc(xs, xs, Exp(n), Exp(n), s - 1);
        MulOne(Pow(Exp(s), n));
      }
    }
  }

  /** Words with equal syndromes that differ in at most twenty positions are equal. */
  lemma SyndromesSeparate(a: Poly, b: Poly)
    requires |a| == |b| == CODE_BITS && Binary(a) && Binary(b)
    requires forall s | 1 <= s <= SYNDROMES :: Eval(a, Exp(s)) == Eval(b, Exp(s))
    requires Distance(a, b) <= SYNDROMES
    ensures a == b
  {
    hide Mul, Add, Exp, Pow, Eval, PowerSum, Differences;
    var xs := Locators(Differences(a, b));
    ErrorLocators(a, b);
    forall t: nat | t < |xs|
      ensures PowerSum(xs, xs, t) == ZERO
    {
      EvalSum(a, b, Exp(t + 1));
      SyndromesArePowerSums(a, b, t + 1);
      AddZero(Eval(a, Exp(t + 1)));
    }
    if Distance(a, b) > 0 {
      ExpNonzero(Differences(a, b)[0]);
      assert xs[0] != ZERO;
    }
    Vandermonde(xs, xs);
    DistanceZero(a, b);
  }

  /** Distinct codewords differ in at least 21 of the 127 positions. */
  lemma MinimumDistance(v: nat, w: nat)
    requires v < WORDS && w < WORDS && v != w
    ensures Distance(Codeword(v), Codeword(w)) > 20
  {
    CodewordIsCodeword(v);
    CodewordIsCodeword(w);
    if Distance(Codeword(v), Codeword(w)) <= 20 {
      SyndromesSeparate(Codeword(v), Codeword(w));
      CodewordInjective(v, w);
    }
  }

  /** At most one codeword lies within distance 10 of any word. */
  lemma DecodingUnique(r: Poly, v: nat, w: nat)
    requires |r| == CODE_BITS && v < WORDS && w < WORDS
    requires Distance(Codeword(v), r) <= 10 && Distance(Codeword(w), r) <= 10
    ensures v == w
  {
    DistanceTriangle(Codeword(v), r, Codeword(w));
    DistanceSymmetric(r, Codeword(w));
    if v != w {
      MinimumDistance(v, w);
    }
  }
}
