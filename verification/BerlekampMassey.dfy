/**
 The Berlekamp-Massey iteration of `bch_decode_header`: what every step keeps, why the degree never
 exceeds the number of errors, and why the roots of the final locator are exactly the error positions.
 */
module BerlekampMassey {
  import opened GaloisField
  import opened Polynomials
  import opened BchCode
  import opened BchEncoder
  import opened Sequences

  const SLOTS := 21

  datatype State = State(locator: Poly, previous: Poly, degree: nat, shift: nat, scale: GF)

  /** c[0] s[k] + c[1] s[k-1] + ... for n terms. */
  ghost function Convolve(c: Poly, s: seq<GF>, k: nat, n: nat): GF
    requires n <= k + 1 && n <= |c| && k < |s|
  {
    if n == 0 then ZERO else Add(Convolve(c, s, k, n - 1), Mul(c[n - 1], s[k - (n - 1)]))
  }

  /** The discrepancy of the connection polynomial `c` at index `k`. */
  ghost function Discrepancy(c: Poly, s: seq<GF>, k: nat): GF
    requires |c| == SLOTS && k < |s| <= SYNDROMES
  {
    Convolve(c, s, k, k + 1)
  }

  ghost predicate DegreeAtMost(c: Poly, d: nat) {
    forall i | d < i < |c| :: c[i] == ZERO
  }

  // ---------------------------------------------------------------------------------------------
  // One step, as the source makes it.

  ghost function Corrected(c: Poly, b: Poly, shift: nat, factor: GF): (r: Poly)
    requires |c| == |b|
    ensures |r| == |c|
  {
    seq(|c|, i requires 0 <= i < |c| => if i < shift then c[i] else Add(c[i], Mul(factor, b[i - shift])))
  }

  ghost function Step(s: seq<GF>, n: nat, st: State): (r: State)
    requires n < |s| <= SYNDROMES && |st.locator| == |st.previous| == SLOTS
    ensures |r.locator| == |r.previous| == SLOTS
  {
    var d := Discrepancy(st.locator, s, n);
    if d == ZERO then
      st.(shift := st.shift + 1)
    else
      var next := Corrected(st.locator, st.previous, st.shift, Mul(d, Inv(st.scale)));
      if 2 * st.degree <= n then
        State(next, st.locator, n + 1 - st.degree, 1, d)
      else
        st.(locator := next, shift := st.shift + 1)
  }

  ghost function Start(): (r: State)
    ensures |r.locator| == |r.previous| == SLOTS
  {
    var c := [ONE] + Zeros(SLOTS - 1);
    State(c, c, 0, 1, ONE)
  }

  ghost function Run(s: seq<GF>, n: nat): (r: State)
    requires n <= |s| <= SYNDROMES
    ensures |r.locator| == |r.previous| == SLOTS
  {
    if n == 0 then Start() else Step(s, n - 1, Run(s, n - 1))
  }

  // ---------------------------------------------------------------------------------------------
  // The invariant: the locator generates the syndromes read so far, and `previous` is the connection
  // polynomial that failed at the last length change, `shift` steps ago, with discrepancy `scale`.

  ghost predicate Invariant(s: seq<GF>, n: nat, st: State)
    requires n <= |s| <= SYNDROMES
  {
    && |st.locator| == |st.previous| == SLOTS
    && st.locator[0] == ONE && DegreeAtMost(st.locator, st.degree) && st.degree <= n
    && (forall k | st.degree <= k < n :: Discrepancy(st.locator, s, k) == ZERO)
    && st.scale != ZERO && 1 <= st.shift && st.degree + st.shift <= n + 1
    && var length := n + 1 - st.shift - st.degree;
       && DegreeAtMost(st.previous, length)
       && (forall k | length <= k < n - st.shift :: Discrepancy(st.previous, s, k) == ZERO)
       && (st.shift <= n ==> Discrepancy(st.previous, s, n - st.shift) == st.scale)
  }

  lemma {:induction false} CorrectedConvolves(c: Poly, b: Poly, shift: nat, f: GF, s: seq<GF>, k: nat, n: nat)
    requires |c| == |b| && n <= k + 1 && n <= |c| && k < |s|
    ensures Convolve(Corrected(c, b, shift, f), s, k, n)
         == Add(Convolve(c, s, k, n), Mul(f, if n <= shift then ZERO else Convolve(b, s, k - shift, n - shift)))
  {
    hide Mul, Add;
    if n == 0 {
      MulZero(f);
      AddZero(ZERO);
    } else {
      var i := n - 1;
      var si := s[k - i];
      var p := Convolve(c, s, k, i);
      CorrectedConvolves(c, b, shift, f, s, k, i);
      if n <= shift {
        MulZero(f);
        AddZero(p);
        AddZero(Add(p, Mul(c[i], si)));
      } else {
        var q := if i <= shift then ZERO else Convolve(b, s, k - shift, i - shift);
        var bi := b[i - shift];
        assert Convolve(b, s, k - shift, n - shift) == Add(q, Mul(bi, si));
        MulDistributes(si, c[i], Mul(f, bi));
        MulAssociates(f, bi, si);
        MulDistributes(f, q, Mul(bi, si));
        AddRegroup(p, Mul(f, q), Mul(c[i], si), Mul(f, Mul(bi, si)));
      }
    }
  }

  lemma CorrectedDegree(c: Poly, b: Poly, shift: nat, f: GF, d: nat, length: nat, e: nat)
    requires |c| == |b| && DegreeAtMost(c, d) && d <= e
    requires DegreeAtMost(b, length) && length + shift <= e
    ensures DegreeAtMost(Corrected(c, b, shift, f), e)
  {
    hide Mul, Add;
    forall i | e < i < |c|
      ensures Corrected(c, b, shift, f)[i] == ZERO
    {
      MulZero(f);
      AddZero(ZERO);
    }
  }

  /** d - (d / scale) * scale vanishes: the corrected locator also generates the newest syndrome. */
  lemma FactorCancels(d: GF, scale: GF)
    requires scale != ZERO
    ensures Add(d, Mul(Mul(d, Inv(scale)), scale)) == ZERO
  {
    hide Mul, Add, Inv;
    MulAssociates(d, Inv(scale), scale);
    MulCommutes(Inv(scale), scale);
    MulInverse(scale);
    MulOne(d);
    AddZero(d);
  }

  lemma CorrectedDiscrepancy(c: Poly, b: Poly, shift: nat, f: GF, s: seq<GF>, k: nat)
    requires |c| == |b| == SLOTS && k < |s| <= SYNDROMES
    ensures Discrepancy(Corrected(c, b, shift, f), s, k)
         == Add(Discrepancy(c, s, k), Mul(f, if k < shift then ZERO else Discrepancy(b, s, k - shift)))
  {
    CorrectedConvolves(c, b, shift, f, s, k, k + 1);
  }

  lemma CorrectedGenerates(s: seq<GF>, n: nat, st: State, e: nat, k: nat)
    requires n < |s| <= SYNDROMES && Invariant(s, n, st)
    requires e >= st.degree && e >= n + 1 - st.degree && e <= k <= n
    ensures var d := Discrepancy(st.locator, s, n);
            Discrepancy(Corrected(st.locator, st.previous, st.shift, Mul(d, Inv(st.scale))), s, k) == ZERO
  {
    hide Mul, Add, Inv, Convolve, Discrepancy, Corrected;
    var d := Discrepancy(st.locator, s, n);
    var f := Mul(d, Inv(st.scale));
    CorrectedDiscrepancy(st.locator, st.previous, st.shift, f, s, k);
    FactorCancels(d, st.scale);
    MulZero(f);
    AddZero(ZERO);
    AddZero(d);
    if k < n {
      assert Discrepancy(st.locator, s, k) == ZERO;
      if st.shift <= k {
        assert Discrepancy(st.previous, s, k - st.shift) == ZERO;
      }
    }
  }

  /** Every step keeps the invariant, whatever the syndromes are. */
  lemma StepKeepsInvariant(s: seq<GF>, n: nat, st: State)
    requires n < |s| <= SYNDROMES && Invariant(s, n, st)
    ensures Invariant(s, n + 1, Step(s, n, st))
  {
    var d := Discrepancy(st.locator, s, n);
    if d != ZERO {
      hide Mul, Add, Inv, Convolve, Discrepancy;
      var length := n + 1 - st.shift - st.degree;
      var e := if 2 * st.degree <= n then n + 1 - st.degree else st.degree;
      var f := Mul(d, Inv(st.scale));
      CorrectedDegree(st.locator, st.previous, st.shift, f, st.degree, length, e);
      forall k | e <= k <= n
        ensures Discrepancy(Corrected(st.locator, st.previous, st.shift, f), s, k) == ZERO
      {
        CorrectedGenerates(s, n, st, e, k);
      }
    }
  }

  lemma {:induction false} RunInvariant(s: seq<GF>, n: nat)
    requires n <= |s| <= SYNDROMES
    ensures Invariant(s, n, Run(s, n))
  {
    if n > 0 {
      RunInvariant(s, n - 1);
      hide Invariant;
      StepKeepsInvariant(s, n - 1, Run(s, n - 1));
    }
  }

  /** What the loop of the source needs to know of its variables. */
  lemma RunFacts(s: seq<GF>, n: nat)
    requires n <= |s| <= SYNDROMES
    ensures var st := Run(s, n);
            && st.locator[0] == ONE && DegreeAtMost(st.locator, st.degree) && st.degree <= n
            && st.scale != ZERO && 1 <= st.shift && st.degree + st.shift <= n + 1
  {
    RunInvariant(s, n);
    hide Run;
  }

  // ---------------------------------------------------------------------------------------------
  // Syndromes that are power sums over the error locators `xs`.

  ghost function PowerSums(xs: seq<GF>, n: nat): (r: seq<GF>)
    ensures |r| == n
  {
    seq(n, k requires 0 <= k < n => PowerSum(xs, xs, k))
  }

  /** x, x^2, ... */
  ghost function Geometric(x: GF, n: nat): (r: seq<GF>)
    ensures |r| == n
  {
    seq(n, k requires 0 <= k < n => Mul(x, Pow(x, k)))
  }

  /** The first `n` coefficients of `c`, highest power of x first: c[0] x^(n-1) + ... + c[n-1]. */
  ghost function Reversed(c: Poly, n: nat, x: GF): GF
    requires n <= |c|
  {
    if n == 0 then ZERO else Add(Mul(Reversed(c, n - 1, x), x), c[n - 1])
  }

  ghost function Weights(c: Poly, d: nat, xs: seq<GF>): (r: seq<GF>)
    requires d < |c|
    ensures |r| == |xs|
  {
    seq(|xs|, j requires 0 <= j < |xs| => Mul(xs[j], Reversed(c, d + 1, xs[j])))
  }

  lemma {:induction false} ConvolveSum(c: Poly, s: seq<GF>, u: seq<GF>, k: nat, n: nat)
    requires |s| == |u| && n <= k + 1 && n <= |c| && k < |s|
    ensures Convolve(c, Sum(s, u), k, n) == Add(Convolve(c, s, k, n), Convolve(c, u, k, n))
  {
    hide Mul, Add;
    if n == 0 {
      AddZero(ZERO);
    } else {
      var i := n - 1;
      ConvolveSum(c, s, u, k, i);
      MulDistributes(c[i], s[k - i], u[k - i]);
      AddRegroup(Convolve(c, s, k, i), Convolve(c, u, k, i), Mul(c[i], s[k - i]), Mul(c[i], u[k - i]));
    }
  }

  lemma {:induction false} ConvolveGeometric(c: Poly, x: GF, m: nat, k: nat, n: nat)
    requires n <= k + 1 && n <= |c| && k < m
    ensures Convolve(c, Geometric(x, m), k, n) == Mul(Mul(x, Pow(x, k + 1 - n)), Reversed(c, n, x))
  {
    hide Mul, Add;
    if n == 0 {
      MulZero(Mul(x, Pow(x, k + 1)));
    } else {
      var i := n - 1;
      var r, p := Reversed(c, i, x), Mul(x, Pow(x, k - i));
      ConvolveGeometric(c, x, m, k, i);
      // Mul(x, Pow(x, k + 1 - i)) == p * x, so the first i terms are p * (r x)
      MulCommutes(x, p);
      assert Mul(x, Pow(x, k + 1 - i)) == Mul(p, x);
      MulAssociates(p, x, r);
      MulCommutes(x, r);
      MulCommutes(c[i], p);
      MulDistributes(p, Mul(r, x), c[i]);
    }
  }

  lemma {:induction false} ReversedShift(c: Poly, d: nat, n: nat, x: GF)
    requires d < n <= |c| && DegreeAtMost(c, d)
    ensures Reversed(c, n, x) == Mul(Reversed(c, d + 1, x), Pow(x, n - d - 1))
    decreases n
  {
    hide Mul, Add;
    var r := Reversed(c, d + 1, x);
    if n == d + 1 {
      MulOne(r);
    } else {
      ReversedShift(c, d, n - 1, x);
      var p := Pow(x, n - d - 2);
      AddZero(Mul(Reversed(c, n - 1, x), x));
      MulAssociates(r, p, x);
      MulCommutes(p, x);
    }
  }

  /** The discrepancy is a weighted power sum over the error locators. */
  lemma {:induction false} DiscrepancyIsPowerSum(c: Poly, d: nat, xs: seq<GF>, m: nat, k: nat)
    requires |c| == SLOTS && d <= k < m <= SYNDROMES && DegreeAtMost(c, d)
    ensures Discrepancy(c, PowerSums(xs, m), k) == PowerSum(Weights(c, d, xs), xs, k - d)
  {
    hide Mul, Add, Convolve, Reversed;
    if xs == [] {
      ConvolveZeros(c, PowerSums(xs, m), k, k + 1);
    } else {
      var x, tail := xs[0], xs[1..];
      assert PowerSums(xs, m) == Sum(Geometric(x, m), PowerSums(tail, m));
      assert Weights(c, d, xs)[1..] == Weights(c, d, tail);
      DiscrepancyIsPowerSum(c, d, tail, m, k);
      ConvolveSum(c, Geometric(x, m), PowerSums(tail, m), k, k + 1);
      ConvolveGeometric(c, x, m, k, k + 1);
      ReversedShift(c, d, k + 1, x);
      MulOne(x);
      MulAssociates(x, Reversed(c, d + 1, x), Pow(x, k - d));
    }
  }

  lemma {:induction false} ConvolveZeros(c: Poly, s: seq<GF>, k: nat, n: nat)
    requires n <= k + 1 && n <= |c| && k < |s| && AllZero(s)
    ensures Convolve(c, s, k, n) == ZERO
  {
    if n > 0 {
      ConvolveZeros(c, s, k, n - 1);
      MulZero(c[n - 1]);
      AddZero(ZERO);
    }
  }

  /**
   A connection polynomial that generates as many consecutive syndromes as there are errors
   vanishes (reversed) at every error locator, and so generates all further syndromes.
   */
  lemma GeneratesAll(c: Poly, d: nat, xs: seq<GF>, m: nat)
    requires |c| == SLOTS && m <= SYNDROMES && DegreeAtMost(c, d) && Distinct(xs) && d + |xs| <= m && d < SLOTS
    requires forall j | 0 <= j < |xs| :: xs[j] != ZERO
    requires forall k | d <= k < d + |xs| :: Discrepancy(c, PowerSums(xs, m), k) == ZERO
    ensures forall j | 0 <= j < |xs| :: Reversed(c, d + 1, xs[j]) == ZERO
    ensures forall k | d <= k < m :: Discrepancy(c, PowerSums(xs, m), k) == ZERO
  {
    hide Mul, Add, Discrepancy, Reversed, PowerSum;
    var w := Weights(c, d, xs);
    forall t: nat | t < |xs|
      ensures PowerSum(w, xs, t) == ZERO
    {
      DiscrepancyIsPowerSum(c, d, xs, m, d + t);
      assert Discrepancy(c, PowerSums(xs, m), d + t) == ZERO;
    }
    Vandermonde(w, xs);
    forall j | 0 <= j < |xs|
      ensures Reversed(c, d + 1, xs[j]) == ZERO
    {
      assert w[j] == ZERO;
      MulNonzero(xs[j], Reversed(c, d + 1, xs[j]));
    }
    forall k | d <= k < m
      ensures Discrepancy(c, PowerSums(xs, m), k) == ZERO
    {
      DiscrepancyIsPowerSum(c, d, xs, m, k);
      PowerSumZero(w, xs, k - d);
    }
  }

  lemma DegreeBoundStep(xs: seq<GF>, n: nat, st: State)
    requires n < SYNDROMES && Distinct(xs) && 2 * |xs| <= SYNDROMES && st.degree <= |xs|
    requires forall j | 0 <= j < |xs| :: xs[j] != ZERO
    requires Invariant(PowerSums(xs, SYNDROMES), n, st)
    ensures Step(PowerSums(xs, SYNDROMES), n, st).degree <= |xs|
  {
    hide Discrepancy, Corrected, Mul, Add, Inv, Reversed;
    if st.degree + |xs| <= n {
      GeneratesAll(st.locator, st.degree, xs, SYNDROMES);
    }
  }

  /** The degree never exceeds the number of errors. */
  lemma {:induction false} DegreeBound(xs: seq<GF>, n: nat)
    requires n <= SYNDROMES && Distinct(xs) && 2 * |xs| <= SYNDROMES
    requires forall j | 0 <= j < |xs| :: xs[j] != ZERO
    ensures Run(PowerSums(xs, SYNDROMES), n).degree <= |xs|
  {
    if n > 0 {
      DegreeBound(xs, n - 1);
      RunInvariant(PowerSums(xs, SYNDROMES), n - 1);
      hide Invariant, Step;
      DegreeBoundStep(xs, n - 1, Run(PowerSums(xs, SYNDROMES), n - 1));
    }
  }
}
