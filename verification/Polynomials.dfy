/**
 Polynomials over GF(2^7), lowest coefficient first, and the two facts the code rests on: a nonzero
 polynomial has fewer roots than coefficients, and a Vandermonde system has only the zero solution.
 */
module Polynomials {
  import opened GaloisField
  import opened Sequences

  type Poly = seq<GF>

  /** The value of `c` at `x`. */
  ghost function Eval(c: Poly, x: GF): GF {
    if c == [] then ZERO else Add(c[0], Mul(x, Eval(c[1..], x)))
  }

  ghost function Sum(a: Poly, b: Poly): (r: Poly)
    requires |a| == |b|
    ensures |r| == |a|
  {
    seq(|a|, i requires 0 <= i < |a| => Add(a[i], b[i]))
  }

  ghost predicate AllZero(c: Poly) {
    forall i | 0 <= i < |c| :: c[i] == ZERO
  }

  lemma {:induction false} EvalSum(a: Poly, b: Poly, x: GF)
    requires |a| == |b|
    ensures Eval(Sum(a, b), x) == Add(Eval(a, x), Eval(b, x))
  {
    if a == [] {
      AddZero(ZERO);
    } else {
      var u, v := Eval(a[1..], x), Eval(b[1..], x);
      EvalSum(a[1..], b[1..], x);
      assert Sum(a, b)[1..] == Sum(a[1..], b[1..]);
      MulDistributes(x, u, v);
      AddRegroup(a[0], b[0], Mul(x, u), Mul(x, v));
    }
  }

  lemma {:induction false} EvalZero(c: Poly, x: GF)
    requires AllZero(c)
    ensures Eval(c, x) == ZERO
  {
    if c != [] {
      EvalZero(c[1..], x);
      MulZero(x);
      AddZero(ZERO);
    }
  }

  /** A new highest coefficient adds its monomial. */
  lemma {:induction false} EvalSnoc(c: Poly, d: GF, x: GF)
    ensures Eval(c + [d], x) == Add(Eval(c, x), Mul(d, Pow(x, |c|)))
  {
    if c == [] {
      assert (c + [d])[1..] == [];
      MulZero(x);
      MulOne(d);
      AddZero(d);
    } else {
      var e, p := Eval(c[1..], x), Pow(x, |c| - 1);
      assert (c + [d])[1..] == c[1..] + [d];
      EvalSnoc(c[1..], d, x);
      MulDistributes(x, e, Mul(d, p));
      MulAssociates(x, d, p);
      MulCommutes(x, d);
      MulAssociates(d, x, p);
      AddAssociates(c[0], Mul(x, e), Mul(d, Pow(x, |c|)));
    }
  }

  /** Leading zeros do not matter. */
  lemma {:induction false} EvalTrim(c: Poly, n: nat, x: GF)
    requires n <= |c| && AllZero(c[n..])
    ensures Eval(c, x) == Eval(c[..n], x)
    decreases |c|
  {
    if n == |c| {
      assert c[..n] == c;
    } else {
      var m := |c| - 1;
      assert c == c[..m] + [c[m]];
      assert c[m] == c[n..][m - n];
      assert c[..m][n..] == c[n..][..m - n];
      EvalSnoc(c[..m], c[m], x);
      MulZero(Pow(x, m));
      AddZero(Eval(c[..m], x));
      EvalTrim(c[..m], n, x);
      assert c[..m][..n] == c[..n];
    }
  }

  // ---------------------------------------------------------------------------------------------
  // Roots.

  /** The quotient of c(x) - c(y) by x - y. */
  ghost function Quotient(c: Poly, y: GF): Poly
    requires c != []
  {
    seq(|c| - 1, i requires 0 <= i < |c| - 1 => Eval(c[i + 1..], y))
  }

  lemma {:induction false} QuotientDivides(c: Poly, x: GF, y: GF)
    requires c != []
    ensures Add(Eval(c, x), Eval(c, y)) == Mul(Add(x, y), Eval(Quotient(c, y), x))
  {
    hide Mul, Add;
    var t := c[1..];
    if t == [] {
      assert Quotient(c, y) == [];
      MulZero(x);
      MulZero(y);
      MulZero(Add(x, y));
      AddZero(Add(c[0], ZERO));
    } else {
      var q := Quotient(t, y);
      var tx, ty, qx := Eval(t, x), Eval(t, y), Eval(q, x);
      assert Quotient(c, y) == [ty] + q by {
        forall i | 0 <= i < |q|
          ensures Quotient(c, y)[i + 1] == q[i]
        {
          assert c[i + 2..] == t[i + 1..];
        }
        assert c[1..] == t;
      }
      assert ([ty] + q)[1..] == q;
      QuotientDivides(t, x, y);
      QuotientStep(c[0], x, y, tx, ty, qx);
    }
  }

  lemma QuotientStep(c0: GF, x: GF, y: GF, tx: GF, ty: GF, qx: GF)
    requires Add(tx, ty) == Mul(Add(x, y), qx)
    ensures Add(Add(c0, Mul(x, tx)), Add(c0, Mul(y, ty))) == Mul(Add(x, y), Add(ty, Mul(x, qx)))
  {
    hide Mul, Add;
    var s := Add(x, y);
    AddRegroup(c0, Mul(x, tx), c0, Mul(y, ty));
    AddZero(c0);
    AddZero(Add(Mul(x, tx), Mul(y, ty)));
    // s(ty + x qx) = s ty + x(s qx) = x ty + y ty + x tx + x ty
    MulDistributes(s, ty, Mul(x, qx));
    MulAssociates(s, x, qx);
    MulCommutes(s, x);
    MulAssociates(x, s, qx);
    MulDistributes(x, tx, ty);
    MulDistributes(ty, x, y);
    var p, q, r := Mul(x, ty), Mul(y, ty), Mul(x, tx);
    assert Mul(s, Add(ty, Mul(x, qx))) == Add(Add(p, q), Add(r, p));
    AddCommutes(r, p);
    AddRegroup(p, q, p, r);
    AddZero(p);
    AddCommutes(q, r);
    AddZero(Add(r, q));
  }

  /** As many distinct roots as coefficients: only the zero polynomial. */
  lemma {:induction false} RootBound(c: Poly, roots: seq<GF>)
    requires |c| <= |roots| && Distinct(roots)
    requires forall i | 0 <= i < |roots| :: Eval(c, roots[i]) == ZERO
    ensures AllZero(c)
    decreases |c|
  {
    if c != [] {
      var y, q := roots[0], Quotient(c, roots[0]);
      forall i | 1 <= i < |roots|
        ensures Eval(q, roots[i]) == ZERO
      {
        QuotientDivides(c, roots[i], y);
        AddZero(ZERO);
        AddCancel(roots[i], y);
        MulNonzero(Add(roots[i], y), Eval(q, roots[i]));
      }
      RootBound(q, roots[1..]);
      forall i | 0 <= i < |c|
        ensures c[i] == ZERO
      {
        assert c[0..] == c;
        assert Eval(c[i..], y) == ZERO by {
          if i > 0 {
            assert q[i - 1] == ZERO;
          }
        }
        assert Eval(c[i + 1..], y) == ZERO by {
          if i + 1 < |c| {
            assert q[i] == ZERO;
          }
        }
        assert c[i..][1..] == c[i + 1..];
        MulZero(y);
        AddZero(c[i]);
      }
    }
  }

  // ---------------------------------------------------------------------------------------------
  // Weighted power sums.

  /** The sum of a[i] * xs[i]^t. */
  ghost function PowerSum(a: seq<GF>, xs: seq<GF>, t: nat): GF
    requires |a| == |xs|
  {
    if a == [] then ZERO else Add(Mul(a[0], Pow(xs[0], t)), PowerSum(a[1..], xs[1..], t))
  }

  /** The weights after eliminating the point `y`. */
  ghost function Eliminate(a: seq<GF>, xs: seq<GF>, y: GF): (r: seq<GF>)
    requires |a| == |xs|
    ensures |r| == |a|
  {
    seq(|a|, i requires 0 <= i < |a| => Mul(a[i], Add(xs[i], y)))
  }

  lemma {:induction false} PowerSumEliminates(a: seq<GF>, xs: seq<GF>, y: GF, t: nat)
    requires |a| == |xs|
    ensures PowerSum(Eliminate(a, xs, y), xs, t)
         == Add(PowerSum(a, xs, t + 1), Mul(y, PowerSum(a, xs, t)))
  {
    if a == [] {
      MulZero(y);
      AddZero(ZERO);
    } else {
      var a0, x0, p := a[0], xs[0], Pow(xs[0], t);
      var s1, s0 := PowerSum(a[1..], xs[1..], t + 1), PowerSum(a[1..], xs[1..], t);
      assert Eliminate(a, xs, y)[1..] == Eliminate(a[1..], xs[1..], y);
      PowerSumEliminates(a[1..], xs[1..], y, t);
      assert Mul(Mul(a0, Add(x0, y)), p) == Add(Mul(a0, Mul(x0, p)), Mul(y, Mul(a0, p))) by {
        MulDistributes(a0, x0, y);
        MulDistributes(p, Mul(a0, x0), Mul(a0, y));
        MulAssociates(a0, x0, p);
        MulCommutes(a0, y);
        MulAssociates(y, a0, p);
      }
      MulDistributes(y, Mul(a0, p), s0);
      AddRegroup(Mul(a0, Mul(x0, p)), Mul(y, Mul(a0, p)), s1, Mul(y, s0));
    }
  }

  lemma {:induction false} PowerSumZero(a: seq<GF>, xs: seq<GF>, t: nat)
    requires |a| == |xs| && AllZero(a)
    ensures PowerSum(a, xs, t) == ZERO
  {
    if a != [] {
      PowerSumZero(a[1..], xs[1..], t);
      MulZero(Pow(xs[0], t));
      AddZero(ZERO);
    }
  }

  /** Vandermonde: as many vanishing power sums as distinct points force all weights to be zero. */
  lemma {:induction false} Vandermonde(a: seq<GF>, xs: seq<GF>)
    requires |a| == |xs| && Distinct(xs)
    requires forall t: nat | t < |xs| :: PowerSum(a, xs, t) == ZERO
    ensures AllZero(a)
    decreases |a|
  {
    if a != [] {
      var b := Eliminate(a, xs, xs[0]);
      assert b[0] == ZERO by {
        AddZero(xs[0]);
        MulZero(a[0]);
      }
      forall t: nat | t < |xs| - 1
        ensures PowerSum(b[1..], xs[1..], t) == ZERO
      {
        PowerSumEliminates(a, xs, xs[0], t);
        MulZero(xs[0]);
        AddZero(ZERO);
        MulZero(Pow(xs[0], t));
        AddZero(PowerSum(b[1..], xs[1..], t));
      }
      Vandermonde(b[1..], xs[1..]);
      forall i | 1 <= i < |a|
        ensures a[i] == ZERO
      {
        assert b[1..][i - 1] == b[i];
        AddCancel(xs[i], xs[0]);
        MulNonzero(a[i], Add(xs[i], xs[0]));
      }
      PowerSumZero(a[1..], xs[1..], 0);
      assert PowerSum(a, xs, 0) == ZERO;
      MulOne(a[0]);
      AddZero(a[0]);
    }
  }
}
