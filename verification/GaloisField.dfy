/**
 The field GF(2^7) of the control-header code, built the way `bch_tables` builds it: the powers of
 the primitive element are obtained by repeated `gf_xtime`, and products go through logarithms.
 A `uint8_t` holding a field element never exceeds 0x7F, so an element is seven bits.
 */
module GaloisField {

  datatype GF = GF(bits: bv7)

  const ZERO := GF(0)
  const ONE := GF(1)

  const ORDER := 127

  /** Addition (and subtraction) is the exclusive-or of the source. */
  function Add(a: GF, b: GF): GF {
    GF(a.bits ^ b.bits)
  }

  /** `gf_xtime`: multiplication by x modulo x^7 + x + 1; the shifted value needs 8 bits. */
  function XtimeBits(value: bv7): bv7 {
    var shifted := (value as bv8) << 1;
    var reduced := if shifted & 0x80 != 0 then shifted ^ 0x83 else shifted;
    (reduced & 0x7f) as bv7
  }

  function Xtime(value: GF): GF {
    GF(XtimeBits(value.bits))
  }

  /** The i-th power of the primitive element, for any exponent. */
  function Exp(i: nat): GF {
    if i == 0 then ONE else Xtime(Exp(i - 1))
  }

  ghost predicate IsLog(a: GF, i: nat) {
    i < ORDER && Exp(i) == a
  }

  /** The discrete logarithm; `LogUnique` makes it the only one. */
  ghost function Log(a: GF): (i: nat)
    requires a != ZERO
    ensures IsLog(a, i)
  {
    LogExists(a);
    var i: nat :| IsLog(a, i);
    i
  }

  /** `gf_mul`, with the table look-ups replaced by what the tables contain. */
  ghost function Mul(a: GF, b: GF): GF {
    if a == ZERO || b == ZERO then ZERO else Exp((Log(a) + Log(b)) % 127)
  }

  /** The multiplicative inverse of a nonzero element. */
  ghost function Inv(a: GF): GF {
    if a == ZERO then ZERO else Exp((ORDER - Log(a)) % 127)
  }

  ghost function Pow(a: GF, n: nat): GF {
    if n == 0 then ONE else Mul(a, Pow(a, n - 1))
  }

  // ---------------------------------------------------------------------------------------------
  // Addition is a group of exponent two.

  lemma AddZero(a: GF)
    ensures Add(a, ZERO) == a && Add(ZERO, a) == a
    ensures Add(a, a) == ZERO
  {
  }

  lemma AddCommutes(a: GF, b: GF)
    ensures Add(a, b) == Add(b, a)
  {
  }

  lemma AddAssociates(a: GF, b: GF, c: GF)
    ensures Add(Add(a, b), c) == Add(a, Add(b, c))
  {
  }

  /** Sums of sums may be regrouped. */
  lemma AddRegroup(a: GF, b: GF, c: GF, d: GF)
    ensures Add(Add(a, b), Add(c, d)) == Add(Add(a, c), Add(b, d))
  {
  }

  lemma AddCancel(a: GF, b: GF)
    ensures Add(a, b) == ZERO <==> a == b
    ensures Add(a, Add(a, b)) == b
    ensures Add(Add(b, a), a) == b
  {
    AddAssociates(a, a, b);
    AddAssociates(a, b, b);
    AddAssociates(b, a, a);
    AddZero(a);
    AddZero(b);
    hide Add;
  }

  // ---------------------------------------------------------------------------------------------
  // The powers of x run through every nonzero element exactly once.

  /** The same map without the branch: bit 6 comes back as x + 1. */
  function XtimeForm(v: bv7): bv7 {
    (v << 1) ^ (v >> 6) ^ ((v >> 6) << 1)
  }

  lemma XtimeHasForm(v: bv7)
    ensures XtimeBits(v) == XtimeForm(v)
  {
  }

  lemma XtimeFormLinear(a: bv7, b: bv7)
    ensures XtimeForm(a ^ b) == XtimeForm(a) ^ XtimeForm(b)
  {
  }

  lemma XtimeBitsLinear(a: bv7, b: bv7)
    ensures XtimeBits(a ^ b) == XtimeBits(a) ^ XtimeBits(b)
  {
    hide XtimeBits, XtimeForm;
    XtimeHasForm(a);
    XtimeHasForm(b);
    XtimeHasForm(a ^ b);
    XtimeFormLinear(a, b);
  }

  lemma XtimeLinear(a: GF, b: GF)
    ensures Xtime(Add(a, b)) == Add(Xtime(a), Xtime(b))
  {
    hide XtimeBits;
    XtimeBitsLinear(a.bits, b.bits);
  }

  /** Undoes `XtimeForm`. */
  function XtimeBack(w: bv7): bv7 {
    ((w ^ ((w & 1) << 1)) >> 1) | ((w & 1) << 6)
  }

  lemma XtimeFormInverse(a: bv7)
    ensures XtimeBack(XtimeForm(a)) == a
  {
  }

  lemma XtimeInjective(a: GF, b: GF)
    requires Xtime(a) == Xtime(b)
    ensures a == b
  {
    hide XtimeBits, XtimeForm, XtimeBack;
    XtimeHasForm(a.bits);
    XtimeHasForm(b.bits);
    XtimeFormInverse(a.bits);
    XtimeFormInverse(b.bits);
  }

  function Xtime4(v: GF): GF {
    Xtime(Xtime(Xtime(Xtime(v))))
  }

  /** `a` is none of v, xv, x^2 v, x^3 v. */
  predicate Misses4(a: GF, v: GF) {
    a != v && a != Xtime(v) && a != Xtime(Xtime(v)) && a != Xtime(Xtime(Xtime(v)))
  }

  lemma Exp4(i: nat, v: GF)
    requires Exp(i) == v
    ensures Exp(i + 1) == Xtime(v)
    ensures Exp(i + 2) == Xtime(Xtime(v))
    ensures Exp(i + 3) == Xtime(Xtime(Xtime(v)))
    ensures Exp(i + 4) == Xtime4(v)
  {
    hide Xtime;
    assert Exp(i + 2) == Xtime(Exp(i + 1));
    assert Exp(i + 3) == Xtime(Exp(i + 2));
  }

  ghost predicate IsPower(a: GF) {
    exists j: nat :: j < 128 && Exp(j) == a
  }

  lemma Exp8(i: nat, v: GF, a: GF)
    requires Exp(i) == v && i + 8 <= 128
    ensures Exp(i + 8) == Xtime4(Xtime4(v))
    ensures IsPower(a) || (Misses4(a, v) && Misses4(a, Xtime4(v)))
  {
    hide Xtime;
    Exp4(i, v);
    Exp4(i + 4, Xtime4(v));
  }

  /** One turn through the powers hits every nonzero element. */
  lemma PowersCover(a: GF)
    ensures a != ZERO ==> IsPower(a)
  {
    Exp8(0, ONE, a);        Exp8(8, Exp(8), a);
    Exp8(16, Exp(16), a);   Exp8(24, Exp(24), a);
    Exp8(32, Exp(32), a);   Exp8(40, Exp(40), a);
    Exp8(48, Exp(48), a);   Exp8(56, Exp(56), a);
    Exp8(64, Exp(64), a);   Exp8(72, Exp(72), a);
    Exp8(80, Exp(80), a);   Exp8(88, Exp(88), a);
    Exp8(96, Exp(96), a);   Exp8(104, Exp(104), a);
    Exp8(112, Exp(112), a); Exp8(120, Exp(120), a);
  }

  /** The powers return to 1 after 127 steps: the check `bch_tables` makes cannot fail. */
  lemma ExpOrder()
    ensures Exp(ORDER) == ONE
  {
    Exp8(0, ONE, ONE);       Exp8(8, Exp(8), ONE);
    Exp8(16, Exp(16), ONE);  Exp8(24, Exp(24), ONE);
    Exp8(32, Exp(32), ONE);  Exp8(40, Exp(40), ONE);
    Exp8(48, Exp(48), ONE);  Exp8(56, Exp(56), ONE);
    Exp8(64, Exp(64), ONE);  Exp8(72, Exp(72), ONE);
    Exp8(80, Exp(80), ONE);  Exp8(88, Exp(88), ONE);
    Exp8(96, Exp(96), ONE);  Exp8(104, Exp(104), ONE);
    Exp8(112, Exp(112), ONE);
    Exp4(120, Exp(120));
    Exp4(123, Exp(123));
  }

  /** The field is that of x^7 + x + 1. */
  lemma PowersReduce()
    ensures Exp(7) == Add(Exp(1), Exp(0)) && Exp(1) == GF(2) && Exp(0) == GF(1)
  {
    assert Exp(1) == GF(2);
    assert Exp(2) == GF(4);
    assert Exp(3) == GF(8);
    assert Exp(4) == GF(16);
    assert Exp(5) == GF(32);
    assert Exp(6) == GF(64);
  }

  lemma {:induction false} ExpPeriodic(i: nat)
    ensures Exp(i + ORDER) == Exp(i)
  {
    if i == 0 {
      ExpOrder();
    } else {
      ExpPeriodic(i - 1);
    }
  }

  lemma {:induction false} ExpMod(i: nat)
    ensures Exp(i) == Exp(i % 127)
  {
    if i >= ORDER {
      ExpPeriodic(i - ORDER);
      ExpMod(i - ORDER);
    }
  }

  lemma OrderIsPrime(d: nat)
    requires 1 < d < ORDER
    ensures ORDER % d != 0
    ensures (ORDER / d) * d + ORDER % d == ORDER
  {
  }

  lemma {:induction false} ExpMultiple(d: nat, k: nat, r: nat)
    requires Exp(d) == ONE
    ensures Exp(k * d + r) == Exp(r)
  {
    if k > 0 {
      ExpShift(d, (k - 1) * d + r);
      ExpMultiple(d, k - 1, r);
      assert k * d + r == d + ((k - 1) * d + r);
    }
  }

  lemma {:induction false} ExpShift(d: nat, r: nat)
    requires Exp(d) == ONE
    ensures Exp(d + r) == Exp(r)
  {
    if r > 0 {
      ExpShift(d, r - 1);
    }
  }

  /** No smaller power is 1, because 127 is prime. */
  lemma {:induction false} ExpNotOne(d: nat)
    requires 0 < d < ORDER
    ensures Exp(d) != ONE
  {
    if d > 1 && Exp(d) == ONE {
      ExpOrder();
      OrderIsPrime(d);
      ExpMultiple(d, ORDER / d, ORDER % d);
      ExpNotOne(ORDER % d);
    }
  }

  lemma {:induction false} ExpNonzero(i: nat)
    ensures Exp(i) != ZERO
  {
    if i > 0 {
      ExpNonzero(i - 1);
      if Exp(i) == ZERO {
        XtimeInjective(Exp(i - 1), ZERO);
      }
    }
  }

  lemma LogExists(a: GF)
    requires a != ZERO
    ensures exists i: nat :: IsLog(a, i)
  {
    PowersCover(a);
    ExpOrder();
    var j: nat :| j < 128 && Exp(j) == a;
    assert IsLog(a, if j == ORDER then 0 else j);
  }

  lemma {:induction false} ExpInjective(i: nat, j: nat)
    requires i < ORDER && j < ORDER && Exp(i) == Exp(j)
    ensures i == j
    decreases i + j
  {
    if i == 0 || j == 0 {
      if i + j > 0 {
        ExpNotOne(i + j);
      }
    } else {
      XtimeInjective(Exp(i - 1), Exp(j - 1));
      ExpInjective(i - 1, j - 1);
    }
  }

  lemma LogUnique(i: nat)
    ensures Exp(i) != ZERO && Log(Exp(i)) == i % 127
  {
    ExpNonzero(i);
    ExpMod(i);
    ExpInjective(Log(Exp(i)), i % 127);
  }

  // ---------------------------------------------------------------------------------------------
  // The table-driven product is the multiplication of a field.

  lemma ModAdds(i: nat, j: nat)
    ensures (i % 127 + j % 127) % 127 == (i + j) % 127
  {
  }

  lemma MulExp(i: nat, j: nat)
    ensures Mul(Exp(i), Exp(j)) == Exp(i + j)
  {
    LogUnique(i);
    LogUnique(j);
    ExpMod(i + j);
    ModAdds(i, j);
  }

  lemma MulExpStep(i: nat, b: GF)
    requires i > 0
    ensures Mul(Exp(i), b) == Xtime(Mul(Exp(i - 1), b))
  {
    if b != ZERO {
      MulExp(i, Log(b));
      MulExp(i - 1, Log(b));
    }
  }

  lemma {:induction false} ExpDistributes(i: nat, b: GF, c: GF)
    ensures Mul(Exp(i), Add(b, c)) == Add(Mul(Exp(i), b), Mul(Exp(i), c))
  {
    hide Mul, Add, Xtime;
    if i == 0 {
      MulOne(b);
      MulOne(c);
      MulOne(Add(b, c));
    } else {
      ExpDistributes(i - 1, b, c);
      MulExpStep(i, b);
      MulExpStep(i, c);
      MulExpStep(i, Add(b, c));
      XtimeLinear(Mul(Exp(i - 1), b), Mul(Exp(i - 1), c));
    }
  }

  lemma MulOne(a: GF)
    ensures Mul(ONE, a) == a && Mul(a, ONE) == a
  {
    if a != ZERO {
      MulExp(0, Log(a));
      MulExp(Log(a), 0);
    }
  }

  lemma MulZero(a: GF)
    ensures Mul(ZERO, a) == ZERO && Mul(a, ZERO) == ZERO
  {
  }

  lemma MulCommutes(a: GF, b: GF)
    ensures Mul(a, b) == Mul(b, a)
  {
  }

  lemma MulAssociates(a: GF, b: GF, c: GF)
    ensures Mul(Mul(a, b), c) == Mul(a, Mul(b, c))
  {
    if a != ZERO && b != ZERO && c != ZERO {
      var i, j, k := Log(a), Log(b), Log(c);
      MulExp(i, j);
      MulExp(j, k);
      MulExp(i + j, k);
      MulExp(i, j + k);
    }
  }

  lemma MulDistributes(a: GF, b: GF, c: GF)
    ensures Mul(a, Add(b, c)) == Add(Mul(a, b), Mul(a, c))
    ensures Mul(Add(b, c), a) == Add(Mul(b, a), Mul(c, a))
  {
    if a != ZERO {
      ExpDistributes(Log(a), b, c);
    }
    MulCommutes(a, b);
    MulCommutes(a, c);
    MulCommutes(a, Add(b, c));
  }

  /** There are no zero divisors. */
  lemma MulNonzero(a: GF, b: GF)
    ensures Mul(a, b) == ZERO <==> a == ZERO || b == ZERO
  {
    if a != ZERO && b != ZERO {
      ExpNonzero((Log(a) + Log(b)) % 127);
    }
  }

  lemma MulInverse(a: GF)
    requires a != ZERO
    ensures Mul(a, Inv(a)) == ONE
  {
    var i := Log(a);
    MulExp(i, (ORDER - i) % 127);
    ExpOrder();
  }

  /** Squaring is additive in characteristic 2. */
  lemma Frobenius(a: GF, b: GF)
    ensures Mul(Add(a, b), Add(a, b)) == Add(Mul(a, a), Mul(b, b))
  {
    var p, q, r := Mul(a, a), Mul(a, b), Mul(b, b);
    MulDistributes(Add(a, b), a, b);
    MulDistributes(a, a, b);
    MulDistributes(b, a, b);
    MulCommutes(a, b);
    AddRegroup(p, q, q, r);
    AddCommutes(q, r);
    AddRegroup(p, q, r, q);
    AddZero(q);
    AddZero(Add(p, r));
  }

  lemma {:induction false} PowExp(p: nat, t: nat)
    ensures Pow(Exp(p), t) == Exp(p * t)
  {
    hide Mul;
    if t == 0 {
      assert p * t == 0;
    } else {
      PowExp(p, t - 1);
      MulExp(p, p * (t - 1));
      assert p + p * (t - 1) == p * t;
    }
  }
}
