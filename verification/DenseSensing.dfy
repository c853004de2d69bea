/**
 `dense_sensing_stride_hits_symbol`: whether sampling every `stride`-th symbol of an endless repetition of
 the frame ever lands on a given symbol.
 */
module DenseSensing {
  import opened RingIndex

  /** Some multiple of the stride is congruent to the symbol. */
  ghost predicate Hits(stride: nat, n: nat, symbol: nat)
    requires n > 0
  {
    exists k: nat :: (k * stride) % n == symbol
  }

  predicate Divides(d: nat, x: nat)
    requires d > 0
  {
    x % d == 0
  }

  /** A combination x * a + y * b. */
  ghost predicate IsCombination(g: int, a: nat, b: nat) {
    exists x: int, y: int :: g == Combination(x, y, a, b)
  }

  function Combination(x: int, y: int, a: nat, b: nat): int {
    x * a + y * b
  }

  lemma MultipleDivides(d: nat, q: int, x: nat)
    requires d > 0 && x == q * d
    ensures Divides(d, x)
  {
    RemainderOf(x, q, d, 0);
  }

  /** Adding a multiple of n does not change the remainder. */
  lemma RemainderOf(x: int, q: int, n: nat, r: nat)
    requires n > 0 && r < n && x == q * n + r
    ensures x % n == r
  {
    var p := x / n;
    assert x == p * n + x % n;
    assert (q - p) * n == q * n - p * n;
    SmallMultiple(n, q - p);
  }

  lemma DividesSum(d: nat, x: nat, y: nat, q: nat)
    requires d > 0 && Divides(d, x) && Divides(d, y)
    ensures Divides(d, q * x + y)
  {
    var a, b := x / d, y / d;
    assert x == a * d && y == b * d;
    assert q * (a * d) == (q * a) * d;
    assert q * x + y == (q * a + b) * d;
    MultipleDivides(d, q * a + b, q * x + y);
  }

  /** The remainder of a combination by its second number is again one. */
  lemma CombinationBack(g: int, a: nat, b: nat, x: int, y: int)
    requires b > 0 && g == Combination(x, y, b, a % b)
    ensures IsCombination(g, a, b)
  {
    var q := a / b;
    assert a == q * b + a % b;
    assert y * (a % b) == y * a - y * (q * b);
    assert y * (q * b) == (y * q) * b;
    assert (x - y * q) * b == x * b - (y * q) * b;
    assert g == Combination(y, x - y * q, a, b);
  }

  /** What Euclid's algorithm on a and b delivers. */
  ghost predicate IsGcd(g: nat, a: nat, b: nat) {
    g > 0 && Divides(g, a) && Divides(g, b) && IsCombination(g, a, b)
  }

  lemma GcdStep(g: nat, a: nat, b: nat)
    requires b > 0 && IsGcd(g, b, a % b)
    ensures IsGcd(g, a, b)
  {
    var q := a / b;
    assert a == q * b + a % b;
    DividesSum(g, b, a % b, q);
    var x: int, y: int :| g == Combination(x, y, b, a % b);
    CombinationBack(g, a, b, x, y);
  }

  /** `std::gcd`. */
  function Gcd(a: nat, b: nat): (g: nat)
    requires a > 0 || b > 0
    ensures IsGcd(g, a, b)
    decreases b
  {
    if b == 0 then
      assert a == Combination(1, 0, a, b);
      a
    else
      GcdStep(Gcd(b, a % b), a, b);
      Gcd(b, a % b)
  }

  function StrideHitsSymbol(n: nat, stride: nat, symbol: nat): bool {
    if n == 0 || stride == 0 || symbol >= n then false
    else symbol % Gcd(stride, n) == 0
  }

  lemma Reassociate(a: int, b: int, c: int)
    ensures a * (b * c) == (a * b) * c
  {
  }

  /** Scaling a combination, and replacing its first factor by a remainder. */
  lemma ShiftedCombination(stride: nat, n: nat, g: nat, m: nat, x: int, y: int, k: int, q: int)
    requires g == x * stride + y * n && m * x == q * n + k
    ensures k * stride == (0 - (q * stride) - m * y) * n + m * g
  {
    assert m * g == m * (x * stride) + m * (y * n);
    Reassociate(m, x, stride);
    Reassociate(m, y, n);
    assert (m * x) * stride == (q * n) * stride + k * stride;
    assert (q * n) * stride == (q * stride) * n;
    assert (0 - (q * stride) - m * y) * n == 0 - (q * stride) * n - (m * y) * n;
  }

  /** Every multiple of the divisor is hit: scale a combination, and shift it to a natural number. */
  lemma MultipleIsHit(stride: nat, n: nat, g: nat, m: nat)
    requires IsGcd(g, stride, n) && n > 0 && m * g < n
    ensures Hits(stride, n, m * g)
  {
    var x: int, y: int :| g == Combination(x, y, stride, n);
    var k: nat := (m * x) % n;
    var q := (m * x) / n;
    ShiftedCombination(stride, n, g, m, x, y, k, q);
    RemainderOf(k * stride, 0 - (q * stride) - m * y, n, m * g);
  }

  /** Whatever is hit is a multiple of every common divisor. */
  lemma HitIsMultiple(stride: nat, n: nat, g: nat, k: nat, symbol: nat)
    requires g > 0 && n > 0 && Divides(g, stride) && Divides(g, n) && (k * stride) % n == symbol
    ensures Divides(g, symbol)
  {
    var q, a, b := (k * stride) / n, stride / g, n / g;
    assert symbol == k * stride - q * n;
    assert stride == a * g && n == b * g;
    Reassociate(k, a, g);
    Reassociate(q, b, g);
    assert (k * a - q * b) * g == (k * a) * g - (q * b) * g;
    MultipleDivides(g, k * a - q * b, symbol);
  }

  /** The test is exact. */
  lemma StrideTestIsExact(n: nat, stride: nat, symbol: nat)
    requires n > 0 && stride > 0 && symbol < n
    ensures StrideHitsSymbol(n, stride, symbol) <==> Hits(stride, n, symbol)
  {
    var g := Gcd(stride, n);
    hide Gcd;
    if symbol % g == 0 {
      assert symbol == (symbol / g) * g;
      MultipleIsHit(stride, n, g, symbol / g);
    }
    if Hits(stride, n, symbol) {
      var k: nat :| (k * stride) % n == symbol;
      HitIsMultiple(stride, n, g, k, symbol);
    }
  }
}
