/**
 `detect_sec_sync_symbol`: correlation of each symbol with its successor, by sums that slide along the
 data. Arithmetic is exact; the angle of the best correlation is left to the caller.
 */
module SecSync {
  import opened ComplexValues

  const FLOOR := 0.000_000_000_001

  /** The product and the energy at sample `at`, with the sample one symbol later. */
  function ProductAt(data: seq<Complex>, symbolLen: nat, at: nat): Complex
    requires at + symbolLen < |data|
  {
    ConjTimes(data[at], data[at + symbolLen])
  }

  function EnergyAt(data: seq<Complex>, symbolLen: nat, at: nat): real
    requires at + symbolLen < |data|
  {
    Norm(data[at + symbolLen])
  }

  /** The direct sums over the n samples from `at` on. */
  function Products(data: seq<Complex>, symbolLen: nat, at: nat, n: nat): Complex
    requires at + n + symbolLen <= |data|
    decreases n
  {
    if n == 0 then ZERO
    else Add(Products(data, symbolLen, at, n - 1), ProductAt(data, symbolLen, at + n - 1))
  }

  function Energies(data: seq<Complex>, symbolLen: nat, at: nat, n: nat): real
    requires at + n + symbolLen <= |data|
    decreases n
  {
    if n == 0 then 0.0 else Energies(data, symbolLen, at, n - 1) + EnergyAt(data, symbolLen, at + n - 1)
  }

  /** Sliding one sample on: the first term leaves, the next one comes in. */
  lemma {:induction false} ProductsSlide(data: seq<Complex>, symbolLen: nat, at: nat, n: nat)
    requires at + n + 1 + symbolLen <= |data|
    ensures Products(data, symbolLen, at + 1, n)
            == Sub(Products(data, symbolLen, at, n + 1), ProductAt(data, symbolLen, at))
  {
    hide ProductAt;
    if n > 0 {
      ProductsSlide(data, symbolLen, at, n - 1);
    } else {
      assert Products(data, symbolLen, at, 1) == Add(Products(data, symbolLen, at, 0), ProductAt(data, symbolLen, at));
    }
  }

  lemma {:induction false} EnergiesSlide(data: seq<Complex>, symbolLen: nat, at: nat, n: nat)
    requires at + n + 1 + symbolLen <= |data|
    ensures Energies(data, symbolLen, at + 1, n) == Energies(data, symbolLen, at, n + 1) - EnergyAt(data, symbolLen, at)
  {
    hide EnergyAt;
    if n > 0 {
      EnergiesSlide(data, symbolLen, at, n - 1);
    } else {
      assert Energies(data, symbolLen, at, 1) == Energies(data, symbolLen, at, 0) + EnergyAt(data, symbolLen, at);
    }
  }

  function Ratio(p: Complex, r: real): (q: real)
    ensures q >= 0.0
  {
    var denominator := if r * r < FLOOR then FLOOR else r * r;
    QuotientSign(Norm(p), denominator);
    Norm(p) / denominator
  }

  lemma QuotientSign(a: real, b: real)
    requires a >= 0.0 && b > 0.0
    ensures a / b >= 0.0
  {
  }

  /** The metric of a symbol start, from the direct sums. */
  function Metric(data: seq<Complex>, fftSize: nat, cpLength: nat, start: nat): (r: real)
    requires start + 2 * (fftSize + cpLength) <= |data|
    ensures r >= 0.0
  {
    Ratio(Products(data, fftSize + cpLength, start + cpLength, fftSize),
          Energies(data, fftSize + cpLength, start + cpLength, fftSize))
  }

  datatype Detection = Nothing | Found(start: nat, metric: real, correlation: Complex)

  /** The earliest start with the largest metric, and the direct correlation there. */
  ghost predicate IsBest(data: seq<Complex>, fftSize: nat, cpLength: nat, n: nat, d: Detection) {
    && n + 2 * (fftSize + cpLength) <= |data| + 1
    && d.Found? && d.start < n && d.metric == Metric(data, fftSize, cpLength, d.start)
    && (forall s | 0 <= s < n :: Metric(data, fftSize, cpLength, s) <= d.metric)
    && (forall s | 0 <= s < d.start :: Metric(data, fftSize, cpLength, s) < d.metric)
    && d.correlation == Products(data, fftSize + cpLength, d.start + cpLength, fftSize)
  }

  lemma FirstIsBest(data: seq<Complex>, fftSize: nat, cpLength: nat)
    requires 2 * (fftSize + cpLength) <= |data|
    ensures IsBest(data, fftSize, cpLength, 1,
              Found(0, Metric(data, fftSize, cpLength, 0), Products(data, fftSize + cpLength, cpLength, fftSize)))
  {
    hide Metric, Products;
  }

  lemma NextBest(data: seq<Complex>, fftSize: nat, cpLength: nat, n: nat, d: Detection)
    requires IsBest(data, fftSize, cpLength, n, d) && n + 2 * (fftSize + cpLength) <= |data|
    ensures var metric := Metric(data, fftSize, cpLength, n);
            IsBest(data, fftSize, cpLength, n + 1,
              if metric > d.metric
              then Found(n, metric, Products(data, fftSize + cpLength, n + cpLength, fftSize)) else d)
  {
    hide Metric, Products;
  }

  /** The sums of the first window, term by term. */
  method FirstSums(data: seq<Complex>, symbolLen: nat, at: nat, n: nat) returns (pSum: Complex, rSum: real)
    requires at + n + symbolLen <= |data|
    ensures pSum == Products(data, symbolLen, at, n) && rSum == Energies(data, symbolLen, at, n)
  {
    pSum, rSum := ZERO, 0.0;
    for i := 0 to n
      invariant pSum == Products(data, symbolLen, at, i) && rSum == Energies(data, symbolLen, at, i)
    {
      pSum := Add(pSum, ProductAt(data, symbolLen, at + i));
      rSum := rSum + EnergyAt(data, symbolLen, at + i);
    }
  }

  method DetectSecSync(data: seq<Complex>, fftSize: nat, cpLength: nat, sampleRate: real) returns (d: Detection)
    ensures d.Nothing? <==> fftSize == 0 || sampleRate <= 0.0 || |data| < 2 * (fftSize + cpLength)
    ensures d.Found? ==> IsBest(data, fftSize, cpLength, |data| - 2 * (fftSize + cpLength) + 1, d)
  {
    if fftSize == 0 || sampleRate <= 0.0 {
      return Nothing;
    }
    var symbolLen := fftSize + cpLength;
    if |data| < 2 * symbolLen {
      return Nothing;
    }
    hide ProductAt, EnergyAt, Metric, Ratio, Add, Sub, IsBest, Products, Energies;
    var maxStart := |data| - 2 * symbolLen;
    var pSum, rSum := FirstSums(data, symbolLen, cpLength, fftSize);
    var best := Found(0, 0.0, pSum);
    for start := 0 to maxStart + 1
      invariant start <= maxStart ==>
                  && pSum == Products(data, symbolLen, start + cpLength, fftSize)
                  && rSum == Energies(data, symbolLen, start + cpLength, fftSize)
      invariant best.Found?
      invariant start == 0 ==> best == Found(0, 0.0, pSum)
      invariant start > 0 ==> IsBest(data, fftSize, cpLength, start, best)
    {
      var metric := Ratio(pSum, rSum);
      MetricIs(data, fftSize, cpLength, start, pSum, rSum);
      if start == 0 {
        FirstIsBest(data, fftSize, cpLength);
      } else {
        NextBest(data, fftSize, cpLength, start, best);
      }
      if metric > best.metric {
        best := Found(start, metric, pSum);
      }
      if start == maxStart {
        break;
      }
      var leaving, entering := start + cpLength, start + cpLength + fftSize;
      SumsSlide(data, symbolLen, leaving, fftSize);
      pSum := Sub(pSum, ProductAt(data, symbolLen, leaving));
      pSum := Add(pSum, ProductAt(data, symbolLen, entering));
      rSum := rSum - EnergyAt(data, symbolLen, leaving) + EnergyAt(data, symbolLen, entering);
    }
    return best;
  }

  /** What the four updates of a slide add up to. */
  lemma SumsSlide(data: seq<Complex>, symbolLen: nat, at: nat, n: nat)
    requires at + n + 1 + symbolLen <= |data|
    ensures Add(Sub(Products(data, symbolLen, at, n), ProductAt(data, symbolLen, at)),
                ProductAt(data, symbolLen, at + n))
            == Products(data, symbolLen, at + 1, n)
    ensures Energies(data, symbolLen, at, n) - EnergyAt(data, symbolLen, at) + EnergyAt(data, symbolLen, at + n)
            == Energies(data, symbolLen, at + 1, n)
  {
    ProductsSlide(data, symbolLen, at, n);
    EnergiesSlide(data, symbolLen, at, n);
    SubAdd(Products(data, symbolLen, at, n), ProductAt(data, symbolLen, at), ProductAt(data, symbolLen, at + n));
    hide ProductAt, EnergyAt, Add, Sub;
  }

  lemma MetricIs(data: seq<Complex>, fftSize: nat, cpLength: nat, start: nat, p: Complex, r: real)
    requires start + 2 * (fftSize + cpLength) <= |data|
    requires p == Products(data, fftSize + cpLength, start + cpLength, fftSize)
    requires r == Energies(data, fftSize + cpLength, start + cpLength, fftSize)
    ensures Metric(data, fftSize, cpLength, start) == Ratio(p, r)
  {
    hide Ratio, Products, Energies;
  }

  lemma SubAdd(a: Complex, b: Complex, c: Complex)
    ensures Add(Sub(a, b), c) == Sub(Add(a, c), b)
  {
  }

  /** The product of two complex numbers. */
  function Times(a: Complex, b: Complex): Complex {
    Complex(a.re * b.re - a.im * b.im, a.re * b.im + a.im * b.re)
  }

  /** The energy of the samples themselves. */
  function Energy(data: seq<Complex>, at: nat, n: nat): real
    requires at + n <= |data|
    decreases n
  {
    if n == 0 then 0.0 else Energy(data, at, n - 1) + Norm(data[at + n - 1])
  }

  lemma SampleRotates(a: Complex, z: Complex)
    ensures ConjTimes(a, Times(a, z)) == Scale(z, Norm(a))
    ensures Norm(Times(a, z)) == Norm(z) * Norm(a)
  {
    Distributes(a.re, a.im, z.re, z.im);
    NormsMultiply(a.re, a.im, z.re, z.im);
  }

  lemma Distributes(x: real, y: real, u: real, v: real)
    ensures x * (x * u - y * v) + y * (x * v + y * u) == u * (x * x + y * y)
    ensures x * (x * v + y * u) - y * (x * u - y * v) == v * (x * x + y * y)
  {
  }

  lemma NormsMultiply(x: real, y: real, u: real, v: real)
    ensures (x * u - y * v) * (x * u - y * v) + (x * v + y * u) * (x * v + y * u) == (u * u + v * v) * (x * x + y * y)
  {
    Expands(u * u, v * v, x * x, y * y);
    Squares(x * u, y * v);
    Squares(x * v, -(y * u));
    assert (x * u) * (y * v) == (x * v) * (y * u);
    assert (x * u) * (x * u) == (u * u) * (x * x) && (y * v) * (y * v) == (v * v) * (y * y);
    assert (x * v) * (x * v) == (v * v) * (x * x) && (y * u) * (y * u) == (u * u) * (y * y);
  }

  lemma Expands(a: real, b: real, c: real, d: real)
    ensures (a + b) * (c + d) == a * c + a * d + b * c + b * d
  {
  }

  lemma Squares(p: real, q: real)
    ensures (p - q) * (p - q) == p * p + q * q - 2.0 * (p * q)
  {
  }

  lemma Regrouped(z: Complex, e: real, f: real)
    ensures Add(Scale(z, e), Scale(z, f)) == Scale(z, e + f)
  {
  }

  lemma ScaleByZero(z: Complex)
    ensures Scale(z, 0.0) == ZERO
  {
  }

  /** If the next symbol is the same times z, the correlation is z times the energy of the symbol. */
  lemma {:induction false} RotatedProducts(data: seq<Complex>, symbolLen: nat, at: nat, n: nat, z: Complex)
    requires at + n + symbolLen <= |data| && forall i | at <= i < at + n :: data[i + symbolLen] == Times(data[i], z)
    ensures Products(data, symbolLen, at, n) == Scale(z, Energy(data, at, n))
  {
    hide Times, Norm, ConjTimes, Scale, Add;
    if n == 0 {
      ScaleByZero(z);
    } else {
      RotatedProducts(data, symbolLen, at, n - 1, z);
      var a := data[at + n - 1];
      assert data[at + n - 1 + symbolLen] == Times(a, z);
      SampleRotates(a, z);
      Regrouped(z, Energy(data, at, n - 1), Norm(a));
    }
  }

  /** And its energy is that of the symbol times |z|^2. */
  lemma {:induction false} RotatedEnergies(data: seq<Complex>, symbolLen: nat, at: nat, n: nat, z: Complex)
    requires at + n + symbolLen <= |data| && forall i | at <= i < at + n :: data[i + symbolLen] == Times(data[i], z)
    ensures Energies(data, symbolLen, at, n) == Norm(z) * Energy(data, at, n)
  {
    hide Times, Norm;
    if n > 0 {
      RotatedEnergies(data, symbolLen, at, n - 1, z);
      var a := data[at + n - 1];
      assert data[at + n - 1 + symbolLen] == Times(a, z);
      SampleRotates(a, z);
      assert Norm(z) * (Energy(data, at, n - 1) + Norm(a)) == Norm(z) * Energy(data, at, n - 1) + Norm(z) * Norm(a);
    }
  }

  lemma MetricOfScaled(z: Complex, e: real, energy: real)
    requires energy == Norm(z) * e && energy * energy >= 0.000_000_000_001
    ensures Ratio(Scale(z, e), energy) * Norm(z) == 1.0
  {
    var w := Norm(z);
    assert Norm(Scale(z, e)) == w * (e * e) by {
      assert (z.re * e) * (z.re * e) == (z.re * z.re) * (e * e);
      assert (z.im * e) * (z.im * e) == (z.im * z.im) * (e * e);
    }
    hide Norm;
    assert energy * energy == (w * (e * e)) * w;
    CancelFactor(w * (e * e), w);
  }

  lemma CancelFactor(a: real, w: real)
    requires a * w > 0.0
    ensures a / (a * w) * w == 1.0
  {
    assert a * w / (a * w) == 1.0;
    Commute(a, a * w, w);
  }

  lemma Commute(a: real, d: real, w: real)
    requires d != 0.0
    ensures a / d * w == a * w / d
  {
  }

  /**
   A symbol followed by itself times z, with enough energy, has metric 1 / |z|^2, and the correlation found
   there is z times the energy of the symbol: its angle is the rotation over one symbol.
   */
  lemma RotatedMetric(data: seq<Complex>, fftSize: nat, cpLength: nat, start: nat, z: Complex, energy: real)
    requires start + 2 * (fftSize + cpLength) <= |data|
    requires forall i | start + cpLength <= i < start + cpLength + fftSize ::
               data[i + (fftSize + cpLength)] == Times(data[i], z)
    requires energy == Norm(z) * Energy(data, start + cpLength, fftSize) && energy * energy >= 0.000_000_000_001
    ensures Metric(data, fftSize, cpLength, start) * Norm(z) == 1.0
    ensures Products(data, fftSize + cpLength, start + cpLength, fftSize)
            == Scale(z, Energy(data, start + cpLength, fftSize))
  {
    hide Norm, Products, Energies, Energy, Times, Ratio, Scale, Metric;
    RotatedProducts(data, fftSize + cpLength, start + cpLength, fftSize, z);
    RotatedEnergies(data, fftSize + cpLength, start + cpLength, fftSize, z);
    assert Energies(data, fftSize + cpLength, start + cpLength, fftSize) == energy;
    MetricOfScaled(z, Energy(data, start + cpLength, fftSize), energy);
    MetricIs(data, fftSize, cpLength, start, Scale(z, Energy(data, start + cpLength, fftSize)), energy);
    SameProduct(Metric(data, fftSize, cpLength, start),
                Ratio(Scale(z, Energy(data, start + cpLength, fftSize)), energy), Norm(z));
  }

  lemma SameProduct(x: real, y: real, w: real)
    requires x == y && y * w == 1.0
    ensures x * w == 1.0
  {
  }

  lemma Unit(x: real, w: real)
    requires x * w == 1.0 && w == 1.0
    ensures x == 1.0
  {
  }

  /** A symbol repeated exactly, with enough energy, has metric one. */
  lemma RepeatedIsOne(data: seq<Complex>, fftSize: nat, cpLength: nat, start: nat)
    requires start + 2 * (fftSize + cpLength) <= |data|
    requires forall i | start + cpLength <= i < start + cpLength + fftSize ::
               data[i + (fftSize + cpLength)] == data[i]
    requires var e := Energy(data, start + cpLength, fftSize); e * e >= 0.000_000_000_001
    ensures Metric(data, fftSize, cpLength, start) == 1.0
  {
    var one := Complex(1.0, 0.0);
    assert Norm(one) == 1.0;
    forall i | start + cpLength <= i < start + cpLength + fftSize
      ensures data[i + (fftSize + cpLength)] == Times(data[i], one)
    {
    }
    hide Metric, Products, Energy, Times, Norm;
    RotatedMetric(data, fftSize, cpLength, start, one, Energy(data, start + cpLength, fftSize));
    Unit(Metric(data, fftSize, cpLength, start), Norm(one));
  }
}
