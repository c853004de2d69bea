/**
 Complex numbers over the reals.
 */
module ComplexValues {
  datatype Complex = Complex(re: real, im: real)

  const ZERO := Complex(0.0, 0.0)

  function Add(a: Complex, b: Complex): Complex {
    Complex(a.re + b.re, a.im + b.im)
  }

  function Sub(a: Complex, b: Complex): Complex {
    Complex(a.re - b.re, a.im - b.im)
  }

  function Scale(a: Complex, k: real): Complex {
    Complex(a.re * k, a.im * k)
  }

  /** conj(a) * b */
  function ConjTimes(a: Complex, b: Complex): Complex {
    Complex(a.re * b.re + a.im * b.im, a.re * b.im - a.im * b.re)
  }

  lemma SquareSign(x: real)
    ensures x * x >= 0.0
  {
  }

  function Norm(a: Complex): (r: real)
    ensures r >= 0.0
  {
    SquareSign(a.re);
    SquareSign(a.im);
    a.re * a.re + a.im * a.im
  }
}
