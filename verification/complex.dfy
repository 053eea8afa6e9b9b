/**
  Exact complex arithmetic and the interleaved buffer layout used by the
  acquisition engine: complex value n of a `float` buffer lives at slot 2n
  (real part) and slot 2n+1 (imaginary part).
 */
module ComplexArith {

  datatype Complex = Complex(re: real, im: real)

  const Zero: Complex := Complex(0.0, 0.0)

  function Add(a: Complex, b: Complex): Complex {
    Complex(a.re + b.re, a.im + b.im)
  }

  function Mul(a: Complex, b: Complex): Complex {
    Complex(a.re * b.re - a.im * b.im, a.re * b.im + a.im * b.re)
  }

  function Conj(a: Complex): Complex {
    Complex(a.re, -a.im)
  }

  /** Squared magnitude |a|^2; the engine never takes a square root. */
  function NormSq(a: Complex): (r: real)
    ensures r >= 0.0
  {
    a.re * a.re + a.im * a.im
  }

  /** |a b|^2 = |a|^2 |b|^2 */
  lemma NormSqMul(a: Complex, b: Complex)
    ensures NormSq(Mul(a, b)) == NormSq(a) * NormSq(b)
  {
    var x, y, u, v := a.re, a.im, b.re, b.im;
    calc {
      NormSq(Mul(a, b));
      (x * u - y * v) * (x * u - y * v) + (x * v + y * u) * (x * v + y * u);
      x * x * u * u + y * y * v * v + x * x * v * v + y * y * u * u;
      (x * x + y * y) * (u * u + v * v);
    }
  }

  /** Complex value n of an interleaved buffer. */
  function At(buf: seq<real>, n: int): Complex
    requires 0 <= n && 2 * n + 1 < |buf|
  {
    Complex(buf[2 * n], buf[2 * n + 1])
  }
}
