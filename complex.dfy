/** The `complex double` arithmetic that the measurement code uses through
    the compiler's complex extension, over exact reals. */
module Complex {
  import RealArith

  datatype Complex = Complex(re: real, im: real)

  const Zero := Complex(0.0, 0.0)

  function Add(a: Complex, b: Complex): Complex
  {
    Complex(a.re + b.re, a.im + b.im)
  }

  function Sub(a: Complex, b: Complex): Complex
  {
    Complex(a.re - b.re, a.im - b.im)
  }

  function Mul(a: Complex, b: Complex): Complex
  {
    Complex(a.re * b.re - a.im * b.im, a.re * b.im + a.im * b.re)
  }

  /** A real times a complex value (`REFERENCE_R * vm`). */
  function Scale(s: real, a: Complex): Complex
  {
    Complex(s * a.re, s * a.im)
  }

  /** A complex value divided by a real (`z / (double)NUM_AVG`). */
  function DivReal(a: Complex, d: real): Complex
    requires d != 0.0
  {
    Complex(a.re / d, a.im / d)
  }

  /** |b|², the denominator of complex division. */
  function NormSq(b: Complex): real
  {
    b.re * b.re + b.im * b.im
  }

  lemma NormSqPositive(b: Complex)
    requires b != Zero
    ensures NormSq(b) > 0.0
  {
    RealArith.SumOfSquaresPositive(b.re, b.im, NormSq(b));
  }

  /** Complex division, defined only for a non-zero divisor. */
  function Div(a: Complex, b: Complex): (q: Complex)
    requires b != Zero
    ensures Mul(q, b) == a
  {
    NormSqPositive(b);
    var d := NormSq(b);
    var q := Complex((a.re * b.re + a.im * b.im) / d, (a.im * b.re - a.re * b.im) / d);
    DivMul(a, b, d, q);
    q
  }

  /** Dividing then multiplying back by the divisor gives the dividend. */
  lemma DivMul(a: Complex, b: Complex, d: real, q: Complex)
    requires d == NormSq(b) && d != 0.0
    requires q == Complex((a.re * b.re + a.im * b.im) / d, (a.im * b.re - a.re * b.im) / d)
    ensures Mul(q, b) == a
  {
    var x, y := a.re * b.re + a.im * b.im, a.im * b.re - a.re * b.im;
    calc {
      q.re * b.re - q.im * b.im;
      (x * b.re - y * b.im) / d;
      { assert x * b.re - y * b.im == a.re * d; }
      a.re;
    }
    calc {
      q.re * b.im + q.im * b.re;
      (x * b.im + y * b.re) / d;
      { assert x * b.im + y * b.re == a.im * d; }
      a.im;
    }
  }
}
