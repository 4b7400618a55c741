/** Complex numbers as pairs of reals, with the arithmetic of
    `std::complex<double>` that the state operations use. */
module Complexes {

  datatype Complex = Complex(re: real, im: real)

  const Zero: Complex := Complex(0.0, 0.0)

  /** The imaginary unit. */
  const I: Complex := Complex(0.0, 1.0)

  /** A real number as a complex one. */
  function Of(r: real): Complex { Complex(r, 0.0) }

  function Add(a: Complex, b: Complex): Complex { Complex(a.re + b.re, a.im + b.im) }

  function Sub(a: Complex, b: Complex): Complex { Complex(a.re - b.re, a.im - b.im) }

  function Mul(a: Complex, b: Complex): Complex
  {
    Complex(a.re * b.re - a.im * b.im, a.re * b.im + a.im * b.re)
  }

  /** `std::norm`: the squared modulus. */
  function NormSq(a: Complex): (n: real)
    ensures n >= 0.0
  {
    SumOfSquares(a.re, a.im, a.re * a.re, a.im * a.im, a.re * a.re + a.im * a.im);
    a.re * a.re + a.im * a.im
  }

  /** Division by a non-zero number: the number that b multiplies into a. */
  function Div(a: Complex, b: Complex): (r: Complex)
    requires b != Zero
    ensures Mul(r, b) == a
  {
    NormSqPositive(b);
    var d := NormSq(b);
    var p, q := a.re * b.re + a.im * b.im, a.im * b.re - a.re * b.im;
    QuotientTimes(p, q, b.re, b.im, d, a.re, a.im);
    Complex(p / d, q / d)
  }

  /** The two components of (p/d + i q/d)(u + iv) when p and q are the
      components of a times the conjugate of u + iv and d = u² + v². */
  lemma QuotientTimes(p: real, q: real, u: real, v: real, d: real, x: real, y: real)
    requires d != 0.0 && d == u * u + v * v
    requires p == x * u + y * v && q == y * u - x * v
    ensures (p / d) * u - (q / d) * v == x
    ensures (p / d) * v + (q / d) * u == y
  {
    var P, Q := p / d, q / d;
    assert P * d == p && Q * d == q;
    assert p * u - q * v == x * d;
    assert p * v + q * u == y * d;
    assert (P * u - Q * v) * d == x * d;
    assert (P * v + Q * u) * d == y * d;
  }

  /** Only zero has squared modulus zero. */
  lemma NormSqPositive(a: Complex)
    ensures NormSq(a) == 0.0 <==> a == Zero
  {
    SumOfSquares(a.re, a.im, a.re * a.re, a.im * a.im, NormSq(a));
  }

  /** The squared distance of two numbers vanishes only when they are equal. */
  lemma DistanceZero(p: Complex, q: Complex)
    ensures NormSq(Sub(p, q)) == 0.0 <==> p == q
  {
    var u, v := p.re - q.re, p.im - q.im;
    SumOfSquares(u, v, u * u, v * v, NormSq(Sub(p, q)));
  }

  /** A sum of two squares is never negative, and zero only when both
      numbers are. The squares are passed in as p and q so that the proof
      reasons about them as quantities. */
  lemma SumOfSquares(u: real, v: real, p: real, q: real, n: real)
    requires p == u * u && q == v * v && n == p + q
    ensures n >= 0.0
    ensures n == 0.0 <==> u == 0.0 && v == 0.0
  {
    SquareSign(u, p);
    SquareSign(v, q);
  }

  /** The square p of x is never negative, and zero only for zero. */
  lemma SquareSign(x: real, p: real)
    requires p == x * x
    ensures p >= 0.0
    ensures x != 0.0 ==> p > 0.0
    ensures x == 0.0 ==> p == 0.0
  {
    if x > 0.0 {
      ProductPositive(x, x, p);
    } else if x < 0.0 {
      ProductPositive(-x, -x, p);
    }
  }

  lemma ProductPositive(a: real, b: real, p: real)
    requires a > 0.0 && b > 0.0 && p == a * b
    ensures p > 0.0
  {
  }

  /** Subtraction undoes addition. */
  lemma AddSubCancel(a: Complex, b: Complex)
    ensures Sub(Add(a, b), b) == a
  {
  }

  /** Division undoes multiplication by a non-zero number. */
  lemma {:induction false} MulDivCancel(a: Complex, b: Complex)
    requires b != Zero
    ensures Div(Mul(a, b), b) == a
  {
    NormSqPositive(b);
    var m := Mul(a, b);
    ProductTimesConjugate(a.re, a.im, b.re, b.im, m.re, m.im, NormSq(b));
  }

  /** (x + iy)(u + iv) times the conjugate u - iv is (x + iy)(u² + v²),
      so dividing by u² + v² gives x + iy back. */
  lemma ProductTimesConjugate(x: real, y: real, u: real, v: real, mr: real, mi: real, d: real)
    requires d != 0.0 && d == u * u + v * v
    requires mr == x * u - y * v && mi == x * v + y * u
    ensures (mr * u + mi * v) / d == x
    ensures (mi * u - mr * v) / d == y
  {
    assert mr * u + mi * v == x * d;
    assert mi * u - mr * v == y * d;
  }

  /** Multiplying by i turns (a, b) into (-b, a). */
  lemma MulI(a: Complex)
    ensures Mul(a, I) == Complex(-a.im, a.re)
  {
  }

  lemma MulCommutes(a: Complex, b: Complex)
    ensures Mul(a, b) == Mul(b, a)
  {
  }
}
