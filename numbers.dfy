/** ComplexNumber: an immutable (re, im) pair with exact real components. */
module Numbers {
  import opened Outcomes

  datatype Complex = Complex(re: real, im: real)

  const Zero: Complex := Complex(0.0, 0.0)
  const One: Complex := Complex(1.0, 0.0)
  const I: Complex := Complex(0.0, 1.0)

  /** `a + b`, component-wise. */
  function Add(a: Complex, b: Complex): Complex
  {
    Complex(a.re + b.re, a.im + b.im)
  }

  /** `a - b`, component-wise. */
  function Sub(a: Complex, b: Complex): Complex
  {
    Complex(a.re - b.re, a.im - b.im)
  }

  /** `a * b` = (ac − bd, ad + bc); on the real axis it is the product of reals. */
  function Mul(a: Complex, b: Complex): (r: Complex)
    ensures a.im == 0.0 && b.im == 0.0 ==> r.re == a.re * b.re && r.im == 0.0
  {
    Complex(a.re * b.re - a.im * b.im, a.re * b.im + a.im * b.re)
  }

  /** The square of Magnitude (re² + im²), never negative. The kernel only compares
      Magnitude with 0 or squares it, so the square root itself is never needed. */
  function NormSq(a: Complex): (r: real)
    ensures r >= 0.0
  {
    a.re * a.re + a.im * a.im
  }

  /** Complex division: fails exactly on a zero divisor (the source tests
      `Magnitude == 0`); DivThenMul states what the quotient is. */
  function Div(a: Complex, b: Complex): (r: Result<Complex>)
    ensures r.Failure? <==> b == Zero
    ensures r.Failure? ==> r.error == DivideByZero
  {
    MagnitudeZeroIffZero(b);
    if NormSq(b) == 0.0 then Failure(DivideByZero) else Success(Quotient(a, b))
  }

  /** The quotient formula of the division operator, for a divisor of nonzero norm:
      multiplied back by the divisor it gives the dividend. */
  function Quotient(a: Complex, b: Complex): (r: Complex)
    requires NormSq(b) != 0.0
    ensures Mul(r, b) == a
  {
    var d := b.re * b.re + b.im * b.im;
    var p := a.re * b.re + a.im * b.im;
    var q := a.im * b.re - a.re * b.im;
    var x, y := p / d, q / d;
    assert x * d == p && y * d == q;
    assert (x * b.re - y * b.im) * d == p * b.re - q * b.im;
    assert p * b.re - q * b.im == a.re * d;
    assert (x * b.im + y * b.re) * d == p * b.im + q * b.re;
    assert p * b.im + q * b.re == a.im * d;
    Complex(x, y)
  }

  /** `a * scalar`: the same as multiplying by the complex number (scalar, 0). */
  function Scale(a: Complex, scalar: real): (r: Complex)
    ensures r == Mul(a, Complex(scalar, 0.0))
  {
    Complex(a.re * scalar, a.im * scalar)
  }

  /** `scalar * a`: the same number as `a * scalar`. */
  function ScaleLeft(scalar: real, a: Complex): (r: Complex)
    ensures r == Scale(a, scalar)
  {
    Complex(a.re * scalar, a.im * scalar)
  }

  /** The mirror image in the real axis. */
  function Conjugate(a: Complex): Complex
  {
    Complex(a.re, -a.im)
  }

  /** Exact field-wise comparison, with no tolerance. */
  function Equals(a: Complex, b: Complex): (r: bool)
    ensures r <==> a == b
  {
    a.re == b.re && a.im == b.im
  }

  /** Only Zero has magnitude 0: the test `b.Magnitude == 0` is exactly `b == Zero`. */
  lemma MagnitudeZeroIffZero(a: Complex)
    ensures NormSq(a) == 0.0 <==> a == Zero
  {
    if a != Zero {
      NormSqPositive(a);
    }
  }

  lemma NormSqPositive(a: Complex)
    requires a != Zero
    ensures NormSq(a) > 0.0
  {
    // the squares are written as products with the conjugate's components, which
    // keeps the solver's nonlinear reasoning to one sign case at a time
    var c := Conjugate(a);
    assert a.re * c.re >= 0.0 && -(a.im * c.im) >= 0.0;
    if a.re != 0.0 {
      assert a.re * c.re > 0.0;
    } else {
      assert -(a.im * c.im) > 0.0;
    }
    assert Mul(a, c).re > 0.0;
  }

  // ---- laws of the operators ----

  lemma AddCommutes(a: Complex, b: Complex)
    ensures Add(a, b) == Add(b, a)
  {
  }

  lemma ZeroIsAdditiveIdentity(a: Complex)
    ensures Add(a, Zero) == a && Add(Zero, a) == a
  {
  }

  lemma MulCommutes(a: Complex, b: Complex)
    ensures Mul(a, b) == Mul(b, a)
  {
  }

  lemma OneIsMultiplicativeIdentity(a: Complex)
    ensures Mul(a, One) == a && Mul(One, a) == a
  {
  }

  lemma MulAssociates(a: Complex, b: Complex, c: Complex)
    ensures Mul(Mul(a, b), c) == Mul(a, Mul(b, c))
  {
  }

  lemma MulDistributesOverAdd(a: Complex, b: Complex, c: Complex)
    ensures Mul(Add(a, b), c) == Add(Mul(a, c), Mul(b, c))
  {
  }

  lemma ZeroAnnihilates(a: Complex)
    ensures Mul(a, Zero) == Zero && Mul(Zero, a) == Zero
  {
  }

  /** For a nonzero divisor, (a / b) * b == a. */
  lemma DivThenMul(a: Complex, b: Complex)
    requires b != Zero
    ensures Div(a, b).Success? && Mul(Div(a, b).value, b) == a
  {
    MagnitudeZeroIffZero(b);
  }

  /** a / a == One for every nonzero a. */
  lemma DivSelf(a: Complex)
    requires a != Zero
    ensures Div(a, a) == Success(One)
  {
    MagnitudeZeroIffZero(a);
    NormSqPositive(a);
    var d := NormSq(a);
    assert a.re * a.re + a.im * a.im == d;
    assert a.im * a.re - a.re * a.im == 0.0;
    SelfRatio(d);
    assert Quotient(a, a) == One;
  }

  lemma ConjugateInvolution(a: Complex)
    ensures Conjugate(Conjugate(a)) == a
  {
  }

  lemma ConjugateOfProduct(a: Complex, b: Complex)
    ensures Conjugate(Mul(a, b)) == Mul(Conjugate(a), Conjugate(b))
  {
  }

  lemma ConjugateOfSum(a: Complex, b: Complex)
    ensures Conjugate(Add(a, b)) == Add(Conjugate(a), Conjugate(b))
  {
  }

  /** |a·b|² == |a|²·|b|². */
  lemma NormSqMultiplicative(a: Complex, b: Complex)
    ensures NormSq(Mul(a, b)) == NormSq(a) * NormSq(b)
  {
    SumsOfTwoSquares(a.re, a.im, b.re, b.im);
  }

  /** The Brahmagupta–Fibonacci identity, on plain reals. */
  lemma SumsOfTwoSquares(p: real, q: real, s: real, t: real)
    ensures (p * s - q * t) * (p * s - q * t) + (p * t + q * s) * (p * t + q * s)
         == (p * p + q * q) * (s * s + t * t)
  {
  }

  lemma SelfRatio(d: real)
    requires d != 0.0
    ensures d / d == 1.0 && 0.0 / d == 0.0
  {
  }

  /** (a + b) − b == a. */
  lemma SubUndoesAdd(a: Complex, b: Complex)
    ensures Sub(Add(a, b), b) == a
  {
  }

  /** a·conj(a) is the real number ∣a∣². */
  lemma ConjugateProductIsNormSq(a: Complex)
    ensures Mul(a, Conjugate(a)) == Complex(NormSq(a), 0.0)
  {
  }

  /** I² == −1. */
  lemma ISquaredIsMinusOne()
    ensures Mul(I, I) == Complex(-1.0, 0.0)
  {
  }
}
