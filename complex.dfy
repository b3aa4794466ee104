/** Complex numbers as pairs of exact reals, with the few operations the
    mode engines use (numpy's complex `+`, `*`, `conj` and real scaling). */
module Complex {

  datatype Complex = Complex(re: real, im: real)

  const Zero: Complex := Complex(0.0, 0.0)
  const One: Complex := Complex(1.0, 0.0)

  function Add(a: Complex, b: Complex): Complex {
    Complex(a.re + b.re, a.im + b.im)
  }

  function Mul(a: Complex, b: Complex): Complex {
    Complex(a.re * b.re - a.im * b.im, a.re * b.im + a.im * b.re)
  }

  /** A real number times a complex one (a real numpy array times a complex one). */
  function Scale(s: real, a: Complex): Complex {
    Complex(s * a.re, s * a.im)
  }

  function Conj(a: Complex): Complex {
    Complex(a.re, -a.im)
  }

  /** a*x + b*y, the combination in which linearity is stated. */
  function Combine(a: Complex, x: Complex, b: Complex, y: Complex): Complex {
    Add(Mul(a, x), Mul(b, y))
  }

  lemma MulOne(a: Complex)
    ensures Mul(a, One) == a && Mul(One, a) == a
  {
  }

  lemma MulAssoc(a: Complex, b: Complex, c: Complex)
    ensures Mul(Mul(a, b), c) == Mul(a, Mul(b, c))
  {
    assert Mul(Mul(a, b), c).re == Mul(a, Mul(b, c)).re;
    assert Mul(Mul(a, b), c).im == Mul(a, Mul(b, c)).im;
  }

  lemma MulComm(a: Complex, b: Complex)
    ensures Mul(a, b) == Mul(b, a)
  {
  }

  /** (a*x + b*y)*m == a*(x*m) + b*(y*m): multiplication distributes over Combine. */
  lemma CombineMul(a: Complex, x: Complex, b: Complex, y: Complex, m: Complex)
    ensures Mul(Combine(a, x, b, y), m) == Combine(a, Mul(x, m), b, Mul(y, m))
  {
    MulAssoc(a, x, m);
    MulAssoc(b, y, m);
    var l := Mul(Combine(a, x, b, y), m);
    var r := Combine(a, Mul(x, m), b, Mul(y, m));
    assert l.re == r.re;
    assert l.im == r.im;
  }

  /** Multiplication distributes over addition. */
  lemma MulAdd(a: Complex, x1: Complex, x2: Complex)
    ensures Mul(a, Add(x1, x2)) == Add(Mul(a, x1), Mul(a, x2))
  {
    var l := Mul(a, Add(x1, x2));
    var r := Add(Mul(a, x1), Mul(a, x2));
    assert l.re == a.re * x1.re + a.re * x2.re - (a.im * x1.im + a.im * x2.im);
    assert l.im == a.re * x1.im + a.re * x2.im + (a.im * x1.re + a.im * x2.re);
  }

  /** Combine of two sums is the sum of the Combines. */
  lemma CombineAdd(a: Complex, x1: Complex, x2: Complex, b: Complex, y1: Complex, y2: Complex)
    ensures Combine(a, Add(x1, x2), b, Add(y1, y2)) == Add(Combine(a, x1, b, y1), Combine(a, x2, b, y2))
  {
    MulAdd(a, x1, x2);
    MulAdd(b, y1, y2);
  }

  /** Scaling by a real is multiplication by that real seen as a complex number. */
  lemma ScaleIsMul(s: real, a: Complex)
    ensures Scale(s, a) == Mul(a, Complex(s, 0.0))
  {
  }

  lemma CombineScale(a: Complex, x: Complex, b: Complex, y: Complex, s: real)
    ensures Scale(s, Combine(a, x, b, y)) == Combine(a, Scale(s, x), b, Scale(s, y))
  {
    var c := Complex(s, 0.0);
    ScaleIsMul(s, Combine(a, x, b, y));
    ScaleIsMul(s, x);
    ScaleIsMul(s, y);
    CombineMul(a, x, b, y, c);
  }
}
