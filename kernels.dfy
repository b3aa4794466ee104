/** The special and transcendental functions the mode engines call (scipy's
    `hermite` and `genlaguerre`, numpy's `exp`, `sqrt`, `arctan2`, the complex
    exponential, and the factorial normalisation constants). The model does
    not compute them: they are a parameter of every operation, and the only
    facts assumed about them are stated as predicates where they are needed.
    numpy's pi is a constant. */
module Kernels {
  import opened Complex

  datatype Kernels = Kernels(
    /** physicist's Hermite polynomial H_n evaluated at a point */
    hermite: (nat, real) -> real,
    /** generalised Laguerre polynomial L_p^m evaluated at a point */
    laguerre: (nat, nat, real) -> real,
    /** 1/sqrt(w * 2^(n - 1/2) * n! * sqrt(pi)), the HG axis normalisation for size w */
    hgNorm: (real, nat) -> real,
    /** sqrt(2 * p! / (pi * (m + p)!)), the LG normalisation before division by w(z) */
    lgNorm: (nat, nat) -> real,
    exp: real -> real,
    sqrt: real -> real,
    atan2: (real, real) -> real,
    cos: real -> real,
    sin: real -> real)
  {
    /** The square root of a positive number is positive; this keeps every
        division by a beam size w(z) = w * sqrt(1 + (z/Z)^2) well defined. */
    ghost predicate SqrtPositive() {
      forall t: real :: t > 0.0 ==> sqrt(t) > 0.0
    }

    /** exp(i*0) == 1 holds of the kernels' cosine and sine. */
    predicate CisZeroIsOne() {
      cos(0.0) == 1.0 && sin(0.0) == 0.0
    }

    /** numpy's exp(1j * theta), by Euler's formula. */
    function Cis(theta: real): Complex {
      Complex(cos(theta), sin(theta))
    }
  }

  /** np.pi, the double nearest to pi. */
  const Pi: real := 3.141592653589793

  /** x ** n for a non-negative integer exponent (numpy's `**` with an int power). */
  function Pow(x: real, n: nat): real {
    if n == 0 then 1.0 else x * Pow(x, n - 1)
  }

  /** A square x ** 2 is never negative, and positive unless x is zero. */
  lemma PowTwoSign(x: real)
    ensures Pow(x, 2) >= 0.0
    ensures x != 0.0 ==> Pow(x, 2) > 0.0
  {
    var p := Pow(x, 1);
    assert p == x * Pow(x, 0);
    assert Pow(x, 2) == x * p;
    if x > 0.0 {
      assert p > 0.0;
      assert x * p > 0.0;
    } else if x < 0.0 {
      assert p < 0.0;
      assert x * p > 0.0;
    }
  }

  lemma CisZero(k: Kernels)
    requires k.CisZeroIsOne()
    ensures k.Cis(0.0) == One
  {
  }
}
