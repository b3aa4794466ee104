/** Gaussian-beam quantities shared by both engines: wavenumber, Rayleigh
    length, beam size at distance z, the wavefront-curvature phase and the
    Gouy phase. */
module Beam {
  import opened Kernels

  /** k0 = 2*pi/wavelength. */
  function Wavenumber(wavelength: real): real
    requires wavelength != 0.0
  {
    2.0 * Pi / wavelength
  }

  /** Z = pi*w**2/wavelength: zero exactly for a zero waist, of either sign. */
  function RayleighLength(w: real, wavelength: real): (r: real)
    requires wavelength != 0.0
    ensures r == 0.0 <==> w == 0.0
  {
    PowTwoSign(w);
    var area := Pi * Pow(w, 2);
    assert w != 0.0 ==> area > 0.0;
    assert area / wavelength == 0.0 <==> area == 0.0;
    area / wavelength
  }

  /** w(z) = w*sqrt(1 + (z/Z)**2): the beam size at distance z, never zero
      for a non-zero waist. */
  function BeamSize(k: Kernels, w: real, z: real, rayleigh: real): (r: real)
    requires k.SqrtPositive()
    requires rayleigh != 0.0
    ensures w != 0.0 ==> r != 0.0
  {
    var root := k.sqrt(1.0 + Pow(z / rayleigh, 2));
    PowTwoSign(z / rayleigh);
    assert w != 0.0 ==> w * root != 0.0 by {
      if w > 0.0 { assert w * root > 0.0; } else if w < 0.0 { assert w * root < 0.0; }
    }
    w * root
  }

  /** The exponent theta of exp(1j*theta) for the wavefront curvature,
      -k0*d2/2/(z**2 + Z**2)*z at squared distance d2 from the axis
      ((u - u0)**2 on one HG axis, X**2 + Y**2 for an LG mode). */
  function CurvaturePhase(k0: real, d2: real, z: real, rayleigh: real): (theta: real)
    requires rayleigh != 0.0
  {
    PowTwoSign(z);
    PowTwoSign(rayleigh);
    -(k0 * d2 / 2.0 / (Pow(z, 2) + Pow(rayleigh, 2)) * z)
  }

  /** On the waist plane z == 0 the wavefront is flat: no curvature phase. */
  lemma CurvaturePhaseAtWaist(k0: real, d2: real, rayleigh: real)
    requires rayleigh != 0.0
    ensures CurvaturePhase(k0, d2, 0.0, rayleigh) == 0.0
  {
  }

  /** The Gouy phase (n + 1/2)*arctan2(z, Z) of an order-n axis. */
  function GouyPhase(k: Kernels, n: int, z: real, rayleigh: real): real {
    (n as real + 0.5) * k.atan2(z, rayleigh)
  }

  /** Two axes of orders nx and ny that share one Rayleigh length
      contribute (nx + ny + 1)*arctan2(z, Z) together. */
  lemma GouyPhaseSum(k: Kernels, nx: int, ny: int, z: real, rayleigh: real)
    ensures GouyPhase(k, nx, z, rayleigh) + GouyPhase(k, ny, z, rayleigh)
            == ((nx + ny + 1) as real) * k.atan2(z, rayleigh)
  {
  }
}
