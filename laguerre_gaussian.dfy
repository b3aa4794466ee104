/** The Laguerre-Gaussian engine: analytic evaluation of one LG mode (p, m)
    on an x/y grid at distance z, projection of a field onto a mode,
    decomposition into the rectangle of modes, and reconstruction. */
module LaguerreGaussian {
  import opened Complex
  import opened Kernels
  import opened Errors
  import opened Grid
  import opened Fields
  import opened Beam
  import opened Projection

  /** The beam parameters shared by every mode: waist w0 at focus and wavelength. */
  datatype LGBeam = LGBeam(w0: real, wavelength: real)

  /** A beam whose Rayleigh length can be divided by. */
  predicate FocusedBeam(beam: LGBeam) {
    beam.wavelength != 0.0 && RayleighLength(beam.w0, beam.wavelength) != 0.0
  }

  /** A beam is focused exactly when its wavelength and the waist are
      non-zero; a negative size is as good as a positive one. */
  lemma FocusedBeamInputs(beam: LGBeam)
    ensures FocusedBeam(beam) <==> beam.wavelength != 0.0 && beam.w0 != 0.0
  {
  }

  /** The error LGAnalytic raises before it looks at the mode numbers, in the
      order the source meets them: coordinates that are not 1-D fail the
      asserts; a zero wavelength divides k0 by zero; a zero Rayleigh length
      divides z by zero. */
  function InputError(x: Array, y: Array, beam: LGBeam): (e: Option<Error>)
    ensures e == None <==> x.IsVector() && y.IsVector() && FocusedBeam(beam)
    ensures e == Some(AssertionFailed) <==> !x.IsVector() || !y.IsVector()
    ensures e == Some(ZeroDivision) <==>
              x.IsVector() && y.IsVector() && (beam.wavelength == 0.0 || beam.w0 == 0.0)
  {
    if !x.IsVector() || !y.IsVector() then Some(AssertionFailed)
    else if beam.wavelength == 0.0 then Some(ZeroDivision)
    else if RayleighLength(beam.w0, beam.wavelength) == 0.0 then Some(ZeroDivision)
    else None
  }

  /** The Gouy factor 2p + m + 1 of mode (p, m): at least one, so every mode
      gains phase along z. */
  function GouyOrder(p: nat, m: nat): (g: real)
    ensures g >= 1.0
    ensures g == 1.0 <==> p == 0 && m == 0
  {
    2.0 * (p as real) + (m as real) + 1.0
  }

  /** The real amplitude of mode (p, m) at squared radius r2 for beam size wz:
      A * (sqrt(2)*sqrt(r2)/wz)**m * L_p^m(2*r2/wz**2) * exp(-r2/wz**2),
      with A the normalisation divided by wz. */
  function RadialAmplitude(k: Kernels, r2: real, wz: real, p: nat, m: nat): real
    requires wz != 0.0
  {
    PowTwoSign(wz);
    k.lgNorm(p, m) / wz * Pow(k.sqrt(2.0) * k.sqrt(r2) / wz, m)
      * k.laguerre(p, m, 2.0 * r2 / Pow(wz, 2)) * k.exp(-r2 / Pow(wz, 2))
  }

  /** Every factor of the mode that depends on the grid point only through
      r2 = X**2 + Y**2: the radial amplitude, the curvature phase and the
      Gouy phase exp(1j*phiZ). */
  function RadialProfile(k: Kernels, r2: real, z: real, beam: LGBeam, p: nat, m: nat): Complex
    requires k.SqrtPositive() && FocusedBeam(beam)
  {
    var rayleigh := RayleighLength(beam.w0, beam.wavelength);
    var wz := BeamSize(k, beam.w0, z, rayleigh);
    Mul(Scale(RadialAmplitude(k, r2, wz, p, m), k.Cis(CurvaturePhase(Wavenumber(beam.wavelength), r2, z, rayleigh))),
        k.Cis(GouyOrder(p, m) * k.atan2(z, rayleigh)))
  }

  /** The azimuthal factor exp(-1j*m*arctan2(Y, X)). */
  function AzimuthalFactor(k: Kernels, u: real, v: real, m: nat): Complex {
    k.Cis(-((m as real) * k.atan2(v, u)))
  }

  /** The value of mode (p, m) at the grid point (u, v). */
  function ModeAt(k: Kernels, u: real, v: real, z: real, beam: LGBeam, p: nat, m: nat): Complex
    requires k.SqrtPositive() && FocusedBeam(beam)
  {
    Mul(RadialProfile(k, Pow(u, 2) + Pow(v, 2), z, beam, p, m), AzimuthalFactor(k, u, v, m))
  }

  /** The mode on numpy's 'ij' meshgrid: an array of shape [len(x), len(y)]
      whose entry (i, j) is the mode at (x[i], y[j]). */
  function ModeField(k: Kernels, xs: seq<real>, ys: seq<real>, z: real, beam: LGBeam, p: nat, m: nat): (f: Field)
    requires k.SqrtPositive() && FocusedBeam(beam)
    ensures HasShape(f, |xs|, |ys|)
    ensures forall i, j :: 0 <= i < |xs| && 0 <= j < |ys| ==> f[i][j] == ModeAt(k, xs[i], ys[j], z, beam, p, m)
  {
    var grids := MeshgridIJ(xs, ys);
    seq(|xs|, i requires 0 <= i < |xs| =>
      seq(|ys|, j requires 0 <= j < |ys| => ModeAt(k, grids.0[i][j], grids.1[i][j], z, beam, p, m)))
  }

  /** LGAnalytic: the field of mode (p, m) at distance z. A negative p makes
      `math.factorial` raise ValueError, and so does a negative m, through
      `math.factorial(m + p)` or through genlaguerre's check on alpha = m. */
  function EvaluateLG(k: Kernels, x: Array, y: Array, z: real, beam: LGBeam, p: int, m: int): (r: Result<Field>)
    requires k.SqrtPositive()
    ensures InputError(x, y, beam).Some? ==> r == Err(InputError(x, y, beam).value)
    ensures InputError(x, y, beam).None? ==> (r.Err? <==> p < 0 || m < 0)
    ensures r.Err? && InputError(x, y, beam).None? ==> r.error == ValueError
    ensures r.Ok? ==> p >= 0 && m >= 0 && HasShape(r.value, |x.flat|, |y.flat|)
    ensures r.Ok? ==> forall i, j :: 0 <= i < |x.flat| && 0 <= j < |y.flat| ==>
              r.value[i][j] == ModeAt(k, x.flat[i], y.flat[j], z, beam, p, m)
  {
    match InputError(x, y, beam)
    case Some(e) => Err(e)
    case None =>
      if p < 0 || m < 0 then Err(ValueError)
      else Ok(ModeField(k, x.flat, y.flat, z, beam, p, m))
  }

  /** A mode with m == 0 is its radial profile alone. */
  lemma ModeAtZeroAzimuth(k: Kernels, u: real, v: real, z: real, beam: LGBeam, p: nat)
    requires k.SqrtPositive() && FocusedBeam(beam) && k.CisZeroIsOne()
    ensures ModeAt(k, u, v, z, beam, p, 0) == RadialProfile(k, Pow(u, 2) + Pow(v, 2), z, beam, p, 0)
  {
    AzimuthalFactorZero(k, u, v);
    MulOne(RadialProfile(k, Pow(u, 2) + Pow(v, 2), z, beam, p, 0));
  }

  /** A mode with m == 0 has no azimuthal dependence: its value is the same
      at any two points at the same distance from the axis. */
  lemma ModeAtRadiallySymmetric(k: Kernels, u1: real, v1: real, u2: real, v2: real, z: real, beam: LGBeam, p: nat)
    requires k.SqrtPositive() && FocusedBeam(beam) && k.CisZeroIsOne()
    requires Pow(u1, 2) + Pow(v1, 2) == Pow(u2, 2) + Pow(v2, 2)
    ensures ModeAt(k, u1, v1, z, beam, p, 0) == ModeAt(k, u2, v2, z, beam, p, 0)
  {
    ModeAtZeroAzimuth(k, u1, v1, z, beam, p);
    ModeAtZeroAzimuth(k, u2, v2, z, beam, p);
  }

  /** With m == 0 the azimuthal factor is exp(0) == 1. */
  lemma AzimuthalFactorZero(k: Kernels, u: real, v: real)
    requires k.CisZeroIsOne()
    ensures AzimuthalFactor(k, u, v, 0) == One
  {
    assert -((0 as real) * k.atan2(v, u)) == 0.0;
    CisZero(k);
  }

  /** On the waist plane, where arctan2(0, Zr) == 0, neither the curvature
      phase nor the Gouy phase contributes: the mode is the real radial
      amplitude for the waist w0 times the azimuthal factor. */
  lemma ModeAtWaist(k: Kernels, u: real, v: real, beam: LGBeam, p: nat, m: nat)
    requires k.SqrtPositive() && k.sqrt(1.0) == 1.0 && k.CisZeroIsOne()
    requires FocusedBeam(beam)
    requires k.atan2(0.0, RayleighLength(beam.w0, beam.wavelength)) == 0.0
    ensures beam.w0 != 0.0
    ensures ModeAt(k, u, v, 0.0, beam, p, m)
            == Mul(Complex(RadialAmplitude(k, Pow(u, 2) + Pow(v, 2), beam.w0, p, m), 0.0), AzimuthalFactor(k, u, v, m))
  {
    var rayleigh := RayleighLength(beam.w0, beam.wavelength);
    var r2 := Pow(u, 2) + Pow(v, 2);
    assert 0.0 / rayleigh == 0.0;
    assert Pow(0.0, 2) == 0.0;
    assert BeamSize(k, beam.w0, 0.0, rayleigh) == beam.w0;
    CurvaturePhaseAtWaist(Wavenumber(beam.wavelength), r2, rayleigh);
    assert GouyOrder(p, m) * k.atan2(0.0, rayleigh) == 0.0;
    CisZero(k);
    var a := RadialAmplitude(k, r2, beam.w0, p, m);
    assert Scale(a, One) == Complex(a, 0.0);
    MulOne(Complex(a, 0.0));
  }

  /** getLGMode: the overlap sum(field*conj(lg))*dx*dy of the field with
      mode (p, m). np.diff of a 0-d array raises ValueError; a field whose
      shape is not that of the mode, [len(x), len(y)], does not multiply with
      it; a grid of fewer than two points has a NaN spacing, which makes the
      coefficient NaN without raising. */
  function GetLGMode(k: Kernels, x: Array, y: Array, z: real, field: Field, beam: LGBeam, p: int, m: int): Result<Coefficient>
    requires k.SqrtPositive()
  {
    if |x.shape| == 0 || |y.shape| == 0 then Err(ValueError)
    else match EvaluateLG(k, x, y, z, beam, p, m)
      case Err(e) => Err(e)
      case Ok(lg) => Project(field, lg, x.flat, y.flat)
  }

  /** The error getLGMode meets for every non-negative (p, m), if any. */
  function ProjectionError(x: Array, y: Array, field: Field, beam: LGBeam): Option<Error> {
    if |x.shape| == 0 || |y.shape| == 0 then Some(ValueError)
    else if InputError(x, y, beam).Some? then InputError(x, y, beam)
    else if !HasShape(field, |x.flat|, |y.flat|) then Some(ValueError)
    else None
  }

  /** A negative mode number always makes getLGMode fail. */
  lemma GetLGModeNegativeOrder(k: Kernels, x: Array, y: Array, z: real, field: Field, beam: LGBeam, p: int, m: int)
    requires k.SqrtPositive()
    requires p < 0 || m < 0
    ensures GetLGMode(k, x, y, z, field, beam, p, m).Err?
  {
  }

  /** For non-negative (p, m) getLGMode fails exactly with the
      order-independent error, when there is one. */
  lemma GetLGModeError(k: Kernels, x: Array, y: Array, z: real, field: Field, beam: LGBeam, p: nat, m: nat)
    requires k.SqrtPositive()
    ensures GetLGMode(k, x, y, z, field, beam, p, m).Err? <==> ProjectionError(x, y, field, beam).Some?
    ensures ProjectionError(x, y, field, beam).Some? ==>
              GetLGMode(k, x, y, z, field, beam, p, m) == Err(ProjectionError(x, y, field, beam).value)
  {
    if |x.shape| > 0 && |y.shape| > 0 && InputError(x, y, beam).None? {
      var lg := EvaluateLG(k, x, y, z, beam, p, m).value;
      ProjectShaped(field, lg, x.flat, y.flat, |x.flat|, |y.flat|);
    }
  }

  /** Without an error, getLGMode is NaN on a grid of fewer than two points. */
  lemma GetLGModeNaN(k: Kernels, x: Array, y: Array, z: real, field: Field, beam: LGBeam, p: nat, m: nat)
    requires k.SqrtPositive()
    requires ProjectionError(x, y, field, beam).None?
    requires |x.flat| < 2 || |y.flat| < 2
    ensures GetLGMode(k, x, y, z, field, beam, p, m) == Ok(NaN)
  {
    var lg := EvaluateLG(k, x, y, z, beam, p, m).value;
    ProjectShaped(field, lg, x.flat, y.flat, |x.flat|, |y.flat|);
  }

  /** Without an error, on grids of two points or more, getLGMode is the overlap
      with the mode scaled by the two grid steps, to which numpy's mean
      spacings telescope. */
  lemma GetLGModeValue(k: Kernels, x: Array, y: Array, z: real, field: Field, beam: LGBeam, p: nat, m: nat)
    requires k.SqrtPositive()
    requires ProjectionError(x, y, field, beam).None?
    requires |x.flat| >= 2 && |y.flat| >= 2
    ensures FocusedBeam(beam)
    ensures GetLGMode(k, x, y, z, field, beam, p, m)
            == Ok(Number(Overlap(field, ModeField(k, x.flat, y.flat, z, beam, p, m), Step(x.flat), Step(y.flat))))
  {
    var lg := ModeField(k, x.flat, y.flat, z, beam, p, m);
    assert EvaluateLG(k, x, y, z, beam, p, m) == Ok(lg);
    ProjectShaped(field, lg, x.flat, y.flat, |x.flat|, |y.flat|);
  }

  /** On uniform grids of steps hx and hy, two points or more each, the
      coefficient is the overlap scaled by hx*hy. */
  lemma GetLGModeUniformGrid(k: Kernels, x: Array, y: Array, z: real, field: Field, beam: LGBeam, p: nat, m: nat, hx: real, hy: real)
    requires k.SqrtPositive()
    requires ProjectionError(x, y, field, beam).None?
    requires |x.flat| >= 2 && |y.flat| >= 2
    requires forall i :: 0 <= i < |x.flat| ==> x.flat[i] == x.flat[0] + (i as real) * hx
    requires forall i :: 0 <= i < |y.flat| ==> y.flat[i] == y.flat[0] + (i as real) * hy
    ensures FocusedBeam(beam)
    ensures GetLGMode(k, x, y, z, field, beam, p, m)
            == Ok(Number(Overlap(field, ModeField(k, x.flat, y.flat, z, beam, p, m), hx, hy)))
  {
    var lg := ModeField(k, x.flat, y.flat, z, beam, p, m);
    assert EvaluateLG(k, x, y, z, beam, p, m) == Ok(lg);
    ProjectUniformGrid(field, lg, x.flat, y.flat, hx, hy);
  }

  /** The projection is linear in the field: a*f + b*g projects to a*cf + b*cg,
      and a NaN coefficient is NaN for every field. */
  lemma GetLGModeLinear(k: Kernels, x: Array, y: Array, z: real, f: Field, g: Field, a: Complex, b: Complex,
                        beam: LGBeam, p: int, m: int)
    requires k.SqrtPositive()
    requires GetLGMode(k, x, y, z, f, beam, p, m).Ok?
    requires HasShape(g, |x.flat|, |y.flat|)
    ensures GetLGMode(k, x, y, z, g, beam, p, m).Ok?
    ensures SameShape(f, g)
    ensures GetLGMode(k, x, y, z, f, beam, p, m).value.NaN? ==>
              GetLGMode(k, x, y, z, g, beam, p, m) == Ok(NaN)
              && GetLGMode(k, x, y, z, CombineField(a, f, b, g), beam, p, m) == Ok(NaN)
    ensures GetLGMode(k, x, y, z, f, beam, p, m).value.Number? ==>
              GetLGMode(k, x, y, z, g, beam, p, m).value.Number?
              && GetLGMode(k, x, y, z, CombineField(a, f, b, g), beam, p, m)
                 == Ok(Number(Combine(a, GetLGMode(k, x, y, z, f, beam, p, m).value.value,
                                      b, GetLGMode(k, x, y, z, g, beam, p, m).value.value)))
  {
    var lg := EvaluateLG(k, x, y, z, beam, p, m).value;
    ProjectLinear(a, f, b, g, lg, x.flat, y.flat);
  }

  /** A field that is zero everywhere has a zero coefficient on every mode,
      on grids of two points or more. */
  lemma GetLGModeZeroField(k: Kernels, x: Array, y: Array, z: real, beam: LGBeam, p: nat, m: nat)
    requires k.SqrtPositive()
    requires ProjectionError(x, y, ZeroField(|x.flat|, |y.flat|), beam).None?
    ensures |x.flat| >= 2 && |y.flat| >= 2 ==>
              GetLGMode(k, x, y, z, ZeroField(|x.flat|, |y.flat|), beam, p, m) == Ok(Number(Zero))
  {
    var lg := ModeField(k, x.flat, y.flat, z, beam, p, m);
    assert EvaluateLG(k, x, y, z, beam, p, m) == Ok(lg);
    ProjectZero(ZeroField(|x.flat|, |y.flat|), lg, x.flat, y.flat);
  }

  /** Every entry of the dictionary is the projection onto the mode of its key. */
  predicate AllDecomposed(k: Kernels, x: Array, y: Array, z: real, field: Field, beam: LGBeam,
                          cxy: map<ModeIndex, Coefficient>)
    requires k.SqrtPositive()
  {
    forall key :: key in cxy ==> GetLGMode(k, x, y, z, field, beam, key.0, key.1) == Ok(cxy[key])
  }

  lemma AllDecomposedNext(k: Kernels, x: Array, y: Array, z: real, field: Field, beam: LGBeam,
                          cxy: map<ModeIndex, Coefficient>, key: ModeIndex, c: Coefficient)
    requires k.SqrtPositive()
    requires AllDecomposed(k, x, y, z, field, beam, cxy)
    requires GetLGMode(k, x, y, z, field, beam, key.0, key.1) == Ok(c)
    ensures AllDecomposed(k, x, y, z, field, beam, cxy[key := c])
  {
  }

  /** decomposeLG: the coefficient of every mode (p, m) with 0 <= p < pMax
      and 0 <= m < mMax, filled in row by row. The first projection, that of
      mode (0, 0), raises whatever error the inputs cause; a NaN coefficient
      (GetLGModeNaN: a grid of fewer than two points) is stored like any
      other and the loop goes on. */
  method DecomposeLG(k: Kernels, x: Array, y: Array, z: real, field: Field, beam: LGBeam, pMax: int, mMax: int)
    returns (r: Result<map<ModeIndex, Coefficient>>)
    requires k.SqrtPositive()
    ensures r.Err? <==> pMax > 0 && mMax > 0 && ProjectionError(x, y, field, beam).Some?
    ensures r.Err? ==> r.error == ProjectionError(x, y, field, beam).value
    ensures r.Ok? ==> forall key: ModeIndex :: key in r.value <==> InRectangle(key, pMax, mMax)
    ensures r.Ok? ==> forall key :: key in r.value ==>
              GetLGMode(k, x, y, z, field, beam, key.0, key.1) == Ok(r.value[key])
  {
    var cxy: map<ModeIndex, Coefficient> := map[];
    KeysBeforeEmpty(cxy, mMax);
    var i := 0;
    while i < pMax
      invariant 0 <= i && (i <= pMax || i == 0)
      invariant KeysBefore(cxy, i, 0, mMax)
      invariant AllDecomposed(k, x, y, z, field, beam, cxy)
      invariant (0, 0) in cxy ==> ProjectionError(x, y, field, beam).None?
    {
      var j := 0;
      while j < mMax
        invariant 0 <= j && (j <= mMax || j == 0)
        invariant KeysBefore(cxy, i, j, mMax)
        invariant AllDecomposed(k, x, y, z, field, beam, cxy)
        invariant (0, 0) in cxy ==> ProjectionError(x, y, field, beam).None?
      {
        var mode := GetLGMode(k, x, y, z, field, beam, i, j);
        GetLGModeError(k, x, y, z, field, beam, i, j);
        if mode.Err? {
          return Err(mode.error);
        }
        KeysBeforeNext(cxy, i, j, mMax, mode.value);
        AllDecomposedNext(k, x, y, z, field, beam, cxy, (i, j), mode.value);
        cxy := cxy[(i, j) := mode.value];
        j := j + 1;
      }
      KeysBeforeRowDone(cxy, i, j, mMax);
      i := i + 1;
    }
    KeysBeforeDone(cxy, i, pMax, mMax);
    return Ok(cxy);
  }

  /** The contribution cxy[key] * LG_key(x[i], y[j]) of one key to entry
      (i, j) of the reconstruction; zero where it is not defined. */
  ghost function LGTerm(k: Kernels, xs: seq<real>, ys: seq<real>, z: real, beam: LGBeam,
                        cxy: map<ModeIndex, Complex>, key: ModeIndex, i: int, j: int): Complex
  {
    if key in cxy && key.0 >= 0 && key.1 >= 0 && k.SqrtPositive() && FocusedBeam(beam)
       && 0 <= i < |xs| && 0 <= j < |ys|
    then Mul(cxy[key], ModeAt(k, xs[i], ys[j], z, beam, key.0, key.1))
    else Zero
  }

  ghost function LGTermAt(k: Kernels, xs: seq<real>, ys: seq<real>, z: real, beam: LGBeam,
                          cxy: map<ModeIndex, Complex>, i: int, j: int): ModeIndex -> Complex
  {
    key => LGTerm(k, xs, ys, z, beam, cxy, key, i, j)
  }

  /** The field of shape [len(x), len(y)] whose entry (i, j) is the sum over
      the given keys of cxy[key] * LG_key(x[i], y[j]). */
  ghost function ModeSum(k: Kernels, xs: seq<real>, ys: seq<real>, z: real, beam: LGBeam,
                         cxy: map<ModeIndex, Complex>, keys: set<ModeIndex>): (f: Field)
    ensures HasShape(f, |xs|, |ys|)
    ensures forall i, j :: 0 <= i < |xs| && 0 <= j < |ys| ==>
              f[i][j] == SumOver(keys, LGTermAt(k, xs, ys, z, beam, cxy, i, j))
  {
    seq(|xs|, i requires 0 <= i < |xs| =>
      seq(|ys|, j requires 0 <= j < |ys| => SumOver(keys, LGTermAt(k, xs, ys, z, beam, cxy, i, j))))
  }

  /** What the loop of reconstructLG returns on a zero array of shape
      [rows, cols]: with no keys, that array; otherwise LGAnalytic raises its
      input error, or ValueError for a negative mode number, whichever key
      comes first; numpy's in-place `+=` raises ValueError when the mode's
      shape [len(x), len(y)] is not the array's; and the result is the sum of
      cxy[key] * LG_key over all keys, whatever the dictionary's order. */
  ghost function AccumulateLGSpec(k: Kernels, x: Array, y: Array, z: real, beam: LGBeam,
                                  cxy: map<ModeIndex, Complex>, rows: nat, cols: nat): Result<Field>
  {
    if cxy == map[] then Ok(ZeroField(rows, cols))
    else if InputError(x, y, beam).Some? then Err(InputError(x, y, beam).value)
    else if exists key :: key in cxy && (key.0 < 0 || key.1 < 0) then Err(ValueError)
    else if rows != |x.flat| || cols != |y.flat| then Err(ValueError)
    else Ok(ModeSum(k, x.flat, y.flat, z, beam, cxy, cxy.Keys))
  }

  /** reconstructLG as written: the zeros have shape [len(y), len(x)];
      len() of a 0-d array raises TypeError. */
  ghost function ReconstructLGAsWrittenSpec(k: Kernels, x: Array, y: Array, z: real, beam: LGBeam,
                                            cxy: map<ModeIndex, Complex>): Result<Field>
  {
    if |x.shape| == 0 || |y.shape| == 0 then Err(TypeError)
    else AccumulateLGSpec(k, x, y, z, beam, cxy, y.shape[0], x.shape[0])
  }

  /** reconstructLG with zeros of the shape [len(x), len(y)] of the modes
      and of the fields decomposeLG accepts. */
  ghost function ReconstructLGSpec(k: Kernels, x: Array, y: Array, z: real, beam: LGBeam,
                                   cxy: map<ModeIndex, Complex>): Result<Field>
  {
    if |x.shape| == 0 || |y.shape| == 0 then Err(TypeError)
    else AccumulateLGSpec(k, x, y, z, beam, cxy, x.shape[0], y.shape[0])
  }

  lemma ModeSumEmpty(k: Kernels, xs: seq<real>, ys: seq<real>, z: real, beam: LGBeam, cxy: map<ModeIndex, Complex>)
    ensures ModeSum(k, xs, ys, z, beam, cxy, {}) == ZeroField(|xs|, |ys|)
  {
    FieldsEqual(ModeSum(k, xs, ys, z, beam, cxy, {}), ZeroField(|xs|, |ys|));
  }

  /** Adding the term of one more key to one entry of a partial reconstruction. */
  lemma ModeSumEntryStep(k: Kernels, xs: seq<real>, ys: seq<real>, z: real, beam: LGBeam,
                         cxy: map<ModeIndex, Complex>, done: set<ModeIndex>, key: ModeIndex, i: int, j: int,
                         partial: Complex, mode: Complex)
    requires k.SqrtPositive() && FocusedBeam(beam)
    requires key in cxy && key !in done && key.0 >= 0 && key.1 >= 0
    requires 0 <= i < |xs| && 0 <= j < |ys|
    requires partial == SumOver(done, LGTermAt(k, xs, ys, z, beam, cxy, i, j))
    requires mode == ModeAt(k, xs[i], ys[j], z, beam, key.0, key.1)
    ensures Add(partial, Mul(cxy[key], mode)) == SumOver(done + {key}, LGTermAt(k, xs, ys, z, beam, cxy, i, j))
  {
    var t := LGTermAt(k, xs, ys, z, beam, cxy, i, j);
    assert t(key) == Mul(cxy[key], mode);
    SumOverInsert(done, t, key, Mul(cxy[key], mode));
  }

  /** Adding the term of one more key to a partial reconstruction. */
  lemma ModeSumStep(k: Kernels, x: Array, y: Array, z: real, beam: LGBeam,
                    cxy: map<ModeIndex, Complex>, done: set<ModeIndex>, key: ModeIndex, mode: Field)
    requires k.SqrtPositive()
    requires key in cxy && key !in done && key.0 >= 0 && key.1 >= 0
    requires EvaluateLG(k, x, y, z, beam, key.0, key.1) == Ok(mode)
    ensures AddField(ModeSum(k, x.flat, y.flat, z, beam, cxy, done), ScaleField(cxy[key], mode))
            == ModeSum(k, x.flat, y.flat, z, beam, cxy, done + {key})
  {
    var xs, ys := x.flat, y.flat;
    var s := ModeSum(k, xs, ys, z, beam, cxy, done);
    var f := AddField(s, ScaleField(cxy[key], mode));
    var g := ModeSum(k, xs, ys, z, beam, cxy, done + {key});
    forall i, j | 0 <= i < |xs| && 0 <= j < |ys|
      ensures f[i][j] == g[i][j]
    {
      ModeSumEntryStep(k, xs, ys, z, beam, cxy, done, key, i, j, s[i][j], mode[i][j]);
    }
    FieldsEqual(f, g);
  }

  /** The loop of reconstructLG: `field += cxy[nxy]*LGAnalytic(...)` for
      every key, in any order, on the zero array of shape [rows, cols]. */
  method AccumulateLG(k: Kernels, x: Array, y: Array, z: real, beam: LGBeam,
                      cxy: map<ModeIndex, Complex>, rows: nat, cols: nat)
    returns (r: Result<Field>)
    requires k.SqrtPositive()
    ensures r == AccumulateLGSpec(k, x, y, z, beam, cxy, rows, cols)
  {
    var field := ZeroField(rows, cols);
    var remaining := cxy.Keys;
    ghost var done: set<ModeIndex> := {};
    while remaining != {}
      invariant remaining <= cxy.Keys
      invariant done == cxy.Keys - remaining
      invariant done != {} ==> InputError(x, y, beam).None? && rows == |x.flat| && cols == |y.flat|
      invariant forall key :: key in done ==> key.0 >= 0 && key.1 >= 0
      invariant done == {} ==> field == ZeroField(rows, cols)
      invariant done != {} ==> field == ModeSum(k, x.flat, y.flat, z, beam, cxy, done)
      decreases remaining
    {
      var key :| key in remaining;
      remaining := remaining - {key};
      var mode := EvaluateLG(k, x, y, z, beam, key.0, key.1);
      if mode.Err? {
        return Err(mode.error);
      }
      if rows != |x.flat| || cols != |y.flat| {
        return Err(ValueError);
      }
      if done == {} {
        ModeSumEmpty(k, x.flat, y.flat, z, beam, cxy);
      }
      ModeSumStep(k, x, y, z, beam, cxy, done, key, mode.value);
      field := AddField(field, ScaleField(cxy[key], mode.value));
      done := done + {key};
    }
    if cxy != map[] {
      assert done == cxy.Keys;
      assert !exists key :: key in cxy && (key.0 < 0 || key.1 < 0);
    }
    return Ok(field);
  }

  /** reconstructLG as written, with zeros of shape [len(y), len(x)]. */
  method ReconstructLGAsWritten(k: Kernels, x: Array, y: Array, z: real, beam: LGBeam, cxy: map<ModeIndex, Complex>)
    returns (r: Result<Field>)
    requires k.SqrtPositive()
    ensures r == ReconstructLGAsWrittenSpec(k, x, y, z, beam, cxy)
  {
    if |x.shape| == 0 || |y.shape| == 0 {
      return Err(TypeError);
    }
    r := AccumulateLG(k, x, y, z, beam, cxy, y.shape[0], x.shape[0]);
  }

  /** reconstructLG with zeros of shape [len(x), len(y)]. */
  method ReconstructLG(k: Kernels, x: Array, y: Array, z: real, beam: LGBeam, cxy: map<ModeIndex, Complex>)
    returns (r: Result<Field>)
    requires k.SqrtPositive()
    ensures r == ReconstructLGSpec(k, x, y, z, beam, cxy)
  {
    if |x.shape| == 0 || |y.shape| == 0 {
      return Err(TypeError);
    }
    r := AccumulateLG(k, x, y, z, beam, cxy, x.shape[0], y.shape[0]);
  }

  /** A single coefficient a on mode (p, m) reconstructs to a times that mode. */
  lemma ReconstructLGSingleMode(k: Kernels, x: Array, y: Array, z: real, beam: LGBeam, p: int, m: int, a: Complex)
    requires k.SqrtPositive()
    requires EvaluateLG(k, x, y, z, beam, p, m).Ok?
    ensures ReconstructLGSpec(k, x, y, z, beam, map[(p, m) := a])
            == Ok(ScaleField(a, EvaluateLG(k, x, y, z, beam, p, m).value))
  {
    var cxy := map[(p, m) := a];
    var key := (p, m);
    VectorLength(x);
    VectorLength(y);
    assert cxy.Keys == {key};
    var mode := EvaluateLG(k, x, y, z, beam, p, m).value;
    var f := ModeSum(k, x.flat, y.flat, z, beam, cxy, {key});
    var g := ScaleField(a, mode);
    forall i, j | 0 <= i < |x.flat| && 0 <= j < |y.flat|
      ensures f[i][j] == g[i][j]
    {
      var t := LGTermAt(k, x.flat, y.flat, z, beam, cxy, i, j);
      assert t(key) == Mul(a, mode[i][j]);
      SumOverSingleton(key, t);
    }
    FieldsEqual(f, g);
  }

  /** An empty dictionary reconstructs to zeros, of shape [len(y), len(x)]
      as written and [len(x), len(y)] corrected. */
  lemma ReconstructLGEmpty(k: Kernels, x: Array, y: Array, z: real, beam: LGBeam)
    requires |x.shape| > 0 && |y.shape| > 0
    ensures ReconstructLGAsWrittenSpec(k, x, y, z, beam, map[]) == Ok(ZeroField(y.shape[0], x.shape[0]))
    ensures ReconstructLGSpec(k, x, y, z, beam, map[]) == Ok(ZeroField(x.shape[0], y.shape[0]))
  {
  }

  /** As written, reconstructLG fails on every grid with len(x) != len(y)
      and any dictionary it could otherwise reconstruct: the modes it adds
      have shape [len(x), len(y)], the zeros [len(y), len(x)]. */
  lemma ReconstructLGAsWrittenNonSquare(k: Kernels, x: Array, y: Array, z: real, beam: LGBeam, cxy: map<ModeIndex, Complex>)
    requires k.SqrtPositive()
    requires cxy != map[]
    requires ReconstructLGSpec(k, x, y, z, beam, cxy).Ok?
    requires |x.flat| != |y.flat|
    ensures ReconstructLGAsWrittenSpec(k, x, y, z, beam, cxy) == Err(ValueError)
  {
    VectorLength(x);
    VectorLength(y);
  }

  /** On a square grid the two agree. */
  lemma ReconstructLGAsWrittenSquare(k: Kernels, x: Array, y: Array, z: real, beam: LGBeam, cxy: map<ModeIndex, Complex>)
    requires |x.shape| > 0 && |y.shape| > 0 && x.shape[0] == y.shape[0]
    ensures ReconstructLGAsWrittenSpec(k, x, y, z, beam, cxy) == ReconstructLGSpec(k, x, y, z, beam, cxy)
  {
  }

  /** A reconstruction always has the shape [len(x), len(y)] of the modes. */
  lemma ReconstructLGShape(k: Kernels, x: Array, y: Array, z: real, beam: LGBeam, cxy: map<ModeIndex, Complex>)
    ensures ReconstructLGSpec(k, x, y, z, beam, cxy).Ok? ==>
              |x.shape| > 0 && |y.shape| > 0
              && HasShape(ReconstructLGSpec(k, x, y, z, beam, cxy).value, x.shape[0], y.shape[0])
  {
    if x.IsVector() && y.IsVector() {
      VectorLength(x);
      VectorLength(y);
    }
  }
}
