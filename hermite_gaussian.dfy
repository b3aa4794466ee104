/** The Hermite-Gaussian engine: analytic evaluation of one HG mode on an
    x/y grid at distance z, projection of a field onto a mode, decomposition
    of a field into the rectangle of modes, and reconstruction of a field
    from mode coefficients. */
module HermiteGaussian {
  import opened Complex
  import opened Kernels
  import opened Errors
  import opened Grid
  import opened Fields
  import opened Beam
  import opened Projection

  /** The beam parameters shared by every mode of one decomposition: the
      centre (x0, y0), the waist sizes wx and wy at focus, and the wavelength. */
  datatype HGBeam = HGBeam(x0: real, y0: real, wx: real, wy: real, wavelength: real)

  /** The error HGAnalytic raises before it looks at the mode orders, in the
      order the source meets them: coordinates that are not 1-D fail the
      asserts; a zero wavelength divides k0 by zero; a zero Rayleigh length
      divides z by zero. */
  function InputError(x: Array, y: Array, beam: HGBeam): (e: Option<Error>)
    ensures e == None <==> x.IsVector() && y.IsVector() && FocusedBeam(beam)
    ensures e == Some(AssertionFailed) <==> !x.IsVector() || !y.IsVector()
    ensures e == Some(ZeroDivision) <==>
              x.IsVector() && y.IsVector() && (beam.wavelength == 0.0 || beam.wx == 0.0 || beam.wy == 0.0)
  {
    if !x.IsVector() || !y.IsVector() then Some(AssertionFailed)
    else if beam.wavelength == 0.0 then Some(ZeroDivision)
    else if RayleighLength(beam.wx, beam.wavelength) == 0.0
         || RayleighLength(beam.wy, beam.wavelength) == 0.0 then Some(ZeroDivision)
    else None
  }

  /** A beam whose two Rayleigh lengths can be divided by. */
  predicate FocusedBeam(beam: HGBeam) {
    beam.wavelength != 0.0
    && RayleighLength(beam.wx, beam.wavelength) != 0.0
    && RayleighLength(beam.wy, beam.wavelength) != 0.0
  }

  /** A beam is focused exactly when its wavelength and both waists are
      non-zero; a negative size is as good as a positive one. */
  lemma FocusedBeamInputs(beam: HGBeam)
    ensures FocusedBeam(beam) <==> beam.wavelength != 0.0 && beam.wx != 0.0 && beam.wy != 0.0
  {
  }

  /** One axis factor of a mode of order n centred on u0 with waist w:
      A_n * H_n(sqrt(2)*(u - u0)/w(z)) * exp(-(u - u0)**2/w(z)**2)
      * exp(-1j*k0*(u - u0)**2/2/(z**2 + Z**2)*z). */
  function AxisProfile(k: Kernels, u: real, u0: real, w: real, n: nat, z: real, wavelength: real): Complex
    requires k.SqrtPositive()
    requires wavelength != 0.0 && RayleighLength(w, wavelength) != 0.0
  {
    var rayleigh := RayleighLength(w, wavelength);
    var wz := BeamSize(k, w, z, rayleigh);
    PowTwoSign(wz);
    var d := u - u0;
    Scale(k.hgNorm(wz, n) * k.hermite(n, k.sqrt(2.0) * d / wz) * k.exp(-Pow(d, 2) / Pow(wz, 2)),
          k.Cis(CurvaturePhase(Wavenumber(wavelength), Pow(d, 2), z, rayleigh)))
  }

  /** The propagation phase phiZ = phiXz + phiYz of mode (nx, ny). */
  function ModePhase(k: Kernels, z: real, beam: HGBeam, nx: nat, ny: nat): real
    requires FocusedBeam(beam)
  {
    GouyPhase(k, nx, z, RayleighLength(beam.wx, beam.wavelength))
      + GouyPhase(k, ny, z, RayleighLength(beam.wy, beam.wavelength))
  }

  /** The value of mode (nx, ny) at the grid point (u, v). */
  function ModeAt(k: Kernels, u: real, v: real, z: real, beam: HGBeam, nx: nat, ny: nat): Complex
    requires k.SqrtPositive() && FocusedBeam(beam)
  {
    Mul(Mul(AxisProfile(k, u, beam.x0, beam.wx, nx, z, beam.wavelength),
            AxisProfile(k, v, beam.y0, beam.wy, ny, z, beam.wavelength)),
        k.Cis(ModePhase(k, z, beam, nx, ny)))
  }

  /** The outer product of the two axis factors through numpy's default
      meshgrid, times exp(1j*phiZ): an array of shape [len(y), len(x)]
      whose entry (r, c) is the mode at (x[c], y[r]). */
  function ModeField(k: Kernels, xs: seq<real>, ys: seq<real>, z: real, beam: HGBeam, nx: nat, ny: nat): (f: Field)
    requires k.SqrtPositive() && FocusedBeam(beam)
    ensures HasShape(f, |ys|, |xs|)
    ensures forall r, c :: 0 <= r < |ys| && 0 <= c < |xs| ==> f[r][c] == ModeAt(k, xs[c], ys[r], z, beam, nx, ny)
  {
    var hgnx := seq(|xs|, c requires 0 <= c < |xs| => AxisProfile(k, xs[c], beam.x0, beam.wx, nx, z, beam.wavelength));
    var hgny := seq(|ys|, r requires 0 <= r < |ys| => AxisProfile(k, ys[r], beam.y0, beam.wy, ny, z, beam.wavelength));
    var grids := MeshgridXY(hgnx, hgny);
    var phase := k.Cis(ModePhase(k, z, beam, nx, ny));
    seq(|ys|, r requires 0 <= r < |ys| => seq(|xs|, c requires 0 <= c < |xs| => Mul(Mul(grids.0[r][c], grids.1[r][c]), phase)))
  }

  /** HGAnalytic: the field of mode (nx, ny) at distance z. A negative order
      makes `math.factorial` raise ValueError. */
  function EvaluateHG(k: Kernels, x: Array, y: Array, z: real, beam: HGBeam, nx: int, ny: int): (r: Result<Field>)
    requires k.SqrtPositive()
    ensures InputError(x, y, beam).Some? ==> r == Err(InputError(x, y, beam).value)
    ensures InputError(x, y, beam).None? ==> (r.Err? <==> nx < 0 || ny < 0)
    ensures r.Err? && InputError(x, y, beam).None? ==> r.error == ValueError
    ensures r.Ok? ==> nx >= 0 && ny >= 0 && HasShape(r.value, |y.flat|, |x.flat|)
    ensures r.Ok? ==> forall row, c :: 0 <= row < |y.flat| && 0 <= c < |x.flat| ==>
              r.value[row][c] == ModeAt(k, x.flat[c], y.flat[row], z, beam, nx, ny)
  {
    match InputError(x, y, beam)
    case Some(e) => Err(e)
    case None =>
      if nx < 0 || ny < 0 then Err(ValueError)
      else Ok(ModeField(k, x.flat, y.flat, z, beam, nx, ny))
  }

  /** When both axes share one Rayleigh length (Zx == Zy, as for wx == wy or
      wx == -wy), the two Gouy phases add up to (nx + ny + 1)*arctan2(z, Z). */
  lemma ModePhaseRoundBeam(k: Kernels, z: real, beam: HGBeam, nx: nat, ny: nat)
    requires FocusedBeam(beam)
    requires RayleighLength(beam.wx, beam.wavelength) == RayleighLength(beam.wy, beam.wavelength)
    ensures ModePhase(k, z, beam, nx, ny)
            == ((nx + ny + 1) as real) * k.atan2(z, RayleighLength(beam.wx, beam.wavelength))
  {
    GouyPhaseSum(k, nx, ny, z, RayleighLength(beam.wx, beam.wavelength));
  }

  /** The axis factor on the waist plane: A_n * H_n(sqrt(2)*(u - u0)/w) * exp(-(u - u0)**2/w**2). */
  function WaistProfile(k: Kernels, u: real, u0: real, w: real, n: nat): real
    requires w != 0.0
  {
    PowTwoSign(w);
    var d := u - u0;
    k.hgNorm(w, n) * k.hermite(n, k.sqrt(2.0) * d / w) * k.exp(-Pow(d, 2) / Pow(w, 2))
  }

  /** At z == 0 an axis factor has no curvature phase and its size is the waist. */
  lemma AxisProfileAtWaist(k: Kernels, u: real, u0: real, w: real, n: nat, wavelength: real)
    requires k.SqrtPositive() && k.sqrt(1.0) == 1.0 && k.CisZeroIsOne()
    requires wavelength != 0.0 && RayleighLength(w, wavelength) != 0.0
    ensures w != 0.0
    ensures AxisProfile(k, u, u0, w, n, 0.0, wavelength) == Complex(WaistProfile(k, u, u0, w, n), 0.0)
  {
    var rayleigh := RayleighLength(w, wavelength);
    assert 0.0 / rayleigh == 0.0;
    assert Pow(0.0, 2) == 0.0;
    assert BeamSize(k, w, 0.0, rayleigh) == w;
    CurvaturePhaseAtWaist(Wavenumber(wavelength), Pow(u - u0, 2), rayleigh);
  }

  /** On the waist plane, where arctan2(0, Z) == 0, the mode is real and is
      the product of the two waist profiles. */
  lemma ModeAtWaist(k: Kernels, u: real, v: real, beam: HGBeam, nx: nat, ny: nat)
    requires k.SqrtPositive() && k.sqrt(1.0) == 1.0 && k.CisZeroIsOne()
    requires FocusedBeam(beam)
    requires k.atan2(0.0, RayleighLength(beam.wx, beam.wavelength)) == 0.0
    requires k.atan2(0.0, RayleighLength(beam.wy, beam.wavelength)) == 0.0
    ensures beam.wx != 0.0 && beam.wy != 0.0
    ensures ModeAt(k, u, v, 0.0, beam, nx, ny)
            == Complex(WaistProfile(k, u, beam.x0, beam.wx, nx) * WaistProfile(k, v, beam.y0, beam.wy, ny), 0.0)
  {
    AxisProfileAtWaist(k, u, beam.x0, beam.wx, nx, beam.wavelength);
    AxisProfileAtWaist(k, v, beam.y0, beam.wy, ny, beam.wavelength);
    assert ModePhase(k, 0.0, beam, nx, ny) == 0.0;
    CisZero(k);
  }

  /** The beam with the roles of the x and y axes exchanged. */
  function SwapAxes(beam: HGBeam): HGBeam {
    HGBeam(beam.y0, beam.x0, beam.wy, beam.wx, beam.wavelength)
  }

  /** Exchanging the axes, the grids and the two orders transposes the mode. */
  lemma EvaluateHGSwapAxes(k: Kernels, x: Array, y: Array, z: real, beam: HGBeam, nx: int, ny: int)
    requires k.SqrtPositive()
    ensures EvaluateHG(k, y, x, z, SwapAxes(beam), ny, nx).Ok? <==> EvaluateHG(k, x, y, z, beam, nx, ny).Ok?
    ensures EvaluateHG(k, x, y, z, beam, nx, ny).Ok? ==>
              forall r, c :: 0 <= r < |y.flat| && 0 <= c < |x.flat| ==>
                EvaluateHG(k, y, x, z, SwapAxes(beam), ny, nx).value[c][r]
                == EvaluateHG(k, x, y, z, beam, nx, ny).value[r][c]
  {
    var f := EvaluateHG(k, x, y, z, beam, nx, ny);
    if f.Ok? {
      forall r, c | 0 <= r < |y.flat| && 0 <= c < |x.flat|
        ensures EvaluateHG(k, y, x, z, SwapAxes(beam), ny, nx).value[c][r] == f.value[r][c]
      {
        var a := AxisProfile(k, x.flat[c], beam.x0, beam.wx, nx, z, beam.wavelength);
        var b := AxisProfile(k, y.flat[r], beam.y0, beam.wy, ny, z, beam.wavelength);
        MulComm(a, b);
      }
    }
  }

  /** getHGMode: the overlap sum(field*conj(hg))*dx*dy of the field with
      mode (nx, ny), dx and dy the mean spacings of x and y. np.diff of a 0-d
      array raises ValueError; a field whose shape is not that of the mode
      does not multiply with it; a grid of fewer than two points has a NaN
      spacing, which makes the coefficient NaN without raising. */
  function GetHGMode(k: Kernels, x: Array, y: Array, z: real, field: Field, beam: HGBeam, nx: int, ny: int): Result<Coefficient>
    requires k.SqrtPositive()
  {
    if |x.shape| == 0 || |y.shape| == 0 then Err(ValueError)
    else match EvaluateHG(k, x, y, z, beam, nx, ny)
      case Err(e) => Err(e)
      case Ok(hg) => Project(field, hg, x.flat, y.flat)
  }

  /** The error getHGMode meets for every non-negative mode order, if any. */
  function ProjectionError(x: Array, y: Array, field: Field, beam: HGBeam): Option<Error> {
    if |x.shape| == 0 || |y.shape| == 0 then Some(ValueError)
    else if InputError(x, y, beam).Some? then InputError(x, y, beam)
    else if !HasShape(field, |y.flat|, |x.flat|) then Some(ValueError)
    else None
  }

  /** A negative mode order always makes getHGMode fail. */
  lemma GetHGModeNegativeOrder(k: Kernels, x: Array, y: Array, z: real, field: Field, beam: HGBeam, nx: int, ny: int)
    requires k.SqrtPositive()
    requires nx < 0 || ny < 0
    ensures GetHGMode(k, x, y, z, field, beam, nx, ny).Err?
  {
  }

  /** For non-negative orders getHGMode fails exactly with the
      order-independent error, when there is one. */
  lemma GetHGModeError(k: Kernels, x: Array, y: Array, z: real, field: Field, beam: HGBeam, nx: nat, ny: nat)
    requires k.SqrtPositive()
    ensures GetHGMode(k, x, y, z, field, beam, nx, ny).Err? <==> ProjectionError(x, y, field, beam).Some?
    ensures ProjectionError(x, y, field, beam).Some? ==>
              GetHGMode(k, x, y, z, field, beam, nx, ny) == Err(ProjectionError(x, y, field, beam).value)
  {
    if |x.shape| > 0 && |y.shape| > 0 && InputError(x, y, beam).None? {
      var hg := EvaluateHG(k, x, y, z, beam, nx, ny).value;
      ProjectShaped(field, hg, x.flat, y.flat, |y.flat|, |x.flat|);
    }
  }

  /** Without an error, getHGMode is NaN on a grid of fewer than two points. */
  lemma GetHGModeNaN(k: Kernels, x: Array, y: Array, z: real, field: Field, beam: HGBeam, nx: nat, ny: nat)
    requires k.SqrtPositive()
    requires ProjectionError(x, y, field, beam).None?
    requires |x.flat| < 2 || |y.flat| < 2
    ensures GetHGMode(k, x, y, z, field, beam, nx, ny) == Ok(NaN)
  {
    var hg := EvaluateHG(k, x, y, z, beam, nx, ny).value;
    ProjectShaped(field, hg, x.flat, y.flat, |y.flat|, |x.flat|);
  }

  /** Without an error, on grids of two points or more, getHGMode is the overlap
      with the mode scaled by the two grid steps, to which numpy's mean
      spacings telescope. */
  lemma GetHGModeValue(k: Kernels, x: Array, y: Array, z: real, field: Field, beam: HGBeam, nx: nat, ny: nat)
    requires k.SqrtPositive()
    requires ProjectionError(x, y, field, beam).None?
    requires |x.flat| >= 2 && |y.flat| >= 2
    ensures FocusedBeam(beam)
    ensures GetHGMode(k, x, y, z, field, beam, nx, ny)
            == Ok(Number(Overlap(field, ModeField(k, x.flat, y.flat, z, beam, nx, ny), Step(x.flat), Step(y.flat))))
  {
    var hg := ModeField(k, x.flat, y.flat, z, beam, nx, ny);
    assert EvaluateHG(k, x, y, z, beam, nx, ny) == Ok(hg);
    ProjectShaped(field, hg, x.flat, y.flat, |y.flat|, |x.flat|);
  }

  /** On uniform grids of steps hx and hy, two points or more each, the
      coefficient is the overlap scaled by hx*hy. */
  lemma GetHGModeUniformGrid(k: Kernels, x: Array, y: Array, z: real, field: Field, beam: HGBeam, nx: nat, ny: nat, hx: real, hy: real)
    requires k.SqrtPositive()
    requires ProjectionError(x, y, field, beam).None?
    requires |x.flat| >= 2 && |y.flat| >= 2
    requires forall i :: 0 <= i < |x.flat| ==> x.flat[i] == x.flat[0] + (i as real) * hx
    requires forall i :: 0 <= i < |y.flat| ==> y.flat[i] == y.flat[0] + (i as real) * hy
    ensures FocusedBeam(beam)
    ensures GetHGMode(k, x, y, z, field, beam, nx, ny)
            == Ok(Number(Overlap(field, ModeField(k, x.flat, y.flat, z, beam, nx, ny), hx, hy)))
  {
    var hg := ModeField(k, x.flat, y.flat, z, beam, nx, ny);
    assert EvaluateHG(k, x, y, z, beam, nx, ny) == Ok(hg);
    ProjectUniformGrid(field, hg, x.flat, y.flat, hx, hy);
  }

  /** The projection is linear in the field: a*f + b*g projects to a*cf + b*cg,
      and a NaN coefficient is NaN for every field. */
  lemma GetHGModeLinear(k: Kernels, x: Array, y: Array, z: real, f: Field, g: Field, a: Complex, b: Complex,
                        beam: HGBeam, nx: int, ny: int)
    requires k.SqrtPositive()
    requires GetHGMode(k, x, y, z, f, beam, nx, ny).Ok?
    requires HasShape(g, |y.flat|, |x.flat|)
    ensures GetHGMode(k, x, y, z, g, beam, nx, ny).Ok?
    ensures SameShape(f, g)
    ensures GetHGMode(k, x, y, z, f, beam, nx, ny).value.NaN? ==>
              GetHGMode(k, x, y, z, g, beam, nx, ny) == Ok(NaN)
              && GetHGMode(k, x, y, z, CombineField(a, f, b, g), beam, nx, ny) == Ok(NaN)
    ensures GetHGMode(k, x, y, z, f, beam, nx, ny).value.Number? ==>
              GetHGMode(k, x, y, z, g, beam, nx, ny).value.Number?
              && GetHGMode(k, x, y, z, CombineField(a, f, b, g), beam, nx, ny)
                 == Ok(Number(Combine(a, GetHGMode(k, x, y, z, f, beam, nx, ny).value.value,
                                      b, GetHGMode(k, x, y, z, g, beam, nx, ny).value.value)))
  {
    var hg := EvaluateHG(k, x, y, z, beam, nx, ny).value;
    ProjectLinear(a, f, b, g, hg, x.flat, y.flat);
  }

  /** A field that is zero everywhere has a zero coefficient on every mode,
      on grids of two points or more. */
  lemma GetHGModeZeroField(k: Kernels, x: Array, y: Array, z: real, beam: HGBeam, nx: nat, ny: nat)
    requires k.SqrtPositive()
    requires ProjectionError(x, y, ZeroField(|y.flat|, |x.flat|), beam).None?
    ensures |x.flat| >= 2 && |y.flat| >= 2 ==>
              GetHGMode(k, x, y, z, ZeroField(|y.flat|, |x.flat|), beam, nx, ny) == Ok(Number(Zero))
  {
    var hg := ModeField(k, x.flat, y.flat, z, beam, nx, ny);
    assert EvaluateHG(k, x, y, z, beam, nx, ny) == Ok(hg);
    ProjectZero(ZeroField(|y.flat|, |x.flat|), hg, x.flat, y.flat);
  }

  /** What decomposeHG stores under one key: an exact zero for a skipped
      asymmetric pair, otherwise the projection onto that mode. */
  predicate DecomposedEntry(k: Kernels, x: Array, y: Array, z: real, field: Field, beam: HGBeam,
                            skipAsymmetric: bool, key: ModeIndex, c: Coefficient)
    requires k.SqrtPositive()
  {
    if skipAsymmetric && key.0 != key.1 then c == Number(Zero)
    else GetHGMode(k, x, y, z, field, beam, key.0, key.1) == Ok(c)
  }

  /** Every entry of the dictionary is what decomposeHG stores under its key. */
  predicate AllDecomposed(k: Kernels, x: Array, y: Array, z: real, field: Field, beam: HGBeam,
                          skipAsymmetric: bool, cxy: map<ModeIndex, Coefficient>)
    requires k.SqrtPositive()
  {
    forall key :: key in cxy ==> DecomposedEntry(k, x, y, z, field, beam, skipAsymmetric, key, cxy[key])
  }

  lemma AllDecomposedNext(k: Kernels, x: Array, y: Array, z: real, field: Field, beam: HGBeam,
                          skipAsymmetric: bool, cxy: map<ModeIndex, Coefficient>, key: ModeIndex, c: Coefficient)
    requires k.SqrtPositive()
    requires AllDecomposed(k, x, y, z, field, beam, skipAsymmetric, cxy)
    requires DecomposedEntry(k, x, y, z, field, beam, skipAsymmetric, key, c)
    ensures AllDecomposed(k, x, y, z, field, beam, skipAsymmetric, cxy[key := c])
  {
  }

  /** On a grid of fewer than two points, every entry decomposeHG projects
      is NaN, and every entry it skips is an exact zero. */
  lemma DecomposedEntryNaN(k: Kernels, x: Array, y: Array, z: real, field: Field, beam: HGBeam,
                           skipAsymmetric: bool, key: ModeIndex, c: Coefficient)
    requires k.SqrtPositive()
    requires ProjectionError(x, y, field, beam).None?
    requires |x.flat| < 2 || |y.flat| < 2
    requires key.0 >= 0 && key.1 >= 0
    requires DecomposedEntry(k, x, y, z, field, beam, skipAsymmetric, key, c)
    ensures c == if skipAsymmetric && key.0 != key.1 then Number(Zero) else NaN
  {
    if !(skipAsymmetric && key.0 != key.1) {
      GetHGModeNaN(k, x, y, z, field, beam, key.0, key.1);
    }
  }

  /** decomposeHG: the coefficient of every mode (i, j) with 0 <= i < nxMax
      and 0 <= j < nyMax, filled in row by row. With skipAsymmetricModes the
      pairs i != j are set to zero without projecting. The first projection,
      that of mode (0, 0), raises whatever error the inputs cause; a NaN
      coefficient is stored like any other and the loop goes on. */
  method DecomposeHG(k: Kernels, x: Array, y: Array, z: real, field: Field, beam: HGBeam,
                     nxMax: int, nyMax: int, skipAsymmetric: bool)
    returns (r: Result<map<ModeIndex, Coefficient>>)
    requires k.SqrtPositive()
    ensures r.Err? <==> nxMax > 0 && nyMax > 0 && ProjectionError(x, y, field, beam).Some?
    ensures r.Err? ==> r.error == ProjectionError(x, y, field, beam).value
    ensures r.Ok? ==> forall key: ModeIndex :: key in r.value <==> InRectangle(key, nxMax, nyMax)
    ensures r.Ok? ==> forall key :: key in r.value ==>
              DecomposedEntry(k, x, y, z, field, beam, skipAsymmetric, key, r.value[key])
  {
    var cxy: map<ModeIndex, Coefficient> := map[];
    KeysBeforeEmpty(cxy, nyMax);
    var i := 0;
    while i < nxMax
      invariant 0 <= i && (i <= nxMax || i == 0)
      invariant KeysBefore(cxy, i, 0, nyMax)
      invariant AllDecomposed(k, x, y, z, field, beam, skipAsymmetric, cxy)
      invariant (0, 0) in cxy ==> ProjectionError(x, y, field, beam).None?
    {
      var j := 0;
      while j < nyMax
        invariant 0 <= j && (j <= nyMax || j == 0)
        invariant KeysBefore(cxy, i, j, nyMax)
        invariant AllDecomposed(k, x, y, z, field, beam, skipAsymmetric, cxy)
        invariant (0, 0) in cxy ==> ProjectionError(x, y, field, beam).None?
      {
        var c: Coefficient;
        if i != j && skipAsymmetric {
          c := Number(Zero);
        } else {
          var mode := GetHGMode(k, x, y, z, field, beam, i, j);
          GetHGModeError(k, x, y, z, field, beam, i, j);
          if mode.Err? {
            return Err(mode.error);
          }
          c := mode.value;
        }
        KeysBeforeNext(cxy, i, j, nyMax, c);
        AllDecomposedNext(k, x, y, z, field, beam, skipAsymmetric, cxy, (i, j), c);
        cxy := cxy[(i, j) := c];
        j := j + 1;
      }
      KeysBeforeRowDone(cxy, i, j, nyMax);
      i := i + 1;
    }
    KeysBeforeDone(cxy, i, nxMax, nyMax);
    return Ok(cxy);
  }

  /** The keys reconstructHG adds up: with skipAsymmetricModes, only the
      pairs (n, n). */
  function Selected(cxy: map<ModeIndex, Complex>, skipAsymmetric: bool): set<ModeIndex> {
    set key | key in cxy && !(skipAsymmetric && key.0 != key.1)
  }

  /** The contribution cxy[key] * HG_key(x[c], y[r]) of one key to entry
      (r, c) of the reconstruction; zero where it is not defined. */
  ghost function HGTerm(k: Kernels, xs: seq<real>, ys: seq<real>, z: real, beam: HGBeam,
                        cxy: map<ModeIndex, Complex>, key: ModeIndex, r: int, c: int): Complex
  {
    if key in cxy && key.0 >= 0 && key.1 >= 0 && k.SqrtPositive() && FocusedBeam(beam)
       && 0 <= r < |ys| && 0 <= c < |xs|
    then Mul(cxy[key], ModeAt(k, xs[c], ys[r], z, beam, key.0, key.1))
    else Zero
  }

  ghost function HGTermAt(k: Kernels, xs: seq<real>, ys: seq<real>, z: real, beam: HGBeam,
                          cxy: map<ModeIndex, Complex>, r: int, c: int): ModeIndex -> Complex
  {
    key => HGTerm(k, xs, ys, z, beam, cxy, key, r, c)
  }

  /** The field whose entry (r, c) is the sum over the given keys of
      cxy[key] * HG_key(x[c], y[r]). */
  ghost function ModeSum(k: Kernels, xs: seq<real>, ys: seq<real>, z: real, beam: HGBeam,
                         cxy: map<ModeIndex, Complex>, keys: set<ModeIndex>): (f: Field)
    ensures HasShape(f, |ys|, |xs|)
    ensures forall r, c :: 0 <= r < |ys| && 0 <= c < |xs| ==>
              f[r][c] == SumOver(keys, HGTermAt(k, xs, ys, z, beam, cxy, r, c))
  {
    seq(|ys|, r requires 0 <= r < |ys| =>
      seq(|xs|, c requires 0 <= c < |xs| => SumOver(keys, HGTermAt(k, xs, ys, z, beam, cxy, r, c))))
  }

  /** What reconstructHG returns. len() of a 0-d array raises TypeError;
      with nothing to add it returns the zero array of shape
      [len(y), len(x)]; otherwise HGAnalytic raises its input error, or
      ValueError for a key with a negative order, whichever key comes first;
      and the result is the sum of cxy[key] * HG_key over the selected keys,
      whatever the dictionary's order. */
  ghost function ReconstructHGSpec(k: Kernels, x: Array, y: Array, z: real, beam: HGBeam,
                                   cxy: map<ModeIndex, Complex>, skipAsymmetric: bool): Result<Field>
  {
    if |x.shape| == 0 || |y.shape| == 0 then Err(TypeError)
    else if Selected(cxy, skipAsymmetric) == {} then Ok(ZeroField(y.shape[0], x.shape[0]))
    else if InputError(x, y, beam).Some? then Err(InputError(x, y, beam).value)
    else if exists key :: key in Selected(cxy, skipAsymmetric) && (key.0 < 0 || key.1 < 0) then Err(ValueError)
    else Ok(ModeSum(k, x.flat, y.flat, z, beam, cxy, Selected(cxy, skipAsymmetric)))
  }

  lemma ModeSumEmpty(k: Kernels, xs: seq<real>, ys: seq<real>, z: real, beam: HGBeam, cxy: map<ModeIndex, Complex>)
    ensures ModeSum(k, xs, ys, z, beam, cxy, {}) == ZeroField(|ys|, |xs|)
  {
    var f := ModeSum(k, xs, ys, z, beam, cxy, {});
    var g := ZeroField(|ys|, |xs|);
    assert forall r :: 0 <= r < |ys| ==> f[r] == g[r];
  }

  /** Adding the term of one more key to one entry of a partial reconstruction. */
  lemma ModeSumEntryStep(k: Kernels, xs: seq<real>, ys: seq<real>, z: real, beam: HGBeam,
                         cxy: map<ModeIndex, Complex>, done: set<ModeIndex>, key: ModeIndex, r: int, c: int,
                         partial: Complex, mode: Complex)
    requires k.SqrtPositive() && FocusedBeam(beam)
    requires key in cxy && key !in done && key.0 >= 0 && key.1 >= 0
    requires 0 <= r < |ys| && 0 <= c < |xs|
    requires partial == SumOver(done, HGTermAt(k, xs, ys, z, beam, cxy, r, c))
    requires mode == ModeAt(k, xs[c], ys[r], z, beam, key.0, key.1)
    ensures Add(partial, Mul(cxy[key], mode)) == SumOver(done + {key}, HGTermAt(k, xs, ys, z, beam, cxy, r, c))
  {
    var t := HGTermAt(k, xs, ys, z, beam, cxy, r, c);
    assert t(key) == Mul(cxy[key], mode);
    SumOverInsert(done, t, key, Mul(cxy[key], mode));
  }

  /** Adding the term of one more key to a partial reconstruction. */
  lemma ModeSumStep(k: Kernels, x: Array, y: Array, z: real, beam: HGBeam,
                    cxy: map<ModeIndex, Complex>, done: set<ModeIndex>, key: ModeIndex, mode: Field)
    requires k.SqrtPositive()
    requires key in cxy && key !in done && key.0 >= 0 && key.1 >= 0
    requires EvaluateHG(k, x, y, z, beam, key.0, key.1) == Ok(mode)
    ensures AddField(ModeSum(k, x.flat, y.flat, z, beam, cxy, done), ScaleField(cxy[key], mode))
            == ModeSum(k, x.flat, y.flat, z, beam, cxy, done + {key})
  {
    var xs, ys := x.flat, y.flat;
    var s := ModeSum(k, xs, ys, z, beam, cxy, done);
    var f := AddField(s, ScaleField(cxy[key], mode));
    var g := ModeSum(k, xs, ys, z, beam, cxy, done + {key});
    forall r, c | 0 <= r < |ys| && 0 <= c < |xs|
      ensures f[r][c] == g[r][c]
    {
      ModeSumEntryStep(k, xs, ys, z, beam, cxy, done, key, r, c, s[r][c], mode[r][c]);
    }
    FieldsEqual(f, g);
  }

  /** reconstructHG: the zero array of shape [len(y), len(x)] plus
      cxy[key] * HGAnalytic(key) for every key of the dictionary, taken in
      any order, skipping the asymmetric keys when asked to. */
  method ReconstructHG(k: Kernels, x: Array, y: Array, z: real, beam: HGBeam,
                       cxy: map<ModeIndex, Complex>, skipAsymmetric: bool)
    returns (r: Result<Field>)
    requires k.SqrtPositive()
    ensures r == ReconstructHGSpec(k, x, y, z, beam, cxy, skipAsymmetric)
  {
    if |x.shape| == 0 || |y.shape| == 0 {
      return Err(TypeError);
    }
    var field := ZeroField(y.shape[0], x.shape[0]);
    var remaining := cxy.Keys;
    ghost var done: set<ModeIndex> := {};
    while remaining != {}
      invariant remaining <= cxy.Keys
      invariant done == Selected(cxy, skipAsymmetric) - remaining
      invariant done != {} ==> InputError(x, y, beam).None?
      invariant forall key :: key in done ==> key.0 >= 0 && key.1 >= 0
      invariant done == {} ==> field == ZeroField(y.shape[0], x.shape[0])
      invariant done != {} ==> field == ModeSum(k, x.flat, y.flat, z, beam, cxy, done)
      decreases remaining
    {
      var key :| key in remaining;
      remaining := remaining - {key};
      if key.0 != key.1 && skipAsymmetric {
        continue;
      }
      var mode := EvaluateHG(k, x, y, z, beam, key.0, key.1);
      if mode.Err? {
        assert key in Selected(cxy, skipAsymmetric);
        return Err(mode.error);
      }
      if done == {} {
        VectorLength(x);
        VectorLength(y);
        ModeSumEmpty(k, x.flat, y.flat, z, beam, cxy);
      }
      ModeSumStep(k, x, y, z, beam, cxy, done, key, mode.value);
      field := AddField(field, ScaleField(cxy[key], mode.value));
      done := done + {key};
    }
    assert done == Selected(cxy, skipAsymmetric);
    assert !exists key :: key in Selected(cxy, skipAsymmetric) && (key.0 < 0 || key.1 < 0);
    return Ok(field);
  }

  /** An empty dictionary reconstructs to the zero array of shape [len(y), len(x)]. */
  lemma ReconstructHGEmpty(k: Kernels, x: Array, y: Array, z: real, beam: HGBeam, skipAsymmetric: bool)
    requires |x.shape| > 0 && |y.shape| > 0
    ensures ReconstructHGSpec(k, x, y, z, beam, map[], skipAsymmetric) == Ok(ZeroField(y.shape[0], x.shape[0]))
  {
    assert Selected(map[], skipAsymmetric) == {};
  }

  /** A single coefficient a on mode (nx, ny) reconstructs to a times that mode. */
  lemma ReconstructHGSingleMode(k: Kernels, x: Array, y: Array, z: real, beam: HGBeam,
                                nx: int, ny: int, a: Complex, skipAsymmetric: bool)
    requires k.SqrtPositive()
    requires |x.shape| > 0 && |y.shape| > 0
    requires EvaluateHG(k, x, y, z, beam, nx, ny).Ok?
    requires !(skipAsymmetric && nx != ny)
    ensures ReconstructHGSpec(k, x, y, z, beam, map[(nx, ny) := a], skipAsymmetric)
            == Ok(ScaleField(a, EvaluateHG(k, x, y, z, beam, nx, ny).value))
  {
    var cxy := map[(nx, ny) := a];
    var key := (nx, ny);
    assert Selected(cxy, skipAsymmetric) == {key};
    var mode := EvaluateHG(k, x, y, z, beam, nx, ny).value;
    var f := ModeSum(k, x.flat, y.flat, z, beam, cxy, {key});
    var g := ScaleField(a, mode);
    forall r, c | 0 <= r < |y.flat| && 0 <= c < |x.flat|
      ensures f[r][c] == g[r][c]
    {
      var t := HGTermAt(k, x.flat, y.flat, z, beam, cxy, r, c);
      assert t(key) == Mul(a, mode[r][c]);
      SumOverSingleton(key, t);
    }
    FieldsEqual(f, g);
  }

  /** Reconstructions over one key set agree when the coefficients agree on it. */
  lemma ModeSumCongruent(k: Kernels, xs: seq<real>, ys: seq<real>, z: real, beam: HGBeam,
                         cxy1: map<ModeIndex, Complex>, cxy2: map<ModeIndex, Complex>, keys: set<ModeIndex>)
    requires forall key :: key in keys ==> key in cxy1 && key in cxy2 && cxy1[key] == cxy2[key]
    ensures ModeSum(k, xs, ys, z, beam, cxy1, keys) == ModeSum(k, xs, ys, z, beam, cxy2, keys)
  {
    var f := ModeSum(k, xs, ys, z, beam, cxy1, keys);
    var g := ModeSum(k, xs, ys, z, beam, cxy2, keys);
    forall r, c | 0 <= r < |ys| && 0 <= c < |xs|
      ensures f[r][c] == g[r][c]
    {
      SumOverCongruent(keys, HGTermAt(k, xs, ys, z, beam, cxy1, r, c), HGTermAt(k, xs, ys, z, beam, cxy2, r, c));
    }
    FieldsEqual(f, g);
  }

  /** The symmetric part of a coefficient dictionary, the entries (n, n). */
  function SymmetricPart(cxy: map<ModeIndex, Complex>): (s: map<ModeIndex, Complex>)
    ensures forall key :: key in s <==> key in cxy && key.0 == key.1
    ensures forall key :: key in s ==> s[key] == cxy[key]
  {
    map key | key in cxy && key.0 == key.1 :: cxy[key]
  }

  /** With skipAsymmetricModes the asymmetric entries play no part: the
      result is that of the symmetric part reconstructed without skipping. */
  lemma ReconstructHGSkipIsSymmetricPart(k: Kernels, x: Array, y: Array, z: real, beam: HGBeam,
                                         cxy: map<ModeIndex, Complex>)
    ensures ReconstructHGSpec(k, x, y, z, beam, cxy, true)
            == ReconstructHGSpec(k, x, y, z, beam, SymmetricPart(cxy), false)
  {
    var sym := SymmetricPart(cxy);
    assert Selected(sym, false) == Selected(cxy, true);
    ModeSumCongruent(k, x.flat, y.flat, z, beam, cxy, sym, Selected(cxy, true));
  }

  /** A reconstruction whose extra keys all have zero coefficients. */
  lemma ModeSumDropZeros(k: Kernels, xs: seq<real>, ys: seq<real>, z: real, beam: HGBeam,
                         cxy: map<ModeIndex, Complex>, keys: set<ModeIndex>, fewer: set<ModeIndex>)
    requires fewer <= keys
    requires forall key :: key in keys && key !in fewer ==> key in cxy && cxy[key] == Zero
    ensures ModeSum(k, xs, ys, z, beam, cxy, keys) == ModeSum(k, xs, ys, z, beam, cxy, fewer)
  {
    var f := ModeSum(k, xs, ys, z, beam, cxy, keys);
    var g := ModeSum(k, xs, ys, z, beam, cxy, fewer);
    forall r, c | 0 <= r < |ys| && 0 <= c < |xs|
      ensures f[r][c] == g[r][c]
    {
      var t := HGTermAt(k, xs, ys, z, beam, cxy, r, c);
      assert forall key :: key in keys && key !in fewer ==> t(key) == Zero;
      SumOverDropZeros(keys, fewer, t);
    }
    FieldsEqual(f, g);
  }

  /** The dictionary decomposeHG returns with skipAsymmetricModes holds
      zeros on the asymmetric keys, so reconstructing it with or without
      skipping gives the same field. */
  lemma ReconstructHGZeroAsymmetric(k: Kernels, x: Array, y: Array, z: real, beam: HGBeam,
                                    cxy: map<ModeIndex, Complex>)
    requires k.SqrtPositive()
    requires InputError(x, y, beam).None?
    requires forall key :: key in cxy ==> key.0 >= 0 && key.1 >= 0
    requires forall key :: key in cxy && key.0 != key.1 ==> cxy[key] == Zero
    ensures ReconstructHGSpec(k, x, y, z, beam, cxy, false) == ReconstructHGSpec(k, x, y, z, beam, cxy, true)
  {
    var all := Selected(cxy, false);
    var sym := Selected(cxy, true);
    ModeSumDropZeros(k, x.flat, y.flat, z, beam, cxy, all, sym);
    if sym == {} {
      VectorLength(x);
      VectorLength(y);
      ModeSumEmpty(k, x.flat, y.flat, z, beam, cxy);
    }
  }

  /** A reconstruction always has shape [len(y), len(x)]. */
  lemma ReconstructHGShape(k: Kernels, x: Array, y: Array, z: real, beam: HGBeam,
                           cxy: map<ModeIndex, Complex>, skipAsymmetric: bool)
    ensures ReconstructHGSpec(k, x, y, z, beam, cxy, skipAsymmetric).Ok? ==>
              |x.shape| > 0 && |y.shape| > 0
              && HasShape(ReconstructHGSpec(k, x, y, z, beam, cxy, skipAsymmetric).value, y.shape[0], x.shape[0])
  {
    if x.IsVector() && y.IsVector() {
      VectorLength(x);
      VectorLength(y);
    }
  }
}
