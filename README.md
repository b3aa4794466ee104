# ModalLaser mode engines in Dafny

This project models the two modal-decomposition engines of ModalLaser:

- `generator/hermite_gaussian.py`, the Hermite-Gaussian (HG) engine;
- `generator/laguerre_gaussian.py`, the Laguerre-Gaussian (LG) engine.

Each engine has four operations:

1. Analytic evaluation of one mode on a transverse x/y grid at distance z (`HGAnalytic`, `LGAnalytic`).
2. Projection of a sampled complex field onto one mode (`getHGMode`, `getLGMode`). The projection is the discrete overlap `sum(field*conj(mode))*dx*dy`, where dx and dy are numpy's mean grid spacings.
3. Decomposition into the rectangle `0 <= i < max1`, `0 <= j < max2` of modes (`decomposeHG`, `decomposeLG`). HG has an optional skip of the asymmetric pairs i != j.
4. Reconstruction of a field from a dictionary of coefficients (`reconstructHG`, `reconstructLG`).

Modules:

- `Complex`: complex arithmetic on exact reals.
- `Kernels`: the special functions the engines call, passed in as a parameter.
- `Errors`: the Python exceptions the engines raise.
- `Grid`: numpy arrays, `np.mean(np.diff(.))` and the two meshgrid conventions.
- `Fields`: 2-D complex arrays, the overlap sum, and order-free sums over dictionary keys.
- `Beam`: the Gaussian-beam quantities both engines share.
- `Projection`: the overlap step both projections share, and its NaN outcome.
- `HermiteGaussian` and `LaguerreGaussian`: the two engines.

Evaluation and projection are functions. Decomposition and reconstruction are methods with loops, each proved against a specification.

- **Decomposition** fills a `map` row by row.
- **Reconstruction** adds `cxy[key] * mode` for each key, taken in an arbitrary order (`:|`). The method is proved equal to an order-free sum over the key set. That sum is what makes the result independent of the dictionary's iteration order.

Every error the source can raise is an error result, in the order the source meets it:

- **AssertionFailed**: the `len(x.shape)==1` asserts fail.
- **ZeroDivision**: the wavelength is zero (`2*np.pi/wavelength`), or a waist is zero, which makes its Rayleigh length `np.pi*w**2/wavelength` zero (`z/Zx`). Scalars are Python floats, so division by zero raises. A negative waist or wavelength raises nothing.
- **ValueError**:
  - a negative mode order (`math.factorial`, or scipy's `genlaguerre` check on alpha = m);
  - `np.diff` of a 0-d array;
  - a field whose shape is not the mode's;
  - an in-place `+=` whose shapes differ.
- **TypeError**: `len()` of a 0-d array.

A grid of fewer than two points raises nothing. numpy's mean spacing of it is NaN, with a warning only, and so is every coefficient projected on it. The model's `Coefficient` is therefore a number or NaN. decomposeHG and decomposeLG store NaN coefficients and carry on, as the code does.

`reconstructLG` takes no `skipAsymmetricModes` parameter. As written it fails on grids with len(x) != len(y); see Findings.

## Model

| member | source | states |
|---|---|---|
| Grid.VectorLength | generator/hermite_gaussian.py:215 | `len()` of a 1-D array is its number of elements |
| Grid.Diff | generator/hermite_gaussian.py:117-118 | np.diff has one element fewer than the samples (none for an empty grid), each the difference of two neighbours |
| Grid.SumDiffTelescopes | generator/hermite_gaussian.py:117-118 | the differences of a grid add up to last minus first |
| Grid.SpacingDefined | generator/hermite_gaussian.py:117-118 | the mean spacing is a number exactly when the grid has at least two points, NaN otherwise |
| Grid.SpacingTelescopes | generator/hermite_gaussian.py:117-118 | the mean spacing equals (last - first)/(n - 1), for any grid |
| Grid.SpacingUniform | generator/laguerre_gaussian.py:104-105 | on a uniform grid x[i] = x[0] + i*h the mean spacing is h |
| Grid.MeshgridXY | generator/hermite_gaussian.py:73 | default meshgrid: both arrays have shape [len(y), len(x)]; entry (r, c) holds x[c] and y[r] |
| Grid.MeshgridIJ | generator/laguerre_gaussian.py:44 | 'ij' meshgrid: both arrays have shape [len(x), len(y)]; entry (i, j) holds x[i] and y[j] |
| Fields.ZeroField | generator/hermite_gaussian.py:215 | `1j*np.zeros((rows, cols))` has that shape and only zero entries |
| Fields.AddField | generator/hermite_gaussian.py:220 | `+=` on equal shapes keeps the shape and adds entry by entry |
| Fields.ScaleField | generator/hermite_gaussian.py:220 | coefficient times mode keeps the shape and multiplies every entry |
| Fields.OverlapLinear | generator/hermite_gaussian.py:122 | the overlap sum(f*conj(m))*dx*dy is linear in the field: a*f + b*g gives a*O(f) + b*O(g) |
| Fields.OverlapZero | generator/hermite_gaussian.py:122 | a zero field has zero overlap with any mode |
| Projection.ProjectOutcome | generator/hermite_gaussian.py:117-122 | projecting a field on a mode fails exactly on a shape mismatch (ValueError); otherwise it is NaN when a grid has fewer than two points, and the overlap scaled by (last - first)/(n - 1) on each axis when both have two or more |
| Projection.ProjectShaped | generator/laguerre_gaussian.py:104-109 | against a mode of known shape, the projection fails with ValueError exactly when the field does not have that shape; otherwise NaN or the telescoped overlap, as above |
| Projection.ProjectUniformGrid | generator/hermite_gaussian.py:117-122 | on uniform grids of steps hx, hy the projection is the overlap scaled by hx*hy |
| Projection.ProjectLinear | generator/hermite_gaussian.py:122 | the projection is linear in the field; when it is NaN for one field it is NaN for every field of the mode's shape |
| Projection.ProjectZero | generator/laguerre_gaussian.py:109 | a zero field projects to zero, or to NaN on a grid of fewer than two points; to zero whenever both grids have two points or more |
| Fields.SumOverRemove | generator/hermite_gaussian.py:217-220 | any key can be taken out of the coefficient sum first, so the sum does not depend on the dictionary's order |
| Beam.RayleighLength | generator/hermite_gaussian.py:53-54 | Z = pi*w**2/wavelength is zero exactly when the waist is zero, whatever the waist's sign (a zero Z is what the later division by Z turns into ZeroDivisionError) |
| Beam.BeamSize | generator/hermite_gaussian.py:57-58 | w(z) = w*sqrt(1 + (z/Z)**2) is non-zero whenever the waist is, so divisions by w(z) are defined |
| Beam.CurvaturePhaseAtWaist | generator/hermite_gaussian.py:70-71 | the wavefront-curvature phase -k0*d2/2/(z**2 + Z**2)*z is zero on the waist plane z = 0 |
| Beam.GouyPhaseSum | generator/hermite_gaussian.py:65-67 | two axes sharing a Rayleigh length have phases adding to (nx + ny + 1)*arctan2(z, Z) |
| HermiteGaussian.InputError | generator/hermite_gaussian.py:47-58 | AssertionFailed exactly when x or y is not 1-D; otherwise ZeroDivision exactly when the wavelength, wx or wy is zero; no error exactly when x, y are 1-D and the beam is focused |
| HermiteGaussian.FocusedBeamInputs | generator/hermite_gaussian.py:50-58 | a beam can be divided by exactly when its wavelength, wx and wy are non-zero; negative sizes pass |
| HermiteGaussian.ModeField | generator/hermite_gaussian.py:69-75 | the mode array has shape [len(y), len(x)] and entry (r, c) is hgnx(x[c]) * hgny(y[r]) * exp(1j*phiZ) |
| HermiteGaussian.EvaluateHG | generator/hermite_gaussian.py:47-77 | HGAnalytic returns the input error if any; otherwise it fails exactly for a negative order (ValueError); a result has shape [len(y), len(x)] with the mode's values |
| HermiteGaussian.ModePhaseRoundBeam | generator/hermite_gaussian.py:65-67 | when Zx == Zy, phiZ = (nx + ny + 1)*arctan2(z, Zx) |
| HermiteGaussian.AxisProfileAtWaist | generator/hermite_gaussian.py:57-71 | at z = 0 an axis factor has size w(0) = w and no curvature phase: it is the real waist profile |
| HermiteGaussian.ModeAtWaist | generator/hermite_gaussian.py:65-75 | at z = 0 (arctan2(0, Z) = 0) the mode is real and is the product of the two waist profiles |
| HermiteGaussian.EvaluateHGSwapAxes | generator/hermite_gaussian.py:69-75 | exchanging x with y, x0 with y0, wx with wy and nx with ny transposes the mode array |
| HermiteGaussian.GetHGModeNegativeOrder | generator/hermite_gaussian.py:117-124 | a negative order always makes getHGMode fail |
| HermiteGaussian.GetHGModeError | generator/hermite_gaussian.py:117-124 | for non-negative orders getHGMode fails exactly when the order-independent error exists (0-d grid, input error, shape mismatch), and with that error |
| HermiteGaussian.GetHGModeNaN | generator/hermite_gaussian.py:117-122 | without an error, on a grid of fewer than two points, getHGMode returns NaN instead of raising |
| HermiteGaussian.GetHGModeValue | generator/hermite_gaussian.py:117-124 | without an error, on grids of two points or more, the coefficient is the overlap with the mode, scaled by (last - first)/(n - 1) on each axis |
| HermiteGaussian.GetHGModeUniformGrid | generator/hermite_gaussian.py:117-124 | on uniform grids of steps hx, hy (two points or more) the coefficient is the overlap scaled by hx*hy |
| HermiteGaussian.GetHGModeLinear | generator/hermite_gaussian.py:117-124 | the projection is linear in the field, and a NaN coefficient is NaN for every field |
| HermiteGaussian.GetHGModeZeroField | generator/hermite_gaussian.py:117-124 | on grids of two points or more a zero field has coefficient 0 on every mode |
| HermiteGaussian.DecomposeHG | generator/hermite_gaussian.py:165-173 | keys are exactly the rectangle 0 <= i < nxMax, 0 <= j < nyMax; skipped pairs i != j hold exact zeros; every other entry is getHGMode of its key, NaN included; an error, raised at mode (0, 0), is the projection error, and it occurs exactly when the rectangle is non-empty |
| HermiteGaussian.DecomposedEntryNaN | generator/hermite_gaussian.py:165-173 | on a grid of fewer than two points every projected entry of the decomposition is NaN and every skipped one an exact 0 |
| HermiteGaussian.ReconstructHG | generator/hermite_gaussian.py:215-222 | the loop returns, in any key order, the order-free specification: the TypeError/zeros/input-error/ValueError cases, else the sum of cxy[key]*HG_key over the selected keys |
| HermiteGaussian.ReconstructHGEmpty | generator/hermite_gaussian.py:215-222 | an empty dictionary gives the zero array of shape [len(y), len(x)] |
| HermiteGaussian.ReconstructHGShape | generator/hermite_gaussian.py:215-222 | every reconstruction has shape [len(y), len(x)] |
| HermiteGaussian.ReconstructHGSingleMode | generator/hermite_gaussian.py:215-222 | a single coefficient a on mode (nx, ny) reconstructs to a*HGAnalytic(nx, ny) |
| HermiteGaussian.ReconstructHGSkipIsSymmetricPart | generator/hermite_gaussian.py:217-220 | with skipAsymmetricModes the asymmetric entries are irrelevant: the result is that of the (n, n) entries alone, without skipping |
| HermiteGaussian.ReconstructHGZeroAsymmetric | generator/hermite_gaussian.py:168-170 | a dictionary with zeros on the asymmetric keys, as decomposeHG with skipping builds it, reconstructs the same with or without skipping |
| LaguerreGaussian.InputError | generator/laguerre_gaussian.py:41-52 | AssertionFailed exactly when x or y is not 1-D; otherwise ZeroDivision exactly when the wavelength or w0 is zero; no error exactly when x, y are 1-D and the beam is focused |
| LaguerreGaussian.FocusedBeamInputs | generator/laguerre_gaussian.py:46-52 | a beam can be divided by exactly when its wavelength and w0 are non-zero; negative sizes pass |
| LaguerreGaussian.GouyOrder | generator/laguerre_gaussian.py:58 | the Gouy factor 2p + m + 1 is at least 1, and equals 1 only for mode (0, 0) |
| LaguerreGaussian.ModeField | generator/laguerre_gaussian.py:44-65 | the mode array has shape [len(x), len(y)] and entry (i, j) is the mode at (x[i], y[j]) |
| LaguerreGaussian.EvaluateLG | generator/laguerre_gaussian.py:41-67 | LGAnalytic returns the input error if any; otherwise it fails exactly for a negative p or m (ValueError); a result has shape [len(x), len(y)] with the mode's values |
| LaguerreGaussian.ModeAtZeroAzimuth | generator/laguerre_gaussian.py:65 | for m = 0 the factor exp(-1j*m*arctan2(Y, X)) is 1 and the mode is its radial profile alone |
| LaguerreGaussian.ModeAtRadiallySymmetric | generator/laguerre_gaussian.py:61-65 | an m = 0 mode takes one value at all points of equal X**2 + Y**2 |
| LaguerreGaussian.AzimuthalFactorZero | generator/laguerre_gaussian.py:65 | exp(-1j*0*arctan2(Y, X)) is 1 |
| LaguerreGaussian.ModeAtWaist | generator/laguerre_gaussian.py:52-65 | at z = 0 (arctan2(0, Zr) = 0) the mode is the real radial amplitude for waist w0 times the azimuthal factor: no curvature or Gouy phase |
| LaguerreGaussian.GetLGModeNegativeOrder | generator/laguerre_gaussian.py:104-111 | a negative p or m always makes getLGMode fail |
| LaguerreGaussian.GetLGModeError | generator/laguerre_gaussian.py:104-111 | for non-negative (p, m) getLGMode fails exactly when the order-independent error exists (0-d grid, input error, shape mismatch), and with that error |
| LaguerreGaussian.GetLGModeNaN | generator/laguerre_gaussian.py:104-109 | without an error, on a grid of fewer than two points, getLGMode returns NaN instead of raising |
| LaguerreGaussian.GetLGModeValue | generator/laguerre_gaussian.py:104-111 | without an error, on grids of two points or more, the coefficient is the overlap with the mode, scaled by (last - first)/(n - 1) on each axis |
| LaguerreGaussian.GetLGModeUniformGrid | generator/laguerre_gaussian.py:104-111 | on uniform grids of steps hx, hy (two points or more) the coefficient is the overlap scaled by hx*hy |
| LaguerreGaussian.GetLGModeLinear | generator/laguerre_gaussian.py:104-111 | the projection is linear in the field, and a NaN coefficient is NaN for every field |
| LaguerreGaussian.GetLGModeZeroField | generator/laguerre_gaussian.py:104-111 | on grids of two points or more a zero field has coefficient 0 on every mode |
| LaguerreGaussian.DecomposeLG | generator/laguerre_gaussian.py:149-154 | keys are exactly the rectangle 0 <= p < pMax, 0 <= m < mMax; every entry is getLGMode of its key, NaN included; an error, raised at mode (0, 0), is the projection error, and it occurs exactly when the rectangle is non-empty |
| LaguerreGaussian.AccumulateLG | generator/laguerre_gaussian.py:195-196 | the `+=` loop returns, in any key order, the order-free specification: zeros, the input error, ValueError for a negative key or a shape that is not the modes', else the sum of cxy[key]*LG_key |
| LaguerreGaussian.ReconstructLGAsWritten | generator/laguerre_gaussian.py:193-198 | reconstructLG as written: TypeError for a 0-d grid, else the loop on zeros of shape [len(y), len(x)] |
| LaguerreGaussian.ReconstructLG | generator/laguerre_gaussian.py:193-198 | reconstructLG with zeros of the modes' shape [len(x), len(y)] |
| LaguerreGaussian.ReconstructLGEmpty | generator/laguerre_gaussian.py:193-198 | an empty dictionary gives zeros: [len(y), len(x)] as written, [len(x), len(y)] corrected |
| LaguerreGaussian.ReconstructLGShape | generator/laguerre_gaussian.py:193-198 | every corrected reconstruction has shape [len(x), len(y)] |
| LaguerreGaussian.ReconstructLGSingleMode | generator/laguerre_gaussian.py:193-198 | a single coefficient a on mode (p, m) reconstructs to a*LGAnalytic(p, m) on every grid |
| LaguerreGaussian.ReconstructLGAsWrittenNonSquare | generator/laguerre_gaussian.py:193-196 | as written, every non-empty dictionary that reconstructs correctly fails with ValueError on a grid with len(x) != len(y) |
| LaguerreGaussian.ReconstructLGAsWrittenSquare | generator/laguerre_gaussian.py:193-196 | on a square grid the code as written and the corrected one agree |

## Left out

- `main.py`, the plotting, and the beam-size measurement (`laserbeamsize`) are outside the engines. So are the unused imports (`RegularGridInterpolator`, `time`, `scipy.constants`).
- Special functions are not computed: Hermite and generalised Laguerre polynomials, `exp`, `sqrt`, `arctan2`, cos/sin for `exp(1j*.)`, and the factorial normalisations `Anx`/`Any` and `A`. They are fields of a `Kernels` parameter. The only facts assumed about them are stated as hypotheses where used: a square root of a positive number is positive, sqrt(1) = 1, cos(0) = 1, sin(0) = 0, and arctan2(0, Z) = 0.
- Orthonormality of the modes is not proved, because it depends on the special functions and on sampling error. The same holds for the accuracy of decomposition followed by reconstruction.
- Floating point is not modelled: reals are exact. Overflow, rounding, and the inf/NaN numpy produces without raising are left out, except the NaN spacing of a grid with fewer than two points and the NaN coefficient it makes. `np.pi` is its double value taken as an exact real.
- HermiteGaussian.GetHGMode: a field whose shape differs from the mode's is always ValueError. numpy broadcasting of size-1 axes, which would let such a field through, is not modelled.
- LaguerreGaussian.GetLGMode: same as GetHGMode, a shape mismatch is always ValueError, with no broadcasting of size-1 axes.
- Projection.Project: a field is a sequence of rows, so an array with no rows has no column count. A field of shape (0, n) therefore matches a mode of shape (0, m) for every m. On such an input the source raises a broadcast ValueError (hermite_gaussian.py:122, laguerre_gaussian.py:109) when n and m differ and neither is 1; the model returns NaN.
- HermiteGaussian.ReconstructHG and LaguerreGaussian.AccumulateLG take numeric coefficients. A NaN coefficient, as decomposition can produce, is not accepted by them, because floating point is not modelled.
- LaguerreGaussian.AccumulateLG: an in-place `+=` between different shapes is ValueError. Broadcasting is not modelled. For the two shapes it is used with, [len(y), len(x)] and [len(x), len(y)], broadcasting changes nothing.
- Python's dynamic typing is left out:
  - mode orders are integers and dictionary keys are integer pairs;
  - coordinates, z, sizes and wavelength are reals, held as Python floats (so division by zero raises);
  - the integer `0` that decomposeHG stores for a skipped pair is the complex zero.
- Coordinates of rank 2 or more are arrays whose `flat` elements are only used after the 1-D asserts have passed. numpy's diff along the last axis of such arrays is therefore not modelled.

## Findings

| source | as written | input that shows it | evidently intended | confidence | as-written member | corrected member |
|---|---|---|---|---|---|---|
| generator/laguerre_gaussian.py:193-196 | the zeros have shape (len(y), len(x)), but LGAnalytic builds its modes on an 'ij' meshgrid of shape (len(x), len(y)), so the in-place `+=` cannot broadcast | x with 2 points, y with 3 points, a non-zero waist and wavelength, cxy = {(0, 0): 1}: ValueError instead of the (0, 0) mode | the docstrings ask for x and y of the same shape (hermite_gaussian.py:20-22, laguerre_gaussian.py:17-22 and 163-166), and on that domain the code is right (ReconstructLGAsWrittenSquare); outside it the zeros clash with the [len(x), len(y)] shape of the modes and of the fields decomposeLG projects, and with HG's [len(y), len(x)], which works for any grid. Zeros of shape (len(x), len(y)) would reconstruct on every grid | not executed | LaguerreGaussian.ReconstructLGAsWrittenNonSquare | LaguerreGaussian.ReconstructLGSingleMode |
