/** The projection step both engines share once the mode array is built:
    `np.sum(field*np.conj(mode))*dx*dy` with dx and dy numpy's mean
    spacings of the two coordinate grids. */
module Projection {
  import opened Complex
  import opened Errors
  import opened Grid
  import opened Fields

  /** The complex scalar the projection returns: a number, or the NaN that a
      mean spacing of an empty difference array makes of the whole product
      (numpy only warns, it does not raise). */
  datatype Coefficient = Number(value: Complex) | NaN

  /** A field of another shape than the mode does not multiply with it
      (ValueError); a grid of fewer than two points has a NaN spacing. */
  function Project(field: Field, mode: Field, xs: seq<real>, ys: seq<real>): Result<Coefficient> {
    if !SameShape(field, mode) then Err(ValueError)
    else match (Spacing(xs), Spacing(ys))
      case (Some(dx), Some(dy)) => Ok(Number(Overlap(field, mode, dx, dy)))
      case _ => Ok(NaN)
  }

  /** The projection fails exactly on a shape mismatch; it is NaN on a grid
      without a spacing, and otherwise the overlap scaled by the two grid steps. */
  lemma ProjectOutcome(field: Field, mode: Field, xs: seq<real>, ys: seq<real>)
    ensures !SameShape(field, mode) ==> Project(field, mode, xs, ys) == Err(ValueError)
    ensures SameShape(field, mode) && (|xs| < 2 || |ys| < 2) ==> Project(field, mode, xs, ys) == Ok(NaN)
    ensures SameShape(field, mode) && |xs| >= 2 && |ys| >= 2 ==>
              Project(field, mode, xs, ys) == Ok(Number(Overlap(field, mode, Step(xs), Step(ys))))
  {
    SpacingTelescopes(xs);
    SpacingTelescopes(ys);
  }

  /** The same outcome for a mode of known shape: the field must have that shape. */
  lemma ProjectShaped(field: Field, mode: Field, xs: seq<real>, ys: seq<real>, rows: nat, cols: nat)
    requires HasShape(mode, rows, cols)
    ensures !HasShape(field, rows, cols) ==> Project(field, mode, xs, ys) == Err(ValueError)
    ensures HasShape(field, rows, cols) && (|xs| < 2 || |ys| < 2) ==> Project(field, mode, xs, ys) == Ok(NaN)
    ensures HasShape(field, rows, cols) && |xs| >= 2 && |ys| >= 2 ==>
              Project(field, mode, xs, ys) == Ok(Number(Overlap(field, mode, Step(xs), Step(ys))))
  {
    assert SameShape(field, mode) <==> HasShape(field, rows, cols);
    ProjectOutcome(field, mode, xs, ys);
  }

  /** On uniform grids of steps hx and hy the projection is the overlap scaled by hx*hy. */
  lemma ProjectUniformGrid(field: Field, mode: Field, xs: seq<real>, ys: seq<real>, hx: real, hy: real)
    requires SameShape(field, mode) && |xs| >= 2 && |ys| >= 2
    requires forall i :: 0 <= i < |xs| ==> xs[i] == xs[0] + (i as real) * hx
    requires forall i :: 0 <= i < |ys| ==> ys[i] == ys[0] + (i as real) * hy
    ensures Project(field, mode, xs, ys) == Ok(Number(Overlap(field, mode, hx, hy)))
  {
    SpacingUniform(xs, hx);
    SpacingUniform(ys, hy);
  }

  /** The projection is linear in the field; NaN stays NaN whatever the field. */
  lemma ProjectLinear(a: Complex, f: Field, b: Complex, g: Field, mode: Field, xs: seq<real>, ys: seq<real>)
    requires Project(f, mode, xs, ys).Ok?
    requires SameShape(g, mode)
    ensures Project(g, mode, xs, ys).Ok?
    ensures SameShape(f, g)
    ensures Project(f, mode, xs, ys).value.NaN? ==>
              Project(g, mode, xs, ys) == Ok(NaN) && Project(CombineField(a, f, b, g), mode, xs, ys) == Ok(NaN)
    ensures Project(f, mode, xs, ys).value.Number? ==>
              Project(g, mode, xs, ys).value.Number?
              && Project(CombineField(a, f, b, g), mode, xs, ys)
                 == Ok(Number(Combine(a, Project(f, mode, xs, ys).value.value, b, Project(g, mode, xs, ys).value.value)))
  {
    if Spacing(xs).Some? && Spacing(ys).Some? {
      OverlapLinear(a, f, b, g, mode, Spacing(xs).value, Spacing(ys).value);
    }
  }

  /** A field that is zero everywhere projects to zero, unless the spacing is NaN. */
  lemma ProjectZero(field: Field, mode: Field, xs: seq<real>, ys: seq<real>)
    requires Project(field, mode, xs, ys).Ok?
    requires forall r, c :: 0 <= r < |field| && 0 <= c < |field[r]| ==> field[r][c] == Zero
    ensures Project(field, mode, xs, ys) == Ok(NaN) || Project(field, mode, xs, ys) == Ok(Number(Zero))
    ensures |xs| >= 2 && |ys| >= 2 ==> Project(field, mode, xs, ys) == Ok(Number(Zero))
  {
    SpacingDefined(xs);
    SpacingDefined(ys);
    if Spacing(xs).Some? && Spacing(ys).Some? {
      OverlapZero(field, mode, Spacing(xs).value, Spacing(ys).value);
    }
  }
}
