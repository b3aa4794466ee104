/** The sampled transverse plane: numpy coordinate arrays, their spacing
    (numpy's mean of consecutive differences) and the two meshgrid
    conventions the engines use. */
module Grid {
  import opened Errors

  /** A numpy array of reals: its shape and its elements in row-major order. */
  datatype NdArray = NdArray(shape: seq<nat>, flat: seq<real>) {

    /** `len(a.shape) == 1`: a flat 1-D array. */
    predicate IsVector() {
      |shape| == 1
    }

    /** Python's `len(a)`: the length of the first axis; a 0-d array raises. */
    function Len(): Result<nat> {
      if |shape| == 0 then Err(TypeError) else Ok(shape[0])
    }
  }

  /** The number of elements of an array of the given shape. */
  function Size(shape: seq<nat>): nat {
    if shape == [] then 1 else shape[0] * Size(shape[1..])
  }

  /** The arrays numpy can build: as many elements as the shape says
      (a 0-d array holds one). */
  type Array = a: NdArray | Size(a.shape) == |a.flat| witness NdArray([], [0.0])

  /** A 1-D array is as long as it has elements. */
  lemma VectorLength(a: Array)
    requires a.IsVector()
    ensures a.Len() == Ok(|a.flat|)
  {
    assert a.shape[1..] == [];
    assert Size(a.shape) == a.shape[0] * 1;
  }

  /** numpy's `diff`: consecutive differences, one fewer than the samples. */
  function Diff(a: seq<real>): (d: seq<real>)
    ensures |d| == if |a| == 0 then 0 else |a| - 1
    ensures forall i :: 0 <= i < |d| ==> d[i] == a[i + 1] - a[i]
  {
    if |a| == 0 then [] else seq(|a| - 1, i requires 0 <= i < |a| - 1 => a[i + 1] - a[i])
  }

  function Sum(s: seq<real>): real {
    if s == [] then 0.0 else s[0] + Sum(s[1..])
  }

  /** `np.mean(np.diff(a))`: the grid spacing, or None where numpy gives NaN
      (fewer than two samples, so the mean of an empty array). */
  function Spacing(a: seq<real>): Option<real> {
    var d := Diff(a);
    if |d| == 0 then None else Some(Sum(d) / (|d| as real))
  }

  /** The differences of a grid add up to its extent. */
  lemma {:induction false} SumDiffTelescopes(a: seq<real>)
    requires |a| >= 1
    ensures Sum(Diff(a)) == a[|a| - 1] - a[0]
  {
    if |a| > 1 {
      var d := Diff(a);
      var rest := a[1..];
      assert d[1..] == Diff(rest);
      SumDiffTelescopes(rest);
      assert Sum(d) == d[0] + Sum(d[1..]);
      assert rest[|rest| - 1] == a[|a| - 1];
    } else {
      assert Diff(a) == [];
    }
  }

  /** A grid has a spacing exactly when it has at least two samples. */
  lemma SpacingDefined(a: seq<real>)
    ensures Spacing(a).Some? <==> |a| >= 2
  {
  }

  /** The extent of a grid over its number of steps. */
  function Step(a: seq<real>): real
    requires |a| >= 2
  {
    (a[|a| - 1] - a[0]) / ((|a| - 1) as real)
  }

  /** The mean difference telescopes to (last - first)/(n - 1); a grid with
      fewer than two samples has no spacing. */
  lemma SpacingTelescopes(a: seq<real>)
    ensures |a| < 2 <==> Spacing(a) == None
    ensures |a| >= 2 ==> Spacing(a) == Some(Step(a))
  {
    if |a| >= 2 {
      SumDiffTelescopes(a);
    }
  }

  /** On a uniform grid a[i] == a[0] + i*h the spacing is the common step h. */
  lemma SpacingUniform(a: seq<real>, h: real)
    requires |a| >= 2
    requires forall i :: 0 <= i < |a| ==> a[i] == a[0] + (i as real) * h
    ensures Spacing(a) == Some(h)
  {
    var n := |a| - 1;
    var extent := a[n] - a[0];
    assert extent == (n as real) * h;
    QuotientOfProduct(extent, n as real, h);
    SpacingTelescopes(a);
  }

  lemma QuotientOfProduct(x: real, n: real, h: real)
    requires n > 0.0 && x == n * h
    ensures x / n == h
  {
  }

  /** numpy's default `meshgrid(u, v)` ('xy' indexing): two arrays of shape
      [len(v), len(u)], the first repeating u along each row, the second
      repeating v down each column. */
  function MeshgridXY<T>(u: seq<T>, v: seq<T>): (m: (seq<seq<T>>, seq<seq<T>>))
    ensures |m.0| == |v| && |m.1| == |v|
    ensures forall r :: 0 <= r < |v| ==> |m.0[r]| == |u| && |m.1[r]| == |u|
    ensures forall r, c :: 0 <= r < |v| && 0 <= c < |u| ==> m.0[r][c] == u[c] && m.1[r][c] == v[r]
  {
    (seq(|v|, r => u), seq(|v|, r requires 0 <= r < |v| => seq(|u|, c => v[r])))
  }

  /** `meshgrid(u, v, indexing='ij')`: two arrays of shape [len(u), len(v)]
      whose entry (i, j) is u[i] and v[j] respectively. */
  function MeshgridIJ<T>(u: seq<T>, v: seq<T>): (m: (seq<seq<T>>, seq<seq<T>>))
    ensures |m.0| == |u| && |m.1| == |u|
    ensures forall i :: 0 <= i < |u| ==> |m.0[i]| == |v| && |m.1[i]| == |v|
    ensures forall i, j :: 0 <= i < |u| && 0 <= j < |v| ==> m.0[i][j] == u[i] && m.1[i][j] == v[j]
  {
    (seq(|u|, i requires 0 <= i < |u| => seq(|v|, j => u[i])), seq(|u|, i => v))
  }
}
