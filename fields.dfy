/** Complex fields sampled on the grid (2-D numpy arrays), the overlap sum
    that projects one field onto another, and sums over a set of mode keys. */
module Fields {
  import opened Complex

  /** A 2-D complex array as a sequence of rows. */
  type Field = seq<seq<Complex>>

  /** The index pair (i, j) that keys a coefficient dictionary. */
  type ModeIndex = (int, int)

  predicate HasShape(f: Field, rows: nat, cols: nat) {
    |f| == rows && forall r :: 0 <= r < rows ==> |f[r]| == cols
  }

  /** Two arrays of one shape, so that numpy combines them elementwise. */
  predicate SameShape(f: Field, g: Field) {
    |f| == |g| && forall r :: 0 <= r < |f| ==> |f[r]| == |g[r]|
  }

  /** `1j*np.zeros((rows, cols))`. */
  function ZeroField(rows: nat, cols: nat): (f: Field)
    ensures HasShape(f, rows, cols)
    ensures forall r, c :: 0 <= r < rows && 0 <= c < cols ==> f[r][c] == Zero
  {
    seq(rows, r => seq(cols, c => Zero))
  }

  /** numpy's elementwise `f + g` on arrays of one shape. */
  function AddField(f: Field, g: Field): (h: Field)
    requires |f| == |g| && forall r :: 0 <= r < |f| ==> |f[r]| == |g[r]|
    ensures |h| == |f| && forall r :: 0 <= r < |f| ==> |h[r]| == |f[r]|
    ensures forall r, c :: 0 <= r < |f| && 0 <= c < |f[r]| ==> h[r][c] == Add(f[r][c], g[r][c])
  {
    seq(|f|, r requires 0 <= r < |f| => seq(|f[r]|, c requires 0 <= c < |f[r]| => Add(f[r][c], g[r][c])))
  }

  /** A complex scalar times an array, `a * f`. */
  function ScaleField(a: Complex, f: Field): (h: Field)
    ensures |h| == |f| && forall r :: 0 <= r < |f| ==> |h[r]| == |f[r]|
    ensures forall r, c :: 0 <= r < |f| && 0 <= c < |f[r]| ==> h[r][c] == Mul(a, f[r][c])
  {
    seq(|f|, r requires 0 <= r < |f| => seq(|f[r]|, c requires 0 <= c < |f[r]| => Mul(a, f[r][c])))
  }

  /** The row a*u + b*w. */
  function CombineRow(a: Complex, u: seq<Complex>, b: Complex, w: seq<Complex>): (s: seq<Complex>)
    requires |u| == |w|
    ensures |s| == |u|
    ensures forall c :: 0 <= c < |u| ==> s[c] == Combine(a, u[c], b, w[c])
  {
    if u == [] then [] else [Combine(a, u[0], b, w[0])] + CombineRow(a, u[1..], b, w[1..])
  }

  /** The field a*f + b*g. */
  function CombineField(a: Complex, f: Field, b: Complex, g: Field): (h: Field)
    requires |f| == |g| && forall r :: 0 <= r < |f| ==> |f[r]| == |g[r]|
    ensures |h| == |f| && forall r :: 0 <= r < |f| ==> |h[r]| == |f[r]|
    ensures forall r, c :: 0 <= r < |f| && 0 <= c < |f[r]| ==> h[r][c] == Combine(a, f[r][c], b, g[r][c])
  {
    if f == [] then [] else [CombineRow(a, f[0], b, g[0])] + CombineField(a, f[1..], b, g[1..])
  }

  /** Sum over one row of u[c] * conj(v[c]). */
  function RowOverlap(u: seq<Complex>, v: seq<Complex>): Complex
    requires |u| == |v|
  {
    if u == [] then Zero else Add(Mul(u[0], Conj(v[0])), RowOverlap(u[1..], v[1..]))
  }

  /** `np.sum(f * np.conj(g))` over arrays of one shape. */
  function SumOverlap(f: Field, g: Field): Complex
    requires |f| == |g| && forall r :: 0 <= r < |f| ==> |f[r]| == |g[r]|
  {
    if f == [] then Zero else Add(RowOverlap(f[0], g[0]), SumOverlap(f[1..], g[1..]))
  }

  /** `np.sum(f * np.conj(g)) * dx * dy`: the discrete overlap integral. */
  function Overlap(f: Field, g: Field, dx: real, dy: real): Complex
    requires |f| == |g| && forall r :: 0 <= r < |f| ==> |f[r]| == |g[r]|
  {
    Scale(dy, Scale(dx, SumOverlap(f, g)))
  }

  lemma {:induction false} RowOverlapLinear(a: Complex, u: seq<Complex>, b: Complex, w: seq<Complex>, v: seq<Complex>)
    requires |u| == |w| == |v|
    ensures RowOverlap(CombineRow(a, u, b, w), v) == Combine(a, RowOverlap(u, v), b, RowOverlap(w, v))
  {
    if u != [] {
      var s := CombineRow(a, u, b, w);
      assert s[1..] == CombineRow(a, u[1..], b, w[1..]);
      RowOverlapLinear(a, u[1..], b, w[1..], v[1..]);
      CombineStep(a, u[0], b, w[0], Conj(v[0]), RowOverlap(u[1..], v[1..]), RowOverlap(w[1..], v[1..]));
    }
  }

  /** One step of the linearity induction: (a*x + b*y)*m + (a*p + b*q) == a*(x*m + p) + b*(y*m + q). */
  lemma CombineStep(a: Complex, x: Complex, b: Complex, y: Complex, m: Complex, p: Complex, q: Complex)
    ensures Add(Mul(Combine(a, x, b, y), m), Combine(a, p, b, q)) == Combine(a, Add(Mul(x, m), p), b, Add(Mul(y, m), q))
  {
    CombineMul(a, x, b, y, m);
    CombineAdd(a, Mul(x, m), p, b, Mul(y, m), q);
  }

  lemma {:induction false} SumOverlapLinear(a: Complex, f: Field, b: Complex, g: Field, m: Field)
    requires |f| == |g| == |m|
    requires forall r :: 0 <= r < |f| ==> |f[r]| == |g[r]| == |m[r]|
    ensures SumOverlap(CombineField(a, f, b, g), m) == Combine(a, SumOverlap(f, m), b, SumOverlap(g, m))
  {
    if f != [] {
      var h := CombineField(a, f, b, g);
      assert h[1..] == CombineField(a, f[1..], b, g[1..]);
      assert h[0] == CombineRow(a, f[0], b, g[0]);
      RowOverlapLinear(a, f[0], b, g[0], m[0]);
      SumOverlapLinear(a, f[1..], b, g[1..], m[1..]);
      CombineAdd(a, RowOverlap(f[0], m[0]), SumOverlap(f[1..], m[1..]),
                 b, RowOverlap(g[0], m[0]), SumOverlap(g[1..], m[1..]));
    }
  }

  /** The overlap is linear in its first field. */
  lemma OverlapLinear(a: Complex, f: Field, b: Complex, g: Field, m: Field, dx: real, dy: real)
    requires |f| == |g| == |m|
    requires forall r :: 0 <= r < |f| ==> |f[r]| == |g[r]| == |m[r]|
    ensures Overlap(CombineField(a, f, b, g), m, dx, dy) == Combine(a, Overlap(f, m, dx, dy), b, Overlap(g, m, dx, dy))
  {
    SumOverlapLinear(a, f, b, g, m);
    CombineScale(a, SumOverlap(f, m), b, SumOverlap(g, m), dx);
    CombineScale(a, Scale(dx, SumOverlap(f, m)), b, Scale(dx, SumOverlap(g, m)), dy);
  }

  lemma {:induction false} SumOverlapZero(f: Field, m: Field)
    requires |f| == |m| && forall r :: 0 <= r < |f| ==> |f[r]| == |m[r]|
    requires forall r, c :: 0 <= r < |f| && 0 <= c < |f[r]| ==> f[r][c] == Zero
    ensures SumOverlap(f, m) == Zero
  {
    if f != [] {
      RowOverlapZero(f[0], m[0]);
      SumOverlapZero(f[1..], m[1..]);
    }
  }

  lemma {:induction false} RowOverlapZero(u: seq<Complex>, v: seq<Complex>)
    requires |u| == |v| && forall c :: 0 <= c < |u| ==> u[c] == Zero
    ensures RowOverlap(u, v) == Zero
  {
    if u != [] {
      RowOverlapZero(u[1..], v[1..]);
    }
  }

  /** A field that is zero everywhere has zero overlap with any mode. */
  lemma OverlapZero(f: Field, m: Field, dx: real, dy: real)
    requires |f| == |m| && forall r :: 0 <= r < |f| ==> |f[r]| == |m[r]|
    requires forall r, c :: 0 <= r < |f| && 0 <= c < |f[r]| ==> f[r][c] == Zero
    ensures Overlap(f, m, dx, dy) == Zero
  {
    SumOverlapZero(f, m);
  }

  /** Some element of a non-empty set; the sums below always remove this one. */
  ghost function Pick<K>(s: set<K>): (k: K)
    requires s != {}
    ensures k in s
  {
    var k :| k in s; k
  }

  /** The sum of term(k) over a finite set of keys, in no particular order. */
  ghost function SumOver<K>(s: set<K>, term: K -> Complex): Complex
    decreases s
  {
    if s == {} then Zero else
      var k := Pick(s);
      Add(term(k), SumOver(s - {k}, term))
  }

  /** Any key may be taken out of the sum first: the sum does not depend on
      the order in which the dictionary is traversed. */
  lemma {:induction false} SumOverRemove<K>(s: set<K>, term: K -> Complex, k: K)
    requires k in s
    ensures SumOver(s, term) == Add(term(k), SumOver(s - {k}, term))
    decreases s
  {
    var j := Pick(s);
    if j != k {
      SumOverRemove(s - {j}, term, k);
      SumOverRemove(s - {k}, term, j);
      assert s - {j} - {k} == s - {k} - {j};
    }
  }

  /** Sums whose terms agree on the keys are equal. */
  lemma {:induction false} SumOverCongruent<K>(s: set<K>, t1: K -> Complex, t2: K -> Complex)
    requires forall k :: k in s ==> t1(k) == t2(k)
    ensures SumOver(s, t1) == SumOver(s, t2)
    decreases s
  {
    if s != {} {
      SumOverCongruent(s - {Pick(s)}, t1, t2);
    }
  }

  /** Keys whose term is zero can be dropped from a sum. */
  lemma {:induction false} SumOverDropZeros<K>(s: set<K>, t: set<K>, term: K -> Complex)
    requires t <= s
    requires forall k :: k in s && k !in t ==> term(k) == Zero
    ensures SumOver(s, term) == SumOver(t, term)
    decreases s
  {
    if s != t {
      var k :| k in s && k !in t;
      SumOverRemove(s, term, k);
      SumOverDropZeros(s - {k}, t, term);
    }
  }

  /** A sum over one more key gains that key's term. */
  lemma SumOverInsert<K>(s: set<K>, term: K -> Complex, k: K, v: Complex)
    requires k !in s && term(k) == v
    ensures SumOver(s + {k}, term) == Add(SumOver(s, term), v)
  {
    SumOverRemove(s + {k}, term, k);
    assert (s + {k}) - {k} == s;
  }

  lemma SumOverSingleton<K>(k: K, term: K -> Complex)
    ensures SumOver({k}, term) == term(k)
  {
    SumOverRemove({k}, term, k);
    assert {k} - {k} == {};
  }

  /** Arrays of one shape with equal entries are equal. */
  lemma FieldsEqual(f: Field, g: Field)
    requires SameShape(f, g)
    requires forall r, c :: 0 <= r < |f| && 0 <= c < |f[r]| ==> f[r][c] == g[r][c]
    ensures f == g
  {
    assert forall r :: 0 <= r < |f| ==> f[r] == g[r];
  }

  /** The keys of the dictionary that `for i in range(nxMax): for j in range(nyMax)` fills. */
  predicate InRectangle(key: ModeIndex, nxMax: int, nyMax: int) {
    0 <= key.0 < nxMax && 0 <= key.1 < nyMax
  }

  /** The keys visited before (i, j) in row-major order. */
  ghost predicate KeysBefore<V>(m: map<ModeIndex, V>, i: int, j: int, nyMax: int) {
    forall key: ModeIndex :: key in m <==> InRectangle(key, i, nyMax) || (key.0 == i && 0 <= key.1 < j)
  }

  lemma KeysBeforeEmpty<V>(m: map<ModeIndex, V>, nyMax: int)
    requires m == map[]
    ensures KeysBefore(m, 0, 0, nyMax)
  {
  }

  lemma KeysBeforeNext<V>(m: map<ModeIndex, V>, i: int, j: int, nyMax: int, v: V)
    requires 0 <= j < nyMax && KeysBefore(m, i, j, nyMax)
    ensures KeysBefore(m[(i, j) := v], i, j + 1, nyMax)
  {
  }

  lemma KeysBeforeRowDone<V>(m: map<ModeIndex, V>, i: int, j: int, nyMax: int)
    requires 0 <= i && KeysBefore(m, i, j, nyMax) && (j == nyMax || (nyMax < 0 && j == 0))
    ensures KeysBefore(m, i + 1, 0, nyMax)
  {
  }

  lemma KeysBeforeDone<V>(m: map<ModeIndex, V>, i: int, nxMax: int, nyMax: int)
    requires KeysBefore(m, i, 0, nyMax) && (i == nxMax || (nxMax < 0 && i == 0))
    ensures forall key: ModeIndex :: key in m <==> InRectangle(key, nxMax, nyMax)
  {
  }
}
