/** Exact linear algebra shared by the teaching scripts: the dot product,
    both orientations of the matrix-vector product (`W @ x` and `x @ W`),
    column extraction, element-wise vector arithmetic and `argmax`.
    Every number is an exact `real`; floating-point rounding is not modelled. */
module LinAlg {

  type Vector = seq<real>
  type Matrix = seq<seq<real>>

  /** `m` has `rows` rows of `cols` entries each (a rectangular numpy array). */
  predicate IsMatrix(m: Matrix, rows: nat, cols: nat) {
    |m| == rows && forall i :: 0 <= i < |m| ==> |m[i]| == cols
  }

  /** Every row of `m` has exactly `n` entries (any number of rows). */
  predicate RowsOfLength(m: Matrix, n: nat) {
    forall i :: 0 <= i < |m| ==> |m[i]| == n
  }

  // ---------------------------------------------------------------------
  // Dot product: multiply the partners and add the results, front to back
  // ---------------------------------------------------------------------

  /** `np.dot(a, b)` for two 1-D arrays of equal length; the sum is taken
      over the first |a|-1 pairs and then the last pair is added, exactly
      as an accumulator loop adds it. */
  function Dot(a: Vector, b: Vector): (r: real)
    requires |a| == |b|
  {
    if |a| == 0 then 0.0 else Dot(a[..|a| - 1], b[..|b| - 1]) + a[|a| - 1] * b[|b| - 1]
  }

  /** One more pair extends the running total by its product: the invariant
      of every accumulator loop that computes a dot product. */
  lemma DotStep(a: Vector, b: Vector, k: nat)
    requires |a| == |b| && k < |a|
    ensures Dot(a[..k + 1], b[..k + 1]) == Dot(a[..k], b[..k]) + a[k] * b[k]
  {
    assert a[..k + 1][..k] == a[..k];
    assert b[..k + 1][..k] == b[..k];
  }

  /** For two length-2 vectors the dot product is the two-term expansion
      the scripts write out by hand. */
  lemma DotOfPairs(a: Vector, b: Vector)
    requires |a| == |b| == 2
    ensures Dot(a, b) == a[0] * b[0] + a[1] * b[1]
  {
    DotStep(a, b, 0);
    DotStep(a, b, 1);
    assert a[..2] == a && b[..2] == b;
  }

  /** The order of the operands does not matter ("Weight * Input" and
      "Input * Weight" give the same score). */
  lemma {:induction false} DotSymmetric(a: Vector, b: Vector)
    requires |a| == |b|
    ensures Dot(a, b) == Dot(b, a)
  {
    if |a| > 0 {
      DotSymmetric(a[..|a| - 1], b[..|b| - 1]);
    }
  }

  /** The dot product is additive in its left operand. */
  lemma {:induction false} DotAddLeft(a: Vector, b: Vector, c: Vector)
    requires |a| == |b| == |c|
    ensures Dot(Add(a, b), c) == Dot(a, c) + Dot(b, c)
  {
    if |a| > 0 {
      var n := |a| - 1;
      assert Add(a, b)[..n] == Add(a[..n], b[..n]);
      DotAddLeft(a[..n], b[..n], c[..n]);
    }
  }

  /** The dot product is homogeneous in its left operand. */
  lemma {:induction false} DotScaleLeft(s: real, a: Vector, b: Vector)
    requires |a| == |b|
    ensures Dot(Scale(s, a), b) == s * Dot(a, b)
  {
    if |a| > 0 {
      var n := |a| - 1;
      assert forall i :: 0 <= i < n ==> Scale(s, a)[..n][i] == Scale(s, a[..n])[i];
      assert Scale(s, a)[..n] == Scale(s, a[..n]);
      DotScaleLeft(s, a[..n], b[..n]);
    }
  }

  /** The dot product of a vector with itself is never negative. */
  lemma {:induction false} DotSelfNonNegative(a: Vector)
    ensures Dot(a, a) >= 0.0
  {
    if |a| > 0 {
      DotSelfNonNegative(a[..|a| - 1]);
    }
  }

  /** `sum(x * w for x, w in zip(a, b))`: zip stops at the shorter operand. */
  function ZipDot(a: Vector, b: Vector): (r: real)
    ensures |a| == |b| ==> r == Dot(a, b)
  {
    var n := if |a| <= |b| then |a| else |b|;
    assert |a| == |b| ==> a[..n] == a && b[..n] == b;
    Dot(a[..n], b[..n])
  }

  // ---------------------------------------------------------------------
  // Element-wise vector arithmetic
  // ---------------------------------------------------------------------

  /** `a + b` on two numpy vectors of equal length. */
  function Add(a: Vector, b: Vector): (r: Vector)
    requires |a| == |b|
    ensures |r| == |a|
  {
    seq(|a|, i requires 0 <= i < |a| => a[i] + b[i])
  }

  /** `a - b` on two numpy vectors of equal length. */
  function Sub(a: Vector, b: Vector): (r: Vector)
    requires |a| == |b|
    ensures |r| == |a|
  {
    seq(|a|, i requires 0 <= i < |a| => a[i] - b[i])
  }

  /** Adding a vector can be undone: subtracting either operand from the
      sum gives the other back. */
  lemma AddThenSub(a: Vector, b: Vector)
    requires |a| == |b|
    ensures Sub(Add(a, b), b) == a && Sub(Add(a, b), a) == b
  {
  }

  /** `s * a` for a scalar `s`. */
  function Scale(s: real, a: Vector): (r: Vector)
    ensures |r| == |a|
  {
    seq(|a|, i requires 0 <= i < |a| => s * a[i])
  }

  // ---------------------------------------------------------------------
  // Matrix products in both orientations
  // ---------------------------------------------------------------------

  /** `W @ x`: one dot product per row of `W`, in row order. */
  function MatVec(m: Matrix, x: Vector): (r: Vector)
    requires RowsOfLength(m, |x|)
    ensures |r| == |m|
  {
    seq(|m|, i requires 0 <= i < |m| => Dot(m[i], x))
  }

  /** `W[:, j]`, or `[row[j] for row in W]`: entry `k` is row `k`'s `j`-th entry. */
  function Column(m: Matrix, j: nat): (c: Vector)
    requires forall i :: 0 <= i < |m| ==> j < |m[i]|
    ensures |c| == |m|
  {
    seq(|m|, i requires 0 <= i < |m| => m[i][j])
  }

  /** `x @ W` for a `|x|`-by-`cols` matrix: one dot product per column. */
  function VecMat(x: Vector, m: Matrix, cols: nat): (r: Vector)
    requires IsMatrix(m, |x|, cols)
    ensures |r| == cols
  {
    seq(cols, j requires 0 <= j < cols => Dot(x, Column(m, j)))
  }

  /** `W.T`: the columns of `W` as rows. */
  function Transpose(m: Matrix, cols: nat): (t: Matrix)
    requires RowsOfLength(m, cols)
    ensures IsMatrix(t, cols, |m|)
  {
    seq(cols, j requires 0 <= j < cols => Column(m, j))
  }

  /** The two orientations agree: `x @ W == W.T @ x`. */
  lemma VecMatIsTransposedMatVec(x: Vector, m: Matrix, cols: nat)
    requires IsMatrix(m, |x|, cols)
    ensures VecMat(x, m, cols) == MatVec(Transpose(m, cols), x)
  {
    var t := Transpose(m, cols);
    forall j | 0 <= j < cols
      ensures VecMat(x, m, cols)[j] == MatVec(t, x)[j]
    {
      DotSymmetric(x, Column(m, j));
    }
  }

  // ---------------------------------------------------------------------
  // argmax
  // ---------------------------------------------------------------------

  /** `np.argmax(v)`: an index of a largest entry, the first one on ties.
      numpy refuses an empty array, hence the precondition. */
  function Argmax(v: Vector): (k: nat)
    requires |v| > 0
    ensures k < |v|
    ensures forall j :: 0 <= j < |v| ==> v[j] <= v[k]
    ensures forall j :: 0 <= j < k ==> v[j] < v[k]
  {
    if |v| == 1 then 0
    else
      var k := Argmax(v[..|v| - 1]);
      if v[|v| - 1] > v[k] then |v| - 1 else k
  }

  /** The two properties in Argmax's contract single out one index: any
      index that is maximal and strictly beats everything before it is
      the one `np.argmax` returns. */
  lemma ArgmaxUnique(v: Vector, k: nat)
    requires k < |v|
    requires forall j :: 0 <= j < |v| ==> v[j] <= v[k]
    requires forall j :: 0 <= j < k ==> v[j] < v[k]
    ensures Argmax(v) == k
  {
  }
}
