/** The numbered tutorial steps that only multiply: the dot product of two
    lists (step 1), the row-vector-times-matrix loop (step 1, matrix math),
    the "detectors" matrix times an input (step 2) and the output layer that
    picks between 'the' and 'cat' (step 3). */
module Steps {
  import opened LinAlg
  import MatrixBasics

  // ---------------------------------------------------------------------
  // Step 1: the dot product
  // ---------------------------------------------------------------------

  /** `np.dot([10, 20], [1, 2])` is `(10 × 1) + (20 × 2) = 50`. */
  lemma ListsDotProduct()
    ensures Dot([10.0, 20.0], [1.0, 2.0]) == 10.0 * 1.0 + 20.0 * 2.0 == 50.0
  {
    DotOfPairs([10.0, 20.0], [1.0, 2.0]);
  }

  // ---------------------------------------------------------------------
  // Step 1: a row vector times a matrix, column by column
  // ---------------------------------------------------------------------

  /** The 1-by-3 row vector and the 3-by-2 transformation matrix. */
  const X: Vector := [2.0, 5.0, 1.0]
  const W: Matrix := [[1.0, -1.0], [0.5, 2.0], [0.0, 1.0]]

  /** The nested loop of the matrix-math step: for every column of the
      `rows`-by-`cols` matrix `w` it extracts `w[:, col_idx]`, then adds
      `x[i] * col_vector[i]` into `total` for every index of `x`, and
      appends `total`. The inner loop indexes the column with the indices of
      `x`, so `x` may not be longer than the column; when it is shorter, only
      its own entries take part. When `x` has one entry per row the result
      is `x @ w`. */
  method RowTimesColumns(x: Vector, w: Matrix, rows: nat, cols: nat) returns (results: Vector)
    requires IsMatrix(w, rows, cols)
    requires |x| <= rows
    ensures |results| == cols
    ensures forall j :: 0 <= j < cols ==> results[j] == Dot(x, Column(w, j)[..|x|])
    ensures |x| == rows ==> results == VecMat(x, w, cols)
  {
    results := [];
    var colIdx := 0;
    while colIdx < cols
      invariant 0 <= colIdx <= cols
      invariant |results| == colIdx
      invariant forall j :: 0 <= j < colIdx ==> results[j] == Dot(x, Column(w, j)[..|x|])
    {
      var colVector := Column(w, colIdx);
      var total := 0.0;
      var i := 0;
      while i < |x|
        invariant 0 <= i <= |x|
        invariant total == Dot(x[..i], colVector[..|x|][..i])
      {
        DotStep(x, colVector[..|x|], i);
        total := total + x[i] * colVector[i];
        i := i + 1;
      }
      assert x[..|x|] == x && colVector[..|x|][..|x|] == colVector[..|x|];
      results := results + [total];
      colIdx := colIdx + 1;
    }
    if |x| == rows {
      forall j | 0 <= j < cols
        ensures results[j] == VecMat(x, w, cols)[j]
      {
        assert Column(w, j)[..|x|] == Column(w, j);
      }
    }
  }

  /** A dot product of two length-3 vectors, written out term by term. */
  lemma DotOfThree(a: Vector, b: Vector)
    requires |a| == |b| == 3
    ensures Dot(a, b) == a[0] * b[0] + a[1] * b[1] + a[2] * b[2]
  {
    DotStep(a, b, 0);
    DotStep(a, b, 1);
    DotStep(a, b, 2);
    assert a[..3] == a && b[..3] == b;
  }

  /** `[2, 5, 1] @ W` is `[4.5, 9.0]`: the loop and `x @ W` agree on it. */
  lemma RowTimesTransformation()
    ensures IsMatrix(W, |X|, 2)
    ensures VecMat(X, W, 2) == [4.5, 9.0]
  {
    DotOfThree(X, Column(W, 0));
    DotOfThree(X, Column(W, 1));
  }

  // ---------------------------------------------------------------------
  // Step 2: weights @ input, one dot product per detector
  // ---------------------------------------------------------------------

  /** Whatever the input, detector 1 reports its first value, detector 2
      its second and detector 3 their sum. */
  lemma DetectorsSelect(v: Vector)
    requires |v| == 2
    ensures MatVec(MatrixBasics.Templates, v) == [v[0], v[1], v[0] + v[1]]
  {
    DotOfPairs(MatrixBasics.Templates[0], v);
    DotOfPairs(MatrixBasics.Templates[1], v);
    DotOfPairs(MatrixBasics.Templates[2], v);
  }

  // ---------------------------------------------------------------------
  // Step 3: hidden @ output_weights, then the two-way choice
  // ---------------------------------------------------------------------

  /** `'the' if scores[0] > scores[1] else 'cat'`. */
  function PredictWord(scores: Vector): (word: string)
    requires |scores| >= 2
    ensures word == "the" || word == "cat"
  {
    if scores[0] > scores[1] then "the" else "cat"
  }

  /** The two-way choice is the word `np.argmax` would pick, except on a
      tie: there `np.argmax` picks the first word, 'the', and the step picks
      'cat'. */
  lemma PredictWordVersusArgmax(scores: Vector)
    requires |scores| == 2
    ensures scores[0] != scores[1] ==> PredictWord(scores) == ["the", "cat"][Argmax(scores)]
    ensures scores[0] == scores[1] ==> PredictWord(scores) == "cat" && Argmax(scores) == 0
  {
  }

  /** The hidden state `[0.5, 1.2, 0.0, 2.1]` scores 1.85 for 'the' and 1.80
      for 'cat', so the step predicts 'the'. */
  lemma OutputLayerPrediction()
    ensures IsMatrix(MatrixBasics.OutputMatrix, |MatrixBasics.HiddenRow|, 2)
    ensures VecMat(MatrixBasics.HiddenRow, MatrixBasics.OutputMatrix, 2) == [1.85, 1.80]
    ensures PredictWord(VecMat(MatrixBasics.HiddenRow, MatrixBasics.OutputMatrix, 2)) == "the"
  {
    MatrixBasics.HiddenTimesOutput();
  }
}
