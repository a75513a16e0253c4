/** The two "matrix basics" lessons: a hand-written dot product, a loop that
    scores an input against every template (row) of a matrix, and the
    "input row times weight matrix" orientation that takes columns. Both
    versions of the lesson (the top-level one and the one shipped with the
    tutorial pages) are modelled here; their templates loops differ only in
    the order of the two factors of each product, which does not matter over
    exact numbers. */
module MatrixBasics {
  import opened LinAlg

  /** The three templates (feature A, feature B, both). */
  const Templates: Matrix := [[1.0, 0.0], [0.0, 1.0], [1.0, 1.0]]
  /** The input data, also called the column `col_x`. */
  const Input: Vector := [10.0, 20.0]
  /** The horizontal weight row of the row-meets-column step. */
  const WeightRow: Vector := [0.1, 0.8]
  /** The hidden row and the 4-by-2 output matrix whose columns are the
      weight vectors of the words 'the' and 'cat'. */
  const HiddenRow: Vector := [0.5, 1.2, 0.0, 2.1]
  const OutputMatrix: Matrix := [[0.1, 0.9], [0.8, -0.1], [-0.5, 0.2], [0.4, 0.7]]

  /** The templates loop: `results.append(score)` once per row, where the
      score adds the products of the first two entries only. Indexing the
      first two entries of the input and of each row is all the loop needs. */
  method TemplateScores(w: Matrix, v: Vector) returns (results: Vector)
    requires |v| >= 2
    requires forall i :: 0 <= i < |w| ==> |w[i]| >= 2
    ensures |results| == |w|
    ensures forall i :: 0 <= i < |w| ==> results[i] == v[0] * w[i][0] + v[1] * w[i][1]
    ensures |v| == 2 && RowsOfLength(w, 2) ==> results == MatVec(w, v)
  {
    results := [];
    var i := 0;
    while i < |w|
      invariant 0 <= i <= |w|
      invariant |results| == i
      invariant forall k :: 0 <= k < i ==> results[k] == v[0] * w[k][0] + v[1] * w[k][1]
    {
      var template := w[i];
      var score := v[0] * template[0] + v[1] * template[1];
      results := results + [score];
      i := i + 1;
    }
    if |v| == 2 && RowsOfLength(w, 2) {
      forall k | 0 <= k < |w|
        ensures results[k] == MatVec(w, v)[k]
      {
        DotOfPairs(w[k], v);
      }
    }
  }

  /** The words loop of the "input on the left" step: for each of the first
      `words` columns, extract the column with a comprehension and add up
      the products of `zip(hidden, column)`. */
  function ColumnScores(hidden: Vector, m: Matrix, words: nat): (scores: Vector)
    requires forall i :: 0 <= i < |m| ==> words <= |m[i]|
    ensures |scores| == words
  {
    seq(words, j requires 0 <= j < words => ZipDot(hidden, Column(m, j)))
  }

  /** When the hidden row has one entry per matrix row, the words loop is
      the numpy product `hidden_np @ out_w_np`. */
  lemma ColumnScoresAreRowTimesMatrix(hidden: Vector, m: Matrix, cols: nat)
    requires IsMatrix(m, |hidden|, cols)
    ensures ColumnScores(hidden, m, cols) == VecMat(hidden, m, cols)
  {
  }

  /** A dot product of two length-4 vectors, written out term by term. */
  lemma DotOfFour(a: Vector, b: Vector)
    requires |a| == |b| == 4
    ensures Dot(a, b) == a[0] * b[0] + a[1] * b[1] + a[2] * b[2] + a[3] * b[3]
  {
    DotStep(a, b, 0);
    DotStep(a, b, 1);
    DotStep(a, b, 2);
    DotStep(a, b, 3);
    assert a[..4] == a && b[..4] == b;
  }

  /** The three templates turn `[10, 20]` into `[10, 20, 30]`, which is
      what both the loop and `w_np @ v_np` print. */
  lemma TemplatesTimesInput()
    ensures MatVec(Templates, Input) == [10.0, 20.0, 30.0]
  {
    DotOfPairs(Templates[0], Input);
    DotOfPairs(Templates[1], Input);
    DotOfPairs(Templates[2], Input);
  }

  /** Row meets column: `(0.1 * 10) + (0.8 * 20) = 17`. */
  lemma RowMeetsColumn()
    ensures Dot(WeightRow, Input) == 17.0
  {
    DotOfPairs(WeightRow, Input);
  }

  /** The scores of 'the' and 'cat' are exactly 1.85 and 1.80, from the
      words loop and from `hidden_np @ out_w_np` alike. */
  lemma HiddenTimesOutput()
    ensures IsMatrix(OutputMatrix, |HiddenRow|, 2)
    ensures ColumnScores(HiddenRow, OutputMatrix, 2) == VecMat(HiddenRow, OutputMatrix, 2)
    ensures VecMat(HiddenRow, OutputMatrix, 2) == [1.85, 1.80]
  {
    ColumnScoresAreRowTimesMatrix(HiddenRow, OutputMatrix, 2);
    DotOfFour(HiddenRow, Column(OutputMatrix, 0));
    DotOfFour(HiddenRow, Column(OutputMatrix, 1));
  }
}
