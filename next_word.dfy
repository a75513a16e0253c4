/** The toy next-word model: an embedding table, one hidden layer with a
    ReLU, an output layer scored by argmax, and the single "nudge
    everything" training step, all as functions of the parameters. The
    in-place version of the training step is `Training.ToyModel.Train`. */
module NextWord {
  import opened LinAlg
  import Tokenizer

  /** The embedding dimension, the hidden width and the learning rate of the
      script. */
  const EmbeddingSize: nat := 4
  const HiddenUnits: nat := 8
  const LearningRate: real := 0.1

  // ---------------------------------------------------------------------
  // relu
  // ---------------------------------------------------------------------

  /** `np.maximum(0, x)`: every entry is the larger of 0 and the input's. */
  function Relu(x: Vector): (r: Vector)
    ensures |r| == |x|
    ensures forall k :: 0 <= k < |r| ==> r[k] >= 0.0 && r[k] >= x[k]
    ensures forall k :: 0 <= k < |r| ==> r[k] == 0.0 || r[k] == x[k]
  {
    seq(|x|, k requires 0 <= k < |x| => if x[k] > 0.0 then x[k] else 0.0)
  }

  /** ReLU leaves a vector without negative entries as it is ... */
  lemma ReluOfNonNegative(x: Vector)
    requires forall k :: 0 <= k < |x| ==> x[k] >= 0.0
    ensures Relu(x) == x
  {
  }

  /** ... so applying it twice is applying it once. */
  lemma ReluIdempotent(x: Vector)
    ensures Relu(Relu(x)) == Relu(x)
  {
    ReluOfNonNegative(Relu(x));
  }

  // ---------------------------------------------------------------------
  // The parameters and the forward pass
  // ---------------------------------------------------------------------

  /** The three parameter matrices. */
  datatype Params = Params(embeddings: Matrix, hidden: Matrix, output: Matrix)

  /** `vocab_size` rows of `vector_size` entries, a `vector_size`-by-
      `hidden_size` hidden layer and a `hidden_size`-by-`vocab_size` output
      layer. The vocabulary is not empty, or there would be nothing to look
      up. */
  predicate Shaped(p: Params, vocabSize: nat, vectorSize: nat, hiddenSize: nat) {
    && vocabSize > 0
    && IsMatrix(p.embeddings, vocabSize, vectorSize)
    && IsMatrix(p.hidden, vectorSize, hiddenSize)
    && IsMatrix(p.output, hiddenSize, vocabSize)
  }

  /** The shapes of `p`, read off the matrices themselves. */
  predicate WellShaped(p: Params) {
    Shaped(p, |p.embeddings|, |p.hidden|, |p.output|)
  }

  /** Parameters of these shapes fix the sizes, and every word can be looked
      up and scored: its hidden output has `hidden_size` entries and there is
      one logit per word of the vocabulary. */
  lemma ShapedForward(p: Params, vocabSize: nat, vectorSize: nat, hiddenSize: nat)
    requires Shaped(p, vocabSize, vectorSize, hiddenSize)
    ensures WellShaped(p)
    ensures vocabSize == |p.embeddings| && vectorSize == |p.hidden| && hiddenSize == |p.output|
    ensures forall k :: 0 <= k < vocabSize ==> |HiddenOutput(p, k)| == hiddenSize && |Logits(p, k)| == vocabSize
  {
  }

  /** Step A and step B: look up the row of `inputId` and compute
      `relu(vector @ hidden_weights)`. */
  function HiddenOutput(p: Params, inputId: nat): (h: Vector)
    requires WellShaped(p) && inputId < |p.embeddings|
    ensures |h| == |p.output|
    ensures forall j :: 0 <= j < |h| ==> h[j] >= 0.0
    ensures forall j :: 0 <= j < |h| ==>
      var pre := Dot(p.embeddings[inputId], Column(p.hidden, j));
      h[j] >= pre && (h[j] == 0.0 || h[j] == pre)
  {
    Relu(VecMat(p.embeddings[inputId], p.hidden, |p.output|))
  }

  /** Step C: `hidden_output @ output_weights`, one logit per word: the
      logit of a word is its weight column against the hidden output, that
      is, the transposed output layer times the hidden output. */
  function Logits(p: Params, inputId: nat): (l: Vector)
    requires WellShaped(p) && inputId < |p.embeddings|
    ensures |l| == |p.embeddings|
    ensures l == MatVec(Transpose(p.output, |p.embeddings|), HiddenOutput(p, inputId))
  {
    VecMatIsTransposedMatVec(HiddenOutput(p, inputId), p.output, |p.embeddings|);
    VecMat(HiddenOutput(p, inputId), p.output, |p.embeddings|)
  }

  /** Step D: `np.argmax(logits)`, a word id whose logit is largest, the
      first such id on ties. */
  function Predict(p: Params, inputId: nat): (k: nat)
    requires WellShaped(p) && inputId < |p.embeddings|
    ensures k < |p.embeddings|
    ensures forall j :: 0 <= j < |p.embeddings| ==> Logits(p, inputId)[j] <= Logits(p, inputId)[k]
    ensures forall j :: 0 <= j < k ==> Logits(p, inputId)[j] < Logits(p, inputId)[k]
  {
    Argmax(Logits(p, inputId))
  }

  // ---------------------------------------------------------------------
  // The three updates of the training step
  // ---------------------------------------------------------------------

  /** `m[:, t] += d`: column `t` grows by `d`, every other entry stays. */
  function NudgeColumn(m: Matrix, cols: nat, t: nat, d: Vector): (r: Matrix)
    requires IsMatrix(m, |d|, cols) && t < cols
    ensures IsMatrix(r, |m|, cols)
    ensures forall i, j :: 0 <= i < |m| && 0 <= j < cols ==>
      r[i][j] == (if j == t then m[i][j] + d[i] else m[i][j])
  {
    seq(|m|, i requires 0 <= i < |m| => m[i][t := m[i][t] + d[i]])
  }

  /** `np.outer(vector, column > 0)`: entry `(i, j)` is `vector[i]` where
      `column[j]` is positive and 0 elsewhere. */
  function OuterMask(vector: Vector, column: Vector): (r: Matrix)
    ensures IsMatrix(r, |vector|, |column|)
    ensures forall i, j :: 0 <= i < |vector| && 0 <= j < |column| ==>
      r[i][j] == (if column[j] > 0.0 then vector[i] else 0.0)
  {
    seq(|vector|, i requires 0 <= i < |vector| =>
      seq(|column|, j requires 0 <= j < |column| => vector[i] * (if column[j] > 0.0 then 1.0 else 0.0)))
  }

  /** `m += lr * d` for two matrices of the same shape. */
  function AddScaled(m: Matrix, lr: real, d: Matrix, cols: nat): (r: Matrix)
    requires IsMatrix(m, |d|, cols) && IsMatrix(d, |d|, cols)
    ensures IsMatrix(r, |m|, cols)
    ensures forall i, j :: 0 <= i < |m| && 0 <= j < cols ==> r[i][j] == m[i][j] + lr * d[i][j]
  {
    seq(|m|, i requires 0 <= i < |m| => Add(m[i], Scale(lr, d[i])))
  }

  /** `m[k] += d`: row `k` grows by `d`, every other row stays. */
  function NudgeRow(m: Matrix, cols: nat, k: nat, d: Vector): (r: Matrix)
    requires IsMatrix(m, |m|, cols) && k < |m| && |d| == cols
    ensures IsMatrix(r, |m|, cols)
    ensures forall i, j :: 0 <= i < |m| && 0 <= j < cols ==>
      r[i][j] == (if i == k then m[i][j] + d[j] else m[i][j])
  {
    m[k := Add(m[k], d)]
  }

  /** One training step on the pair (`inputId`, `targetId`). When the
      prediction is already right nothing changes. Otherwise, in this order:
      the target's column of the output layer grows by `lr * hidden_output`;
      every hidden weight `(i, j)` grows by `lr * vector[i]` where the
      already-updated output weight `(j, target)` is positive; and the row of
      the input word grows by `lr * (hidden_weights @ output_weights[:, target])`
      computed from the two already-updated layers. */
  function TrainStep(p: Params, inputId: nat, targetId: nat, lr: real): (q: Params)
    requires WellShaped(p) && inputId < |p.embeddings| && targetId < |p.embeddings|
    ensures Shaped(q, |p.embeddings|, |p.hidden|, |p.output|)
  {
    if Predict(p, inputId) == targetId then p
    else
      var vocabSize, vectorSize, hiddenSize := |p.embeddings|, |p.hidden|, |p.output|;
      var vector := p.embeddings[inputId];
      var output := NudgeColumn(p.output, vocabSize, targetId, Scale(lr, HiddenOutput(p, inputId)));
      var column := Column(output, targetId);
      var hidden := AddScaled(p.hidden, lr, OuterMask(vector, column), hiddenSize);
      var embeddings := NudgeRow(p.embeddings, vectorSize, inputId, Scale(lr, MatVec(hidden, column)));
      Params(embeddings, hidden, output)
  }

  // ---------------------------------------------------------------------
  // What the training step promises
  // ---------------------------------------------------------------------

  /** A correct prediction leaves every parameter as it was. */
  lemma TrainCorrectNoChange(p: Params, inputId: nat, targetId: nat, lr: real)
    requires WellShaped(p) && inputId < |p.embeddings| && targetId < |p.embeddings|
    requires Predict(p, inputId) == targetId
    ensures TrainStep(p, inputId, targetId, lr) == p
  {
  }

  /** After a wrong prediction only column `targetId` of the output layer
      changes, by `lr * hidden_output`; with a non-negative learning rate
      none of its entries decreases, because the hidden output is never
      negative. */
  lemma TrainOutputUpdate(p: Params, inputId: nat, targetId: nat, lr: real)
    requires WellShaped(p) && inputId < |p.embeddings| && targetId < |p.embeddings|
    requires Predict(p, inputId) != targetId
    ensures var q, h := TrainStep(p, inputId, targetId, lr), HiddenOutput(p, inputId);
      forall i, j :: 0 <= i < |p.output| && 0 <= j < |p.embeddings| ==>
        q.output[i][j] == (if j == targetId then p.output[i][j] + lr * h[i] else p.output[i][j])
    ensures lr >= 0.0 ==> var q := TrainStep(p, inputId, targetId, lr);
      forall i :: 0 <= i < |p.output| ==> q.output[i][targetId] >= p.output[i][targetId]
  {
    var h := HiddenOutput(p, inputId);
    if lr >= 0.0 {
      forall i | 0 <= i < |p.output|
        ensures lr * h[i] >= 0.0
      {
        assert h[i] >= 0.0;
      }
    }
  }

  /** After a wrong prediction the hidden weight `(i, j)` grows by
      `lr * vector[i]` exactly when the already-updated output weight
      `(j, targetId)` is positive, and stays as it was otherwise. */
  lemma TrainHiddenUpdate(p: Params, inputId: nat, targetId: nat, lr: real)
    requires WellShaped(p) && inputId < |p.embeddings| && targetId < |p.embeddings|
    requires Predict(p, inputId) != targetId
    ensures var q, vector := TrainStep(p, inputId, targetId, lr), p.embeddings[inputId];
      forall i, j :: 0 <= i < |p.hidden| && 0 <= j < |p.output| ==>
        q.hidden[i][j] == (if q.output[j][targetId] > 0.0 then p.hidden[i][j] + lr * vector[i] else p.hidden[i][j])
  {
  }

  /** After a wrong prediction only the row of the input word changes, by
      `lr * (hidden_weights @ output_weights[:, targetId])` taken over the
      already-updated hidden and output layers. */
  lemma TrainEmbeddingUpdate(p: Params, inputId: nat, targetId: nat, lr: real)
    requires WellShaped(p) && inputId < |p.embeddings| && targetId < |p.embeddings|
    requires Predict(p, inputId) != targetId
    ensures var q := TrainStep(p, inputId, targetId, lr);
      forall k :: 0 <= k < |p.embeddings| && k != inputId ==> q.embeddings[k] == p.embeddings[k]
    ensures var q := TrainStep(p, inputId, targetId, lr);
      q.embeddings[inputId] == Add(p.embeddings[inputId], Scale(lr, MatVec(q.hidden, Column(q.output, targetId))))
  {
  }

  /** Why the output update is a nudge towards the target: for the same
      hidden output, the target's logit grows by `lr * (h · h)` and no other
      logit moves. */
  lemma OutputNudgeRaisesTargetLogit(h: Vector, output: Matrix, vocabSize: nat, targetId: nat, lr: real)
    requires IsMatrix(output, |h|, vocabSize) && targetId < vocabSize
    ensures var nudged := NudgeColumn(output, vocabSize, targetId, Scale(lr, h));
      VecMat(h, nudged, vocabSize)[targetId] == VecMat(h, output, vocabSize)[targetId] + lr * Dot(h, h)
    ensures var nudged := NudgeColumn(output, vocabSize, targetId, Scale(lr, h));
      forall j :: 0 <= j < vocabSize && j != targetId ==> VecMat(h, nudged, vocabSize)[j] == VecMat(h, output, vocabSize)[j]
  {
    var nudged := NudgeColumn(output, vocabSize, targetId, Scale(lr, h));
    NudgedColumns(h, output, vocabSize, targetId, lr);
    var before := Column(output, targetId);
    assert VecMat(h, nudged, vocabSize)[targetId] == Dot(h, Add(before, Scale(lr, h)));
    DotAddScaled(h, before, lr);
  }

  /** With a non-negative learning rate the nudge never lowers the target's
      logit. */
  lemma OutputNudgeNeverLowersTarget(h: Vector, output: Matrix, vocabSize: nat, targetId: nat, lr: real)
    requires IsMatrix(output, |h|, vocabSize) && targetId < vocabSize && lr >= 0.0
    ensures var nudged := NudgeColumn(output, vocabSize, targetId, Scale(lr, h));
      VecMat(h, nudged, vocabSize)[targetId] >= VecMat(h, output, vocabSize)[targetId]
  {
    OutputNudgeRaisesTargetLogit(h, output, vocabSize, targetId, lr);
    DotSelfNonNegative(h);
    ProductNonNegative(lr, Dot(h, h));
  }

  lemma ProductNonNegative(a: real, b: real)
    requires a >= 0.0 && b >= 0.0
    ensures a * b >= 0.0
  {
  }

  /** The columns of the nudged output layer: the target's column gained
      `lr * h`, the others are unchanged. */
  lemma NudgedColumns(h: Vector, output: Matrix, vocabSize: nat, targetId: nat, lr: real)
    requires IsMatrix(output, |h|, vocabSize) && targetId < vocabSize
    ensures var nudged := NudgeColumn(output, vocabSize, targetId, Scale(lr, h));
      Column(nudged, targetId) == Add(Column(output, targetId), Scale(lr, h))
    ensures var nudged := NudgeColumn(output, vocabSize, targetId, Scale(lr, h));
      forall j :: 0 <= j < vocabSize && j != targetId ==> Column(nudged, j) == Column(output, j)
  {
  }

  /** `h · (c + lr * h) == h · c + lr * (h · h)`. */
  lemma DotAddScaled(h: Vector, c: Vector, lr: real)
    requires |h| == |c|
    ensures Dot(h, Add(c, Scale(lr, h))) == Dot(h, c) + lr * Dot(h, h)
  {
    DotSymmetric(h, Add(c, Scale(lr, h)));
    DotAddLeft(c, Scale(lr, h), h);
    DotScaleLeft(lr, h, h);
    DotSymmetric(c, h);
  }

  // ---------------------------------------------------------------------
  // The script's run
  // ---------------------------------------------------------------------

  /** The script's run on the vocabulary of its text, whatever the random
      initial weights: the input 'the' is id 4 and the target 'cat' is id 1;
      the hidden output has 8 entries and there are 5 logits, before and
      after the update; and both predictions are ids that `id_to_word`
      translates back into words. */
  lemma ScriptRun(p: Params)
    requires Shaped(p, |Tokenizer.TextVocab|, EmbeddingSize, HiddenUnits)
    ensures var ids := Tokenizer.WordToId(Tokenizer.TextVocab);
      ids["the"] == 4 && ids["cat"] == 1
    ensures |HiddenOutput(p, 4)| == 8 && |Logits(p, 4)| == 5
    ensures Predict(p, 4) in Tokenizer.IdToWord(Tokenizer.TextVocab)
    ensures var q := TrainStep(p, 4, 1, LearningRate);
      WellShaped(q) && |q.embeddings| == 5 && |Logits(q, 4)| == 5
      && Predict(q, 4) in Tokenizer.IdToWord(Tokenizer.TextVocab)
  {
    Tokenizer.VocabPositions();
    Tokenizer.IdsInVocab(Tokenizer.TextVocab);
  }
}
