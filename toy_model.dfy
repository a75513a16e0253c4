/** The toy model's parameters as the script holds them: three mutable 2-D
    arrays that the training step updates in place, one after the other. */
module Training {
  import opened LinAlg
  import opened NextWord

  /** The entries of a 2-D array, row by row. */
  function Grid(a: array2<real>): (m: Matrix)
    reads a
    ensures IsMatrix(m, a.Length0, a.Length1)
    ensures forall i, j :: 0 <= i < a.Length0 && 0 <= j < a.Length1 ==> m[i][j] == a[i, j]
  {
    seq(a.Length0, i requires 0 <= i < a.Length0 reads a =>
      seq(a.Length1, j requires 0 <= j < a.Length1 reads a => a[i, j]))
  }

  /** An array holds a matrix when they agree entry by entry. */
  lemma GridIs(a: array2<real>, m: Matrix)
    requires IsMatrix(m, a.Length0, a.Length1)
    requires forall i, j :: 0 <= i < a.Length0 && 0 <= j < a.Length1 ==> a[i, j] == m[i][j]
    ensures Grid(a) == m
  {
    var g := Grid(a);
    forall i | 0 <= i < a.Length0
      ensures g[i] == m[i]
    {
      assert |g[i]| == |m[i]|;
    }
  }

  /** `a[:, t] += d`, one entry of the column at a time. */
  method AddToColumn(a: array2<real>, t: nat, d: Vector)
    requires t < a.Length1 && |d| == a.Length0
    modifies a
    ensures Grid(a) == NudgeColumn(old(Grid(a)), a.Length1, t, d)
  {
    ghost var m := Grid(a);
    var i := 0;
    while i < a.Length0
      invariant 0 <= i <= a.Length0
      invariant forall r, c :: 0 <= r < a.Length0 && 0 <= c < a.Length1 ==>
        a[r, c] == (if c == t && r < i then m[r][c] + d[r] else m[r][c])
    {
      a[i, t] := a[i, t] + d[i];
      i := i + 1;
    }
    GridIs(a, NudgeColumn(m, a.Length1, t, d));
  }

  /** `a += lr * np.outer(vector, column > 0)`, entry by entry. */
  method AddMaskedOuter(a: array2<real>, lr: real, vector: Vector, column: Vector)
    requires |vector| == a.Length0 && |column| == a.Length1
    modifies a
    ensures Grid(a) == AddScaled(old(Grid(a)), lr, OuterMask(vector, column), a.Length1)
  {
    ghost var m := Grid(a);
    var i := 0;
    while i < a.Length0
      invariant 0 <= i <= a.Length0
      invariant forall r, c :: 0 <= r < a.Length0 && 0 <= c < a.Length1 ==>
        a[r, c] == (if r < i then m[r][c] + lr * (vector[r] * (if column[c] > 0.0 then 1.0 else 0.0)) else m[r][c])
    {
      var j := 0;
      while j < a.Length1
        invariant 0 <= j <= a.Length1
        invariant forall r, c :: 0 <= r < a.Length0 && 0 <= c < a.Length1 ==>
          a[r, c] == (if r < i || (r == i && c < j) then m[r][c] + lr * (vector[r] * (if column[c] > 0.0 then 1.0 else 0.0)) else m[r][c])
      {
        a[i, j] := a[i, j] + lr * (vector[i] * (if column[j] > 0.0 then 1.0 else 0.0));
        j := j + 1;
      }
      i := i + 1;
    }
    GridIs(a, AddScaled(m, lr, OuterMask(vector, column), a.Length1));
  }

  /** `a[k] += d`, one entry of the row at a time. */
  method AddToRow(a: array2<real>, k: nat, d: Vector)
    requires k < a.Length0 && |d| == a.Length1
    modifies a
    ensures Grid(a) == NudgeRow(old(Grid(a)), a.Length1, k, d)
  {
    ghost var m := Grid(a);
    var j := 0;
    while j < a.Length1
      invariant 0 <= j <= a.Length1
      invariant forall r, c :: 0 <= r < a.Length0 && 0 <= c < a.Length1 ==>
        a[r, c] == (if r == k && c < j then m[r][c] + d[c] else m[r][c])
    {
      a[k, j] := a[k, j] + d[j];
      j := j + 1;
    }
    GridIs(a, NudgeRow(m, a.Length1, k, d));
  }

  class ToyModel {
    /** `vocab_size` by `vector_size`: one row per word. */
    var embeddings: array2<real>
    /** `vector_size` by `hidden_size`. */
    var hiddenWeights: array2<real>
    /** `hidden_size` by `vocab_size`: one column per word. */
    var outputWeights: array2<real>

    /** Three separate arrays whose shapes chain together. */
    predicate Valid()
      reads this
    {
      && embeddings != hiddenWeights && embeddings != outputWeights && hiddenWeights != outputWeights
      && embeddings.Length0 > 0
      && hiddenWeights.Length0 == embeddings.Length1
      && outputWeights.Length0 == hiddenWeights.Length1
      && outputWeights.Length1 == embeddings.Length0
    }

    /** The parameters the arrays hold. */
    function State(): (p: Params)
      requires Valid()
      reads this, embeddings, hiddenWeights, outputWeights
      ensures WellShaped(p)
      ensures Shaped(p, embeddings.Length0, embeddings.Length1, outputWeights.Length0)
    {
      Params(Grid(embeddings), Grid(hiddenWeights), Grid(outputWeights))
    }

    /** Allocate the three arrays and fill them with the given initial
        weights (the script draws them at random). */
    constructor (init: Params)
      requires WellShaped(init)
      ensures Valid() && State() == init
      ensures fresh(embeddings) && fresh(hiddenWeights) && fresh(outputWeights)
    {
      var vocabSize, vectorSize, hiddenSize := |init.embeddings|, |init.hidden|, |init.output|;
      embeddings := new real[vocabSize, vectorSize]((i, j) requires 0 <= i < vocabSize && 0 <= j < vectorSize => init.embeddings[i][j]);
      hiddenWeights := new real[vectorSize, hiddenSize]((i, j) requires 0 <= i < vectorSize && 0 <= j < hiddenSize => init.hidden[i][j]);
      outputWeights := new real[hiddenSize, vocabSize]((i, j) requires 0 <= i < hiddenSize && 0 <= j < vocabSize => init.output[i][j]);
      new;
      GridIs(embeddings, init.embeddings);
      GridIs(hiddenWeights, init.hidden);
      GridIs(outputWeights, init.output);
    }

    /** The training step in place: when the prediction for `inputId` is not
        `targetId`, nudge the target's output column, then the hidden
        weights (reading the updated column), then the input word's
        embedding (reading both updated layers). */
    method Train(inputId: nat, targetId: nat, lr: real)
      requires Valid() && inputId < embeddings.Length0 && targetId < embeddings.Length0
      modifies embeddings, hiddenWeights, outputWeights
      ensures Valid()
      ensures State() == TrainStep(old(State()), inputId, targetId, lr)
    {
      var p := State();
      if Predict(p, inputId) != targetId {
        // The row is read before the embeddings change, so a copy of it
        // behaves like the script's view of it.
        var vector := p.embeddings[inputId];
        AddToColumn(outputWeights, targetId, Scale(lr, HiddenOutput(p, inputId)));
        var column := Column(Grid(outputWeights), targetId);
        AddMaskedOuter(hiddenWeights, lr, vector, column);
        AddToRow(embeddings, inputId, Scale(lr, MatVec(Grid(hiddenWeights), column)));
      }
    }
  }

  /** The script's order: build the model from its initial weights, then
      train it once on the pair (`inputId`, `targetId`). */
  method BuildAndTrain(init: Params, inputId: nat, targetId: nat, lr: real) returns (m: ToyModel)
    requires WellShaped(init) && inputId < |init.embeddings| && targetId < |init.embeddings|
    ensures m.Valid() && m.State() == TrainStep(init, inputId, targetId, lr)
  {
    m := new ToyModel(init);
    m.Train(inputId, targetId, lr);
  }
}
