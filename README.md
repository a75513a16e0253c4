# understand-llm teaching scripts in Dafny

This project models the exact, ring-arithmetic core of the "understand-llm"
teaching scripts and proves what they print and promise. There are three
parts:

- **Linear algebra by hand** (`linalg.dfy`, `matrix_basics.dfy`, `steps.dfy`,
  `pos_encoding.dfy`). This part covers the dot product, the loops that
  multiply a matrix by a column (`W @ x`) and a row by a matrix (`x @ W`),
  column extraction, the two-way word choice of the output layer, and
  additive positional encoding. The concrete values the scripts print are
  proved exactly: 50, `[10, 20, 30]`, 17, `[4.5, 9.0]`, 1.85 and 1.80,
  `[0.6, -0.1, 0.2, 0.9]`.
- **The toy next-word model** (`tokenizer.dfy`, `next_word.dfy`,
  `toy_model.dfy`).
  - The tokenizer strips full stops, splits on whitespace, sorts the
    distinct words, and builds the two id maps.
  - The forward pass is: embedding row, `relu(v @ H)`, `@ O`, then
    `argmax`.
  - The training step nudges the three layers in a fixed order. It is
    modelled twice. `NextWord.TrainStep` is a function on values.
    `Training.ToyModel.Train` updates three `array2<real>` fields in
    place, and it is proved to end in the state `TrainStep` computes.
- **The digit template matcher** (`digits.dfy`).
  - 16-by-16 templates of 0 and 1 are drawn into a zero grid with slice
    assignments and flattened row by row.
  - Recognition scores an image against every template with a dot
    product and picks the best score with `argmax`.

Every number is an exact `real`. The integer scripts are modelled with
integer-valued reals. Floating-point rounding is not modelled (see
"Left out").

The text at text_to_model.py:5 yields the five-word vocabulary
`["ate", "cat", "dog", "sat", "the"]` (`Tokenizer.VocabOfText`).

## Model

| member | source | states |
|---|---|---|
| LinAlg.Dot | docs/scripts/step1_dot_product.py:7-8 | `np.dot(a, b)`: multiply the partners and add the results, pair by pair; it has no contract of its own, and `DotStep`, `DotOfPairs`, `DotSymmetric`, `DotAddLeft`, `DotScaleLeft` and `DotSelfNonNegative` state its properties |
| LinAlg.DotStep | docs/scripts/step1_matrix_math.py:37-41 | adding the next pair's product to the running total gives the dot product of one more pair (the accumulator's invariant) |
| LinAlg.DotOfPairs | docs/scripts/step1_dot_product.py:7-8 | for two length-2 vectors the dot product is `a[0]*b[0] + a[1]*b[1]`, the hand expansion |
| LinAlg.DotSymmetric | docs/scripts/matrix_basics.py:51-52 | the order of the factors does not matter: `a · b == b · a` |
| LinAlg.ZipDot | docs/scripts/matrix_basics.py:95-96 | `sum(x * w for x, w in zip(a, b))` is the dot product whenever the lengths agree (zip truncates otherwise) |
| LinAlg.Add | docs/scripts/step5_pos_encoding.py:15-16 | `a + b` on equal-length vectors has their length; `AddThenSub` states what the sum means |
| LinAlg.AddThenSub | docs/scripts/step5_pos_encoding.py:15-16 | subtracting either operand from `a + b` gives the other operand back |
| LinAlg.Scale | text_to_model.py:64 | `s * a` has the length of `a`; `DotScaleLeft` states how it meets the dot product, and `TrainOutputUpdate`/`TrainEmbeddingUpdate` state its effect on the weights entry by entry |
| LinAlg.MatVec | docs/scripts/step2_matrix_multiply.py:13-14 | `W @ x` has one entry per row of `W` |
| LinAlg.Column | docs/scripts/matrix_basics.py:92 | a column has one entry per row of the matrix |
| LinAlg.VecMat | docs/scripts/step3_ai_orientation.py:15-17 | `x @ W` has one entry per column of `W` |
| LinAlg.Transpose | docs/scripts/matrix_basics.py:67 | the columns of a rows-by-cols matrix, as rows, form a cols-by-rows matrix |
| LinAlg.VecMatIsTransposedMatVec | docs/scripts/matrix_basics.py:63-67 | the two orientations agree: `x @ W == W.T @ x` |
| LinAlg.Argmax | text_to_model.py:50 | `np.argmax`: an in-range index whose entry is at least every entry and strictly greater than every earlier one (also the `best_match` of digit_basics.py:37) |
| LinAlg.ArgmaxUnique | text_to_model.py:50 | that characterisation singles out exactly the index `np.argmax` returns |
| MatrixBasics.TemplateScores | matrix_basics.py:54-60 | one score per template, appended in template order, `results[i] == v[0]*w[i][0] + v[1]*w[i][1]`; with 2-entry rows this is `W @ v`; the loop at docs/scripts/matrix_basics.py:49-54 differs only in the order of each product's factors |
| MatrixBasics.ColumnScores | docs/scripts/matrix_basics.py:90-96 | one score per word column |
| MatrixBasics.ColumnScoresAreRowTimesMatrix | docs/scripts/matrix_basics.py:113-115 | when the hidden row has one entry per matrix row, the column loop equals `hidden_np @ out_w_np` |
| MatrixBasics.TemplatesTimesInput | matrix_basics.py:77-81 | `w_np @ v_np` is `[10, 20, 30]` |
| MatrixBasics.RowMeetsColumn | docs/scripts/matrix_basics.py:14-24 | `(0.1 * 10) + (0.8 * 20) = 17` |
| MatrixBasics.HiddenTimesOutput | docs/scripts/matrix_basics.py:69-96 | the scores of 'the' and 'cat' are exactly 1.85 and 1.80, from the loop and from `@` alike |
| Steps.ListsDotProduct | docs/scripts/step1_dot_product.py:4-12 | `np.dot([10, 20], [1, 2]) == 10*1 + 20*2 == 50`; the same hand expansion is computed at matrix_basics.py:15-19 |
| Steps.RowTimesColumns | docs/scripts/step1_matrix_math.py:29-43 | one total per column; total `j` is `x` dotted with the first `len(x)` entries of column `j`; with one entry of `x` per row the result is `x @ W` |
| Steps.RowTimesTransformation | docs/scripts/step1_matrix_math.py:12-51 | `[2, 5, 1] @ W == [4.5, 9.0]` |
| Steps.DetectorsSelect | docs/scripts/step2_matrix_multiply.py:4-22 | for any input, detector 1 reports its first value, detector 2 its second, detector 3 their sum; on `[10, 20]` this is the `[10, 20, 30]` of `MatrixBasics.TemplatesTimesInput` |
| Steps.PredictWord | docs/scripts/step3_ai_orientation.py:25 | the prediction is always 'the' or 'cat' |
| Steps.PredictWordVersusArgmax | docs/scripts/step3_ai_orientation.py:25 | away from ties the prediction is the word argmax picks; on a tie it is 'cat' while argmax picks index 0 ('the') |
| Steps.OutputLayerPrediction | docs/scripts/step3_ai_orientation.py:4-25 | the scores are `[1.85, 1.80]` and the prediction is 'the' |
| PosEncoding.Encode | docs/scripts/step5_pos_encoding.py:15-16 | element-wise addition keeps the length, and removing the pattern from each entry gives the word's entry back |
| PosEncoding.DecodeEncode | docs/scripts/step5_pos_encoding.py:29-31 | subtracting the position pattern recovers the word vector |
| PosEncoding.EncodeInjective | docs/scripts/step5_pos_encoding.py:10-16 | the same word at two positions gets the same vector if and only if the patterns are equal |
| PosEncoding.PositionShift | docs/scripts/step5_pos_encoding.py:15-16 | `cat_at_index1 - cat_at_start == pos_pattern_1 - pos_pattern_0` |
| PosEncoding.CatAtPositions | docs/scripts/step5_pos_encoding.py:5-16 | 'cat' is `[0.6, -0.1, 0.2, 0.9]` at position 0 and `[0.7, 0.0, 0.3, 1.0]` at position 1; they differ by 0.1 everywhere and are distinct |
| Tokenizer.RemoveDots | text_to_model.py:6 | `replace(".", "")` never lengthens the text and keeps exactly the characters other than '.' |
| Tokenizer.RemoveDotsAppend | text_to_model.py:6 | removing full stops distributes over concatenation |
| Tokenizer.RemoveDotsNone | text_to_model.py:6 | a text without full stops is unchanged |
| Tokenizer.SplitFrom | text_to_model.py:6 | scanning with a whitespace-free partial word yields only words: non-empty and free of whitespace |
| Tokenizer.Split | text_to_model.py:6 | every word `split()` returns is non-empty and free of whitespace, and together they are the text's non-whitespace characters in order |
| Tokenizer.SplitJoin | text_to_model.py:6 | `" ".join(ws).split() == ws` for any list of words |
| Tokenizer.SplitAtSpace | text_to_model.py:6 | splitting at a whitespace character splits both sides independently |
| Tokenizer.WordsAtSpace | text_to_model.py:6 | the words of `a + " " + b` are the words of `a` followed by those of `b` |
| Tokenizer.Words | text_to_model.py:6 | `text.replace(".", "").split()` yields words that are non-empty, free of whitespace and free of full stops |
| Tokenizer.Vocab | text_to_model.py:7 | `sorted(list(set(words)))` is strictly ascending, holds exactly the text's words, and each is a word without full stops |
| Tokenizer.LessIrreflexive | text_to_model.py:7 | Python's string order never puts a string before itself |
| Tokenizer.LessTransitive | text_to_model.py:7 | the string order is transitive |
| Tokenizer.LessTotal | text_to_model.py:7 | any two different strings are ordered one way or the other |
| Tokenizer.InsertSorted | text_to_model.py:7 | inserting into a strictly ascending list keeps it strictly ascending and adds exactly the new word |
| Tokenizer.SortedDistinct | text_to_model.py:7 | `sorted(list(set(ws)))` is strictly ascending and holds exactly the words of `ws` |
| Tokenizer.SortedTail | text_to_model.py:7 | the tail of a strictly ascending list holds every element except the first |
| Tokenizer.SortedUnique | text_to_model.py:7 | two strictly ascending lists with the same elements are equal, so the vocabulary does not depend on how it was sorted |
| Tokenizer.SortedIsDistinct | text_to_model.py:7 | a strictly ascending list has no repeated word |
| Tokenizer.WordToId | text_to_model.py:8 | the map's keys are exactly the vocabulary's words, each maps to a position holding it, and no later position holds it |
| Tokenizer.IdToWord | text_to_model.py:9 | the inverse map: each word's id maps back to it, and each id's word maps back to the id |
| Tokenizer.IdsArePositions | text_to_model.py:8 | in a vocabulary without repetitions the id of `vocab[i]` is `i` |
| Tokenizer.IdsAreBijection | text_to_model.py:8-9 | the two maps are a bijection between the words and the ids `0 .. len(vocab) - 1` |
| Tokenizer.WordsOfText | text_to_model.py:5-6 | the text splits into the nine words `the cat sat the cat ate the dog sat` |
| Tokenizer.VocabIs | text_to_model.py:7 | any strictly ascending list holding exactly a text's words is that text's vocabulary |
| Tokenizer.TextVocabSorted | text_to_model.py:7 | `["ate", "cat", "dog", "sat", "the"]` is strictly ascending |
| Tokenizer.VocabOfText | text_to_model.py:5-10 | the vocabulary is `["ate", "cat", "dog", "sat", "the"]` and `vocab_size` is 5 |
| Tokenizer.VocabPositions | text_to_model.py:7-10 | the five vocabulary words are distinct, with 'cat' second and 'the' last |
| Tokenizer.IdsInVocab | text_to_model.py:8-9 | in such a vocabulary 'the' has id 4, 'cat' has id 1, and the ids are exactly `0 .. 4` |
| NextWord.ShapedForward | text_to_model.py:17-27 | parameters of the shapes `vocab_size × vector_size`, `vector_size × hidden_size`, `hidden_size × vocab_size` (the `Params` record and `Shaped`) fix the three sizes, and every word can be looked up and scored: `hidden_size` hidden outputs and one logit per word |
| NextWord.Relu | text_to_model.py:29-33 | every entry is non-negative, at least the input's, and equal to 0 or to the input's |
| NextWord.ReluOfNonNegative | text_to_model.py:29-33 | ReLU leaves a vector with no negative entries unchanged |
| NextWord.ReluIdempotent | text_to_model.py:29-33 | applying ReLU twice is applying it once |
| NextWord.HiddenOutput | text_to_model.py:39-44 | the hidden output has one entry per hidden unit; each is non-negative, at least the pre-activation, and equal to 0 or to it |
| NextWord.Logits | text_to_model.py:47 | one logit per word, equal to the transposed output layer times the hidden output |
| NextWord.Predict | text_to_model.py:50 | the predicted id is a valid id whose logit is maximal, the first such id |
| NextWord.NudgeColumn | text_to_model.py:64 | `m[:, t] += d` changes only column `t`, each entry by `d[i]` |
| NextWord.OuterMask | text_to_model.py:68 | `np.outer(vector, column > 0)` is `vector[i]` where `column[j] > 0` and 0 elsewhere |
| NextWord.AddScaled | text_to_model.py:68 | `m += lr * d` adds `lr * d[i][j]` to every entry |
| NextWord.NudgeRow | text_to_model.py:71 | `m[k] += d` changes only row `k`, each entry by `d[j]` |
| NextWord.TrainStep | text_to_model.py:61-71 | the training step keeps every shape; what it changes is stated by the four `Train…Update`/`TrainCorrectNoChange` lemmas below |
| NextWord.TrainCorrectNoChange | text_to_model.py:61 | a correct prediction changes no parameter |
| NextWord.TrainOutputUpdate | text_to_model.py:60-64 | after a wrong prediction only column `target_id` changes, by `lr * hidden_output`; with `lr >= 0` none of its entries decreases |
| NextWord.TrainHiddenUpdate | text_to_model.py:68 | hidden weight `(i, j)` grows by `lr * vector[i]` if and only if the already-updated output weight `(j, target_id)` is positive; otherwise it is unchanged |
| NextWord.TrainEmbeddingUpdate | text_to_model.py:71 | only row `input_id` of the embeddings changes, by `lr * (hidden_weights @ output_weights[:, target_id])` over the updated layers |
| NextWord.OutputNudgeRaisesTargetLogit | text_to_model.py:64 | for the same hidden output, the output update raises the target's logit by `lr * (h · h)` and leaves every other logit unchanged |
| NextWord.OutputNudgeNeverLowersTarget | text_to_model.py:64 | with `lr >= 0` the output update never lowers the target's logit |
| NextWord.ScriptRun | text_to_model.py:36-80 | for any initial weights of the script's shapes, 'the' is id 4 and 'cat' is id 1; the hidden output has 8 entries and there are 5 logits; both predictions, before and after the update, are ids `id_to_word` can translate |
| Training.AddToColumn | text_to_model.py:64 | the in-place column update leaves the array holding `NudgeColumn` of its old contents |
| Training.AddMaskedOuter | text_to_model.py:68 | the in-place hidden update leaves the array holding `AddScaled` of its old contents and the masked outer product |
| Training.AddToRow | text_to_model.py:71 | the in-place row update leaves the array holding `NudgeRow` of its old contents |
| Training.ToyModel.State | text_to_model.py:17-27 | the three arrays chain together: `vocab_size × vector_size`, `vector_size × hidden_size`, `hidden_size × vocab_size` |
| Training.ToyModel.constructor | text_to_model.py:17-27 | three newly allocated arrays hold the given initial weights |
| Training.BuildAndTrain | text_to_model.py:17-71 | a model built from initial weights and then trained once holds exactly `TrainStep` of those weights |
| Training.ToyModel.Train | text_to_model.py:61-71 | the in-place updates, in the script's order, leave exactly the parameters `TrainStep` computes |
| Digits.Cell | digit_basics.py:5-13 | every cell is 0 or 1, and a digit other than 0 or 1 has only 0 cells |
| Digits.ToyTemplate | digit_basics.py:5-14 | a template has 256 entries, each 0 or 1, all 0 for digits other than 0 and 1 |
| Digits.TemplateRowMajor | digit_basics.py:14 | cell `(r, c)` sits at index `r * 16 + c` |
| Digits.Flatten | digit_basics.py:14 | `flatten()` has `rows * 16` entries and puts cell `(r, c)` at `r * 16 + c` |
| Digits.FillColumn | digit_basics.py:7-8 | `grid[lo:hi, c] = 1.0` sets exactly those cells and leaves the rest |
| Digits.FillRow | digit_basics.py:9-10 | `grid[r, lo:hi] = 1.0` sets exactly those cells and leaves the rest |
| Digits.CreateToyTemplate | digit_basics.py:3-14 | the strokes drawn into a zero grid, once flattened, are exactly the template of the digit |
| Digits.TemplateDot | digit_basics.py:18-20 | the dot product of two templates is the number of black pixels they share |
| Digits.TemplateOverlaps | digit_basics.py:5-12 | a 0 has 28 black pixels, a 1 has 8, and they share 2 |
| Digits.Recognize | digit_basics.py:16-21 | one score per template, the sum of `image[i] * template[i]` |
| Digits.RecognizeNoisyOne | digit_basics.py:28-32 | a noisy 1 scores `2 + template_0 · noise` and `8 + template_1 · noise` |
| Digits.NoisyOneRecognised | digit_basics.py:28-37 | the noisy 1 is recognised as a 1 if and only if `template_1 · noise - template_0 · noise > -6` |
| Digits.CleanOneRecognised | digit_basics.py:23-37 | without noise the scores are `[2, 8]` and the match is 1 |

## Left out

- Floating point: every value is an exact real. Printed results such as `1.85` or `4.5` hold exactly here. IEEE rounding, `:.2f` formatting and `.round(...)` are not modelled.
- Printing: all `print` output and f-string formatting are left out, including the `steps` strings at docs/scripts/matrix_basics.py:95 and docs/scripts/step1_matrix_math.py:40.
- Randomness: `np.random.randn` (text_to_model.py:17-27) and `np.random.normal` (digit_basics.py:29) become caller-supplied values. `Training.ToyModel.constructor` takes the initial weights. `NextWord.ScriptRun` holds for all weights of the right shapes. `Digits.RecognizeNoisyOne` and `Digits.NoisyOneRecognised` hold for any noise vector.
- Out-of-range indexing raises an error in Python; here it is a precondition. `MatrixBasics.TemplateScores` needs at least two input values and two entries per row. `Steps.RowTimesColumns` needs `len(x)` to be at most the number of rows. `LinAlg.Argmax` needs a non-empty vector.
- `np.dot` and `@` on mismatched shapes raise an error in numpy. `LinAlg.Dot`, `LinAlg.MatVec` and `LinAlg.VecMat` require matching shapes instead.
- Tokenizer: strings are sequences of code points. `str.split()` splits on exactly the characters `str.isspace` accepts (`Tokenizer.IsSpace`). Unicode normalisation is not modelled.
- LinAlg.Dot: the function is the definition of the sum of pairwise products and carries no contract of its own. Its properties are separate lemmas (`DotStep`, `DotOfPairs`, `DotSymmetric`, `DotAddLeft`, `DotScaleLeft`, `DotSelfNonNegative`), because postconditions on `Dot` make the training-step proofs too costly to check.
- LinAlg.Add: its own contract states only the length, for the same reason. What the sum means is stated by `LinAlg.AddThenSub` and `PosEncoding.Encode`.
- LinAlg.Scale: its own contract states only the length, for the same reason as `LinAlg.Add`. `LinAlg.DotScaleLeft` and the `NextWord.Train…Update` lemmas state what the product means.
- Training.ToyModel.Train: `vector = embeddings[input_id]` is a numpy view, and the model copies the row instead. This is equivalent because the row is read only before the embedding update writes it.
- NextWord.TrainStep: the learning rate is any real. The script's 0.1 appears in `NextWord.ScriptRun`.
- softmax_basics.py, step7_attention_math.py and step8_multi_head_attention.py use `np.exp` and `np.sqrt`. Transcendental floating-point numerics are out of scope.
- step9_layer_norm.py (`np.sqrt`, a float epsilon) and step6_rope_math.py (`cos`, `sin`, norms) are left out for the same reason.
- docs/tutorial.js and docs/steps.js are page UI and static text, with no logic to model.
