/** Additive positional encoding: a word's vector is "coloured" with the
    pattern of the position it occupies by element-wise addition. */
module PosEncoding {
  import opened LinAlg

  /** The embedding of 'cat' and the patterns of positions 0 and 1. */
  const CatVector: Vector := [0.5, -0.2, 0.1, 0.8]
  const PosPattern0: Vector := [0.1, 0.1, 0.1, 0.1]
  const PosPattern1: Vector := [0.2, 0.2, 0.2, 0.2]

  /** `word + pos_pattern`: the word vector at a position. */
  function Encode(word: Vector, pattern: Vector): (r: Vector)
    requires |word| == |pattern|
    ensures |r| == |word|
    ensures forall k :: 0 <= k < |r| ==> r[k] - pattern[k] == word[k]
  {
    Add(word, pattern)
  }

  /** The meaning is still there: subtracting the position pattern gives
      the word vector back. */
  lemma DecodeEncode(word: Vector, pattern: Vector)
    requires |word| == |pattern|
    ensures Sub(Encode(word, pattern), pattern) == word
  {
  }

  /** Different positions give the same word different numbers: encoding
      is injective in the pattern (and, symmetrically, in the word). */
  lemma EncodeInjective(word: Vector, p: Vector, q: Vector)
    requires |word| == |p| == |q|
    ensures Encode(word, p) == Encode(word, q) <==> p == q
  {
    if Encode(word, p) == Encode(word, q) {
      forall k | 0 <= k < |p|
        ensures p[k] == q[k]
      {
        assert Encode(word, p)[k] == Encode(word, q)[k];
      }
    }
  }

  /** Moving a word from one position to another changes its vector by
      exactly the difference of the two patterns. */
  lemma PositionShift(word: Vector, p0: Vector, p1: Vector)
    requires |word| == |p0| == |p1|
    ensures Sub(Encode(word, p1), Encode(word, p0)) == Sub(p1, p0)
  {
  }

  /** 'cat' at the start is `[0.6, -0.1, 0.2, 0.9]`, at index 1 it is
      `[0.7, 0.0, 0.3, 1.0]`, and the two differ by 0.1 everywhere. */
  lemma CatAtPositions()
    ensures Encode(CatVector, PosPattern0) == [0.6, -0.1, 0.2, 0.9]
    ensures Encode(CatVector, PosPattern1) == [0.7, 0.0, 0.3, 1.0]
    ensures Sub(Encode(CatVector, PosPattern1), Encode(CatVector, PosPattern0)) == [0.1, 0.1, 0.1, 0.1]
    ensures Encode(CatVector, PosPattern0) != Encode(CatVector, PosPattern1)
  {
    PositionShift(CatVector, PosPattern0, PosPattern1);
    assert Encode(CatVector, PosPattern0)[0] != Encode(CatVector, PosPattern1)[0];
  }
}
