/** The digit template matcher: 16-by-16 templates of the digits 0 and 1,
    drawn into a zero grid and flattened row by row, and recognition of an
    image as the template with the largest dot product. */
module Digits {
  import opened LinAlg

  /** The side of the square grid. */
  const Side: nat := 16
  /** The length of a flattened template. */
  const Pixels: nat := 256

  // ---------------------------------------------------------------------
  // What the templates look like
  // ---------------------------------------------------------------------

  /** Cell `(r, c)` of the template of `digit`: a 0 is the outline of the
      square of rows and columns 4 to 11, a 1 is column 8 from row 4 to row
      11, and any other digit is blank. */
  function Cell(digit: int, r: int, c: int): (v: real)
    ensures v == 0.0 || v == 1.0
    ensures digit != 0 && digit != 1 ==> v == 0.0
  {
    if digit == 0 && 4 <= r <= 11 && 4 <= c <= 11 && (r == 4 || r == 11 || c == 4 || c == 11) then 1.0
    else if digit == 1 && c == 8 && 4 <= r <= 11 then 1.0
    else 0.0
  }

  /** The flattened template of `digit`: entry `k` is cell `(k / 16, k % 16)`. */
  function ToyTemplate(digit: int): (t: Vector)
    ensures |t| == Pixels
    ensures forall k :: 0 <= k < |t| ==> t[k] == 0.0 || t[k] == 1.0
    ensures digit != 0 && digit != 1 ==> forall k :: 0 <= k < |t| ==> t[k] == 0.0
  {
    seq(Pixels, k requires 0 <= k < Pixels => Cell(digit, k / Side, k % Side))
  }

  /** Row-major order: cell `(r, c)` sits at index `r * 16 + c`. */
  lemma TemplateRowMajor(digit: int, r: nat, c: nat)
    requires r < Side && c < Side
    ensures r * Side + c < Pixels
    ensures ToyTemplate(digit)[r * Side + c] == Cell(digit, r, c)
  {
    var k := r * Side + c;
    assert k / Side == r && k % Side == c;
  }

  // ---------------------------------------------------------------------
  // create_toy_template: slice assignments into a zero grid
  // ---------------------------------------------------------------------

  /** `grid.flatten()`: the rows one after the other. */
  function Flatten(grid: array2<real>): (v: Vector)
    reads grid
    requires grid.Length1 == Side
    ensures |v| == grid.Length0 * Side
    ensures forall r, c :: 0 <= r < grid.Length0 && 0 <= c < Side ==>
      r * Side + c < |v| && v[r * Side + c] == grid[r, c]
  {
    seq(grid.Length0 * Side, k requires 0 <= k < grid.Length0 * Side reads grid => grid[k / Side, k % Side])
  }

  /** `grid[lo:hi, c] = 1.0`. */
  method FillColumn(grid: array2<real>, lo: nat, hi: nat, c: nat)
    requires lo <= hi <= grid.Length0 && c < grid.Length1
    modifies grid
    ensures forall i, j :: 0 <= i < grid.Length0 && 0 <= j < grid.Length1 ==>
      grid[i, j] == (if lo <= i < hi && j == c then 1.0 else old(grid[i, j]))
  {
    var i := lo;
    while i < hi
      invariant lo <= i <= hi
      invariant forall i', j :: 0 <= i' < grid.Length0 && 0 <= j < grid.Length1 ==>
        grid[i', j] == (if lo <= i' < i && j == c then 1.0 else old(grid[i', j]))
    {
      grid[i, c] := 1.0;
      i := i + 1;
    }
  }

  /** `grid[r, lo:hi] = 1.0`. */
  method FillRow(grid: array2<real>, r: nat, lo: nat, hi: nat)
    requires r < grid.Length0 && lo <= hi <= grid.Length1
    modifies grid
    ensures forall i, j :: 0 <= i < grid.Length0 && 0 <= j < grid.Length1 ==>
      grid[i, j] == (if i == r && lo <= j < hi then 1.0 else old(grid[i, j]))
  {
    var j := lo;
    while j < hi
      invariant lo <= j <= hi
      invariant forall i, j' :: 0 <= i < grid.Length0 && 0 <= j' < grid.Length1 ==>
        grid[i, j'] == (if i == r && lo <= j' < j then 1.0 else old(grid[i, j']))
    {
      grid[r, j] := 1.0;
      j := j + 1;
    }
  }

  /** `create_toy_template(digit)`: a zero 16-by-16 grid, the left, right,
      top and bottom strokes for a 0 or the vertical stroke for a 1, then
      flattened. */
  method CreateToyTemplate(digit: int) returns (t: Vector)
    ensures t == ToyTemplate(digit)
  {
    var grid := new real[Side, Side]((_, _) => 0.0);
    if digit == 0 {
      FillColumn(grid, 4, 12, 4);
      FillColumn(grid, 4, 12, 11);
      FillRow(grid, 4, 4, 12);
      FillRow(grid, 11, 4, 12);
    } else if digit == 1 {
      FillColumn(grid, 4, 12, 8);
    }
    assert forall r, c :: 0 <= r < Side && 0 <= c < Side ==> grid[r, c] == Cell(digit, r, c);
    t := Flatten(grid);
    forall k | 0 <= k < Pixels
      ensures t[k] == ToyTemplate(digit)[k]
    {
      var r, c := k / Side, k % Side;
      assert k == r * Side + c;
    }
  }

  // ---------------------------------------------------------------------
  // How many black pixels the templates have and share
  // ---------------------------------------------------------------------

  /** How many of the first `n` cells (in row-major order) are black in both
      the template of `d1` and that of `d2`, for the three pairs the script
      compares: a 0 with itself, a 1 with itself, and a 0 with a 1. */
  function SharedBefore(d1: int, d2: int, n: nat): int
  {
    var r, c := n / Side, n % Side;
    if d1 == 0 && d2 == 0 then
      (if r <= 4 then 0 else if r <= 11 then 8 + 2 * (r - 5) else 28)
      + (if r == 4 || r == 11 then (if c <= 4 then 0 else if c <= 12 then c - 4 else 8)
         else if 5 <= r <= 10 then (if c > 4 then 1 else 0) + (if c > 11 then 1 else 0)
         else 0)
    else if d1 == 1 && d2 == 1 then
      (if r <= 4 then 0 else if r <= 12 then r - 4 else 8)
      + (if 4 <= r <= 11 && c > 8 then 1 else 0)
    else
      (if r <= 4 then 0 else if r <= 11 then 1 else 2)
      + (if (r == 4 || r == 11) && c > 8 then 1 else 0)
  }

  /** One more cell adds its product to the count. */
  lemma SharedStep(d1: int, d2: int, n: nat)
    requires (d1 == 0 && d2 == 0) || (d1 == 1 && d2 == 1) || (d1 == 0 && d2 == 1)
    ensures SharedBefore(d1, d2, n + 1) as real == SharedBefore(d1, d2, n) as real
      + Cell(d1, n / Side, n % Side) * Cell(d2, n / Side, n % Side)
  {
    var r, c := n / Side, n % Side;
    assert n == r * Side + c;
    if c < Side - 1 {
      assert (n + 1) / Side == r && (n + 1) % Side == c + 1;
    } else {
      assert (n + 1) / Side == r + 1 && (n + 1) % Side == 0;
    }
  }

  /** The running dot product of two templates grows exactly as the count
      of shared black pixels does. */
  lemma TemplatePrefixStep(d1: int, d2: int, n: nat)
    requires (d1 == 0 && d2 == 0) || (d1 == 1 && d2 == 1) || (d1 == 0 && d2 == 1)
    requires n < Pixels
    ensures var a, b := ToyTemplate(d1), ToyTemplate(d2);
      Dot(a[..n + 1], b[..n + 1]) - SharedBefore(d1, d2, n + 1) as real
        == Dot(a[..n], b[..n]) - SharedBefore(d1, d2, n) as real
  {
    DotStep(ToyTemplate(d1), ToyTemplate(d2), n);
    SharedStep(d1, d2, n);
  }

  /** Summing cell by cell, the dot product of two templates is the number of
      black pixels they share. */
  lemma TemplateDot(d1: int, d2: int)
    requires (d1 == 0 && d2 == 0) || (d1 == 1 && d2 == 1) || (d1 == 0 && d2 == 1)
    ensures Dot(ToyTemplate(d1), ToyTemplate(d2)) == SharedBefore(d1, d2, Pixels) as real
  {
    var a, b := ToyTemplate(d1), ToyTemplate(d2);
    var n := 0;
    while n < Pixels
      invariant 0 <= n <= Pixels
      invariant Dot(a[..n], b[..n]) == SharedBefore(d1, d2, n) as real
    {
      TemplatePrefixStep(d1, d2, n);
      n := n + 1;
    }
    assert a[..Pixels] == a && b[..Pixels] == b;
  }

  /** A 0 has 28 black pixels, a 1 has 8, and they share 2 (rows 4 and 11 of
      column 8). */
  lemma TemplateOverlaps()
    ensures Dot(ToyTemplate(0), ToyTemplate(0)) == 28.0
    ensures Dot(ToyTemplate(1), ToyTemplate(1)) == 8.0
    ensures Dot(ToyTemplate(0), ToyTemplate(1)) == 2.0
  {
    TemplateDot(0, 0);
    TemplateDot(1, 1);
    TemplateDot(0, 1);
  }

  // ---------------------------------------------------------------------
  // recognize and the best match
  // ---------------------------------------------------------------------

  /** `np.dot(templates, image_vector)`: one similarity score per template,
      the sum of `image[i] * template[i]`. */
  function Recognize(image: Vector, templates: Matrix): (scores: Vector)
    requires RowsOfLength(templates, |image|)
    ensures |scores| == |templates|
    ensures forall k :: 0 <= k < |templates| ==> scores[k] == Dot(image, templates[k])
  {
    assert forall k :: 0 <= k < |templates| ==> Dot(templates[k], image) == Dot(image, templates[k]) by {
      forall k | 0 <= k < |templates| {
        DotSymmetric(templates[k], image);
      }
    }
    MatVec(templates, image)
  }

  /** A noisy 1 scores `2 + template_0 · noise` against the 0 and
      `8 + template_1 · noise` against the 1. */
  lemma RecognizeNoisyOne(noise: Vector)
    requires |noise| == Pixels
    ensures var image := Add(ToyTemplate(1), noise);
      Recognize(image, [ToyTemplate(0), ToyTemplate(1)])
        == [2.0 + Dot(ToyTemplate(0), noise), 8.0 + Dot(ToyTemplate(1), noise)]
  {
    var t0, t1 := ToyTemplate(0), ToyTemplate(1);
    TemplateOverlaps();
    DotSymmetric(t0, Add(t1, noise));
    DotAddLeft(t1, noise, t0);
    DotSymmetric(noise, t0);
    DotSymmetric(t0, t1);
    DotSymmetric(t1, Add(t1, noise));
    DotAddLeft(t1, noise, t1);
    DotSymmetric(noise, t1);
  }

  /** The noisy 1 is recognised as a 1 exactly when the noise does not favour
      the 0 by 6 or more: `template_1 · noise - template_0 · noise > -6`. */
  lemma NoisyOneRecognised(noise: Vector)
    requires |noise| == Pixels
    ensures var scores := Recognize(Add(ToyTemplate(1), noise), [ToyTemplate(0), ToyTemplate(1)]);
      Argmax(scores) == 1 <==> Dot(ToyTemplate(1), noise) - Dot(ToyTemplate(0), noise) > -6.0
  {
    RecognizeNoisyOne(noise);
  }

  /** Without noise the scores are `[2, 8]` and the match is the digit 1. */
  lemma CleanOneRecognised()
    ensures var scores := Recognize(ToyTemplate(1), [ToyTemplate(0), ToyTemplate(1)]);
      scores == [2.0, 8.0] && Argmax(scores) == 1
  {
    TemplateOverlaps();
    DotSymmetric(ToyTemplate(0), ToyTemplate(1));
  }
}
