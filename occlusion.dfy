/** The occlusion mask of the `ccgan` branch of `save_gan`. The mask starts
    as ones over every pixel of every input image; for image `i` a square of
    side `w` (a random width) with top-left corner `(x0, y0)` (two random
    coordinates) is set to zero in place. The random draws are inputs here,
    constrained to the ranges `np.random.randint` draws them from. The mask
    of one image is square, `size` pixels on a side, where `size` is the
    model's `img_shape[0]`; the channel axis is not modelled. */
module Occlusion {

  /** The draws of one call: `widths[i]` from `randint(lo, hi)` and
      `corners[i]` from `randint(0, size - widths[i], 2)`. */
  datatype Draws = Draws(widths: seq<nat>, corners: seq<(nat, nat)>)

  /** The occluded square of one image: rows `x0 .. x0+w-1` and columns
      `y0 .. y0+w-1`. */
  datatype Square = Square(x0: nat, y0: nat, w: nat)

  /** There is one draw per image and each corner lies in
      `[0, size - w)`, the half-open range `randint(0, size - w)` draws from. */
  predicate CornersFit(d: Draws, n: nat, size: nat)
  {
    |d.widths| == n && |d.corners| == n &&
    forall i :: 0 <= i < n ==>
      d.corners[i].0 < size - d.widths[i] && d.corners[i].1 < size - d.widths[i]
  }

  /** Every draw lies in the range numpy draws it from, widths in
      `[lo, hi)` (the model's `mask_range`). */
  predicate ValidDraws(d: Draws, n: nat, lo: int, hi: int, size: nat)
  {
    CornersFit(d, n, size) &&
    forall i :: 0 <= i < n ==> lo <= d.widths[i] < hi
  }

  function SquareOf(d: Draws, i: nat): Square
    requires i < |d.widths| && i < |d.corners|
  {
    Square(d.corners[i].0, d.corners[i].1, d.widths[i])
  }

  predicate InSquare(sq: Square, x: int, y: int)
  {
    sq.x0 <= x < sq.x0 + sq.w && sq.y0 <= y < sq.y0 + sq.w
  }

  /** The value of the finished mask at pixel `(x, y)` of an image whose
      occluded square is `sq`. */
  function MaskValue(sq: Square, x: int, y: int): int
  {
    if InSquare(sq, x, y) then 0 else 1
  }

  /** The square of every image lies inside its `size` x `size` plane and
      never reaches its last row or last column, because the corner is drawn
      below `size - w`; its side is less than `size`. */
  lemma SquareInBounds(d: Draws, n: nat, size: nat, i: nat)
    requires CornersFit(d, n, size) && i < n
    ensures SquareOf(d, i).w < size
    ensures SquareOf(d, i).x0 + SquareOf(d, i).w <= size - 1
    ensures SquareOf(d, i).y0 + SquareOf(d, i).w <= size - 1
    ensures forall x, y :: InSquare(SquareOf(d, i), x, y) ==> 0 <= x < size - 1 && 0 <= y < size - 1
  {
  }

  /** The number of zero entries among the first `cols` entries of row `x`
      of a mask plane. */
  function RowZeros(sq: Square, x: int, cols: nat): nat
    decreases cols
  {
    if cols == 0 then 0
    else RowZeros(sq, x, cols - 1) + (if MaskValue(sq, x, cols - 1) == 0 then 1 else 0)
  }

  /** The number of zero entries in the first `rows` rows of a mask plane
      that is `cols` entries wide. */
  function PlaneZeros(sq: Square, rows: nat, cols: nat): nat
    decreases rows
  {
    if rows == 0 then 0 else PlaneZeros(sq, rows - 1, cols) + RowZeros(sq, rows - 1, cols)
  }

  /** How much of the half-open range `[lo, lo + w)` lies below `bound`. */
  function Overlap(lo: nat, w: nat, bound: nat): nat
  {
    if bound <= lo then 0 else if bound - lo >= w then w else bound - lo
  }

  lemma {:induction false} RowZerosCount(sq: Square, x: int, cols: nat)
    ensures RowZeros(sq, x, cols) == if sq.x0 <= x < sq.x0 + sq.w then Overlap(sq.y0, sq.w, cols) else 0
    decreases cols
  {
    if cols > 0 {
      RowZerosCount(sq, x, cols - 1);
    }
  }

  lemma {:induction false} PlaneZerosCount(sq: Square, rows: nat, cols: nat)
    requires sq.y0 + sq.w <= cols
    ensures PlaneZeros(sq, rows, cols) == Overlap(sq.x0, sq.w, rows) * sq.w
    decreases rows
  {
    if rows > 0 {
      PlaneZerosCount(sq, rows - 1, cols);
      RowZerosCount(sq, rows - 1, cols);
      var k := Overlap(sq.x0, sq.w, rows - 1);
      if sq.x0 <= rows - 1 < sq.x0 + sq.w {
        assert Overlap(sq.x0, sq.w, rows) == k + 1;
        assert (k + 1) * sq.w == k * sq.w + sq.w;
      }
    }
  }

  /** The finished mask of each image holds exactly `w * w` zeros: the whole
      square is occluded and nothing else is. */
  lemma SquareArea(d: Draws, n: nat, size: nat, i: nat)
    requires CornersFit(d, n, size) && i < n
    ensures PlaneZeros(SquareOf(d, i), size, size) == d.widths[i] * d.widths[i]
  {
    PlaneZerosCount(SquareOf(d, i), size, size);
  }

  /** `mask[i, x0:x1, y0:y1] = 0`: zero one rectangle of one image's plane,
      leaving every other entry as it was. */
  method ZeroRect(mask: array3<int>, i: nat, x0: nat, x1: nat, y0: nat, y1: nat)
    requires i < mask.Length0 && x0 <= x1 <= mask.Length1 && y0 <= y1 <= mask.Length2
    modifies mask
    ensures forall j, x, y :: 0 <= j < mask.Length0 && 0 <= x < mask.Length1 && 0 <= y < mask.Length2 ==>
      mask[j, x, y] == if j == i && x0 <= x < x1 && y0 <= y < y1 then 0 else old(mask[j, x, y])
  {
    var x := x0;
    while x < x1
      invariant x0 <= x <= x1
      invariant forall j, u, v :: 0 <= j < mask.Length0 && 0 <= u < mask.Length1 && 0 <= v < mask.Length2 ==>
        mask[j, u, v] == if j == i && x0 <= u < x && y0 <= v < y1 then 0 else old(mask[j, u, v])
    {
      var y := y0;
      while y < y1
        invariant y0 <= y <= y1
        invariant forall j, u, v :: 0 <= j < mask.Length0 && 0 <= u < mask.Length1 && 0 <= v < mask.Length2 ==>
          mask[j, u, v] == if j == i && (x0 <= u < x || u == x) && y0 <= v < (if u == x then y else y1) then 0 else old(mask[j, u, v])
      {
        mask[i, x, y] := 0;
        y := y + 1;
      }
      x := x + 1;
    }
  }

  /** The loop of the `ccgan` branch: a mask of ones over `n` planes of
      `size` x `size`, in which exactly the square of each image is zero. */
  method BuildMask(n: nat, size: nat, d: Draws) returns (mask: array3<int>)
    requires CornersFit(d, n, size)
    ensures fresh(mask)
    ensures mask.Length0 == n && mask.Length1 == size && mask.Length2 == size
    ensures forall i, x, y :: 0 <= i < n && 0 <= x < size && 0 <= y < size ==>
      mask[i, x, y] == MaskValue(SquareOf(d, i), x, y)
  {
    mask := new int[n, size, size]((i, x, y) => 1);
    for i := 0 to n
      invariant forall j, x, y :: 0 <= j < n && 0 <= x < size && 0 <= y < size ==>
        mask[j, x, y] == if j < i then MaskValue(SquareOf(d, j), x, y) else 1
    {
      var w := d.widths[i];
      var x0, x1 := d.corners[i].0, w + d.corners[i].0;
      var y0, y1 := d.corners[i].1, w + d.corners[i].1;
      ZeroRect(mask, i, x0, x1, y0, y1);
    }
  }
}
