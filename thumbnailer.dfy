/**
 * The crop step of the square thumbnailer (thumbnailer.py): the largest centred
 * square of the image, as a PIL crop box `(left, upper, right, lower)`.
 */
module Thumbnailer {

  /** A PIL box: columns `left..right` and rows `upper..lower`, right and lower exclusive. */
  datatype Box = Box(left: int, upper: int, right: int, lower: int)

  function Min(a: int, b: int): int {
    if a < b then a else b
  }

  /**
   * The box `_resize_image_square` crops to: a landscape image loses its
   * side columns, any other image its top and bottom rows, half of the surplus
   * (rounded down) on the first side.
   */
  function CropBox(width: nat, height: nat): (b: Box)
    ensures b.right - b.left == Min(width, height) && b.lower - b.upper == Min(width, height)
    ensures 0 <= b.left <= b.right <= width && 0 <= b.upper <= b.lower <= height
    ensures width > height ==> b.upper == 0 && b.lower == height && b.left == (width - height) / 2
    ensures width <= height ==> b.left == 0 && b.right == width && b.upper == (height - width) / 2
  {
    if width > height then
      var delta := width - height;
      var left := delta / 2;
      Box(left, 0, height + left, height)
    else
      var delta := height - width;
      var upper := delta / 2;
      Box(0, upper, width, width + upper)
  }

  /** The square is centred: the margin after it equals the one before, or exceeds it by one pixel. */
  lemma CropBoxCentred(width: nat, height: nat)
    ensures var b := CropBox(width, height);
            b.left <= width - b.right <= b.left + 1 &&
            b.upper <= height - b.lower <= b.upper + 1
  {
  }

  /** A square image is kept whole. */
  lemma SquareImageUncropped(side: nat)
    ensures CropBox(side, side) == Box(0, 0, side, side)
  {
  }
}
