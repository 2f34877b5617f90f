/**
 * Face boxes and the admission test that decides whether a detected face
 * can be cropped out of the frame bitmap.
 */
module Crop {
  /** android.graphics.Rect: integer edges, width() = right - left, height() = bottom - top. */
  datatype Rect = Rect(left: int, top: int, right: int, bottom: int) {
    function Width(): int { right - left }
    function Height(): int { bottom - top }
  }

  /**
   * The bounds test guarding the crop in both recognition processors:
   * every edge strictly positive and the box no further right or lower
   * than the bitmap's width and height.
   */
  predicate Admissible(r: Rect, bitmapWidth: int, bitmapHeight: int) {
    r.left > 0 && r.right > 0 && r.top > 0 && r.bottom > 0
    && r.Width() + r.left <= bitmapWidth && r.Height() + r.top <= bitmapHeight
  }

  /** Pixel (x, y) lies inside box r (half-open on the right and bottom edges). */
  predicate InBox(r: Rect, x: int, y: int) {
    r.left <= x < r.right && r.top <= y < r.bottom
  }

  /**
   * An admitted box is a region of the bitmap: its edges are positive, its
   * right and bottom edges are at most the bitmap's size, and every pixel it
   * covers is a pixel of the bitmap. The converse holds too.
   */
  lemma AdmissibleMeansInside(r: Rect, w: int, h: int)
    ensures Admissible(r, w, h) <==>
      0 < r.left && 0 < r.top && 0 < r.right <= w && 0 < r.bottom <= h
    ensures Admissible(r, w, h) ==>
      forall x, y :: InBox(r, x, y) ==> 0 <= x < w && 0 <= y < h
  {
  }

  /**
   * The right and bottom edges are inclusive: a box that ends exactly at the
   * bitmap's edge is admitted, one pixel further is rejected.
   */
  lemma EdgeIsInclusive(left: int, top: int, w: int, h: int)
    requires 0 < left < w && 0 < top < h
    ensures Admissible(Rect(left, top, w, h), w, h)
    ensures !Admissible(Rect(left, top, w + 1, h), w, h)
    ensures !Admissible(Rect(left, top, w, h + 1), w, h)
  {
  }

  /**
   * A box touching the bitmap's left or top border (edge 0) is rejected,
   * although it lies inside the bitmap.
   */
  lemma ZeroEdgeRejected(r: Rect, w: int, h: int)
    requires r.left == 0 || r.top == 0
    ensures !Admissible(r, w, h)
  {
  }

  /**
   * What Bitmap.createBitmap(source, x, y, width, height) accepts: a
   * region of positive width and height that starts at a non-negative
   * pixel and ends within the source. Any other region makes it throw
   * IllegalArgumentException.
   */
  predicate CropAccepted(r: Rect, bitmapWidth: int, bitmapHeight: int) {
    r.left >= 0 && r.top >= 0 && r.Width() > 0 && r.Height() > 0
    && r.left + r.Width() <= bitmapWidth && r.top + r.Height() <= bitmapHeight
  }

  /** The exception createBitmap throws for a region it refuses. */
  datatype CropError = IllegalArgumentException

  /** What a recogniser does with a face box: skips it, throws while cropping it, or crops it. */
  datatype Handling = Ignored | Throws | Cropped

  /**
   * The bounds test first, then createBitmap on the boxes it admits. The
   * test already keeps the region inside the bitmap, so an admitted box
   * throws exactly when it is empty or inverted.
   */
  function HandlingOf(r: Rect, w: int, h: int): (k: Handling)
    ensures k == Ignored <==> !Admissible(r, w, h)
    ensures k == Cropped <==> Admissible(r, w, h) && r.Width() > 0 && r.Height() > 0
    ensures k == Throws <==> Admissible(r, w, h) && (r.Width() <= 0 || r.Height() <= 0)
  {
    if !Admissible(r, w, h) then Ignored
    else if CropAccepted(r, w, h) then Cropped
    else Throws
  }

  /**
   * The test checks the four edges, not the width or height: an empty box
   * (left == right) and an inverted one (left > right) pass it, and the
   * crop then throws.
   */
  lemma DegenerateBoxesThrow()
    ensures Admissible(Rect(5, 5, 5, 5), 10, 10) && Rect(5, 5, 5, 5).Width() == 0
    ensures HandlingOf(Rect(5, 5, 5, 5), 10, 10) == Throws
    ensures Admissible(Rect(7, 5, 3, 9), 10, 10) && Rect(7, 5, 3, 9).Width() < 0
    ensures HandlingOf(Rect(7, 5, 3, 9), 10, 10) == Throws
  {
  }
}
