/**
 * The small pure helpers of the root CameraXManager.kt: bucketing the
 * device orientation into a target Surface rotation, recording the
 * front-lens flip flags, choosing between the 4:3 and 16:9 aspect ratios,
 * and the crop check of its inner image analyzer.
 */
module CameraX {
  import opened Crop

  /** android.view.Surface rotation constants. */
  const Rotation0: int := 0
  const Rotation90: int := 1
  const Rotation180: int := 2
  const Rotation270: int := 3

  /** CameraSelector lens-facing constants. */
  const LensFacingFront: int := 0
  const LensFacingBack: int := 1

  /** androidx.camera.core.AspectRatio constants. */
  const Ratio4To3: int := 0
  const Ratio16To9: int := 1

  /** The `when` of onOrientationChanged. */
  function RotationFor(orientation: int): int {
    if 45 <= orientation <= 134 then Rotation270
    else if 135 <= orientation <= 224 then Rotation180
    else if 225 <= orientation <= 314 then Rotation90
    else Rotation0
  }

  /** Degrees of a Surface rotation constant. */
  function Degrees(rotation: int): int {
    90 * rotation
  }

  /**
   * For a real orientation reading (0..359 degrees clockwise), the chosen
   * rotation is the one quarter turn that brings orientation + rotation
   * within 45 degrees of upright; anything else, such as the unknown
   * orientation -1, maps to ROTATION_0.
   */
  lemma RotationCompensates(orientation: int, rotation: int)
    requires 0 <= orientation < 360 && Rotation0 <= rotation <= Rotation270
    ensures RotationFor(orientation) == rotation <==> (orientation + Degrees(rotation) + 45) % 360 < 90
  {
  }

  lemma OutOfRangeIsUpright(orientation: int)
    requires orientation < 45 || orientation > 314
    ensures RotationFor(orientation) == Rotation0
  {
  }

  function Abs(x: real): real { if x < 0.0 then -x else x }

  /**
   * aspectRatio: the ratio of the larger to the smaller dimension, compared
   * with 4/3 and 16/9 in doubles.
   *
   * For two Ints the ratio is either exactly 14/9, the midpoint of 4/3 and
   * 16/9, or at least 1/(9 * 2^31) away from it, far more than the doubles'
   * rounding error. So away from the midpoint the double comparison `<=`
   * agrees with the exact one. At the midpoint the rounded distance to 16/9
   * (0.2222222222222221) is smaller than the one to 4/3
   * (0.22222222222222232), so the program picks 16:9. The exact strict `<`
   * below gives the same choice in both cases.
   *
   * Division by a zero dimension is written out as the doubles behave: a
   * positive number over 0 is +Inf, whose two distances are both +Inf, so
   * `<=` holds and 4:3 is chosen; 0 over 0 is NaN, whose comparison is
   * false, so 16:9 is chosen.
   */
  function AspectRatio(width: int, height: int): int {
    var hi := if width >= height then width else height;
    var lo := if width >= height then height else width;
    if lo == 0 then
      (if hi == 0 then Ratio16To9 else Ratio4To3)
    else
      var previewRatio := hi as real / lo as real;
      if Abs(previewRatio - 4.0 / 3.0) < Abs(previewRatio - 16.0 / 9.0) then Ratio4To3 else Ratio16To9
  }

  /** The choice depends only on the pair of dimensions, not on their order. */
  lemma AspectRatioSymmetric(width: int, height: int)
    ensures AspectRatio(width, height) == AspectRatio(height, width)
  {
  }

  /**
   * For positive dimensions 4:3 is chosen exactly when the long side is
   * less than 14/9 of the short side. A 14:9 frame, such as 1400x900, gets
   * 16:9.
   */
  lemma AspectRatioThreshold(width: int, height: int)
    requires width > 0 && height > 0
    ensures var hi := if width >= height then width else height;
            var lo := if width >= height then height else width;
            AspectRatio(width, height) == Ratio4To3 <==> 9 * hi < 14 * lo
  {
    var hi := if width >= height then width else height;
    var lo := if width >= height then height else width;
    DivLtIff(hi as real, lo as real, 14.0 / 9.0);
  }

  lemma MulStrict(x: real, y: real, b: real)
    requires b > 0.0 && x < y
    ensures x * b < y * b
  {
    var d := y - x;
    assert d * b > 0.0;
    assert y * b == x * b + d * b;
  }

  lemma DivLtIff(a: real, b: real, c: real)
    requires b > 0.0
    ensures a / b < c <==> a < c * b
  {
    var q := a / b;
    assert q * b == a;
    if q < c {
      MulStrict(q, c, b);
    } else if c < q {
      MulStrict(c, q, b);
    }
  }

  class CameraXManager {
    var lensFacing: int
    var needToFlipForFrontCamera: bool
    var imageInFrontCameraVertical: bool
    /** imageCapture.targetRotation. */
    var captureRotation: int
    /** imageAnalyzer.targetRotation. */
    var analyzerRotation: int

    /**
     * The state once bindCameraUseCases has created the use cases (at the
     * display's rotation) and the orientation listener: front lens, flags off.
     */
    constructor(displayRotation: int)
      ensures lensFacing == LensFacingFront
      ensures !needToFlipForFrontCamera && !imageInFrontCameraVertical
      ensures captureRotation == displayRotation && analyzerRotation == displayRotation
    {
      lensFacing := LensFacingFront;
      needToFlipForFrontCamera := false;
      imageInFrontCameraVertical := false;
      captureRotation := displayRotation;
      analyzerRotation := displayRotation;
    }

    /**
     * onOrientationChanged: both use cases get the bucketed rotation. With
     * the front lens the flip flag is set, and the vertical flag becomes true
     * for orientation 0, false for orientation 1, and is otherwise kept.
     */
    method OnOrientationChanged(orientation: int)
      modifies this`needToFlipForFrontCamera, this`imageInFrontCameraVertical
      modifies this`captureRotation, this`analyzerRotation
      ensures captureRotation == RotationFor(orientation) && analyzerRotation == RotationFor(orientation)
      ensures needToFlipForFrontCamera == (old(needToFlipForFrontCamera) || lensFacing == LensFacingFront)
      ensures imageInFrontCameraVertical ==
        if lensFacing == LensFacingFront && orientation == 0 then true
        else if lensFacing == LensFacingFront && orientation == 1 then false
        else old(imageInFrontCameraVertical)
    {
      var rotation := RotationFor(orientation);
      if lensFacing == LensFacingFront {
        needToFlipForFrontCamera := true;
        if orientation == 0 {
          imageInFrontCameraVertical := true;
        } else if orientation == 1 {
          imageInFrontCameraVertical := false;
        }
      }
      captureRotation := rotation;
      analyzerRotation := rotation;
    }
  }

  /** The inner image analyzer's crop check: only the box's size is compared with the bitmap's. */
  predicate CropSizeFits(r: Rect, bitmapWidth: int, bitmapHeight: int) {
    r.Width() <= bitmapWidth && r.Height() <= bitmapHeight
  }

  /** Every box the recogniser's bounds check admits also passes the size check. */
  lemma AdmissibleFitsSize(r: Rect, w: int, h: int)
    requires Admissible(r, w, h)
    ensures CropSizeFits(r, w, h)
  {
  }

  /**
   * The size check ignores position: a 5x5 box at (5, 5) in an 8x8 bitmap
   * passes it although it reaches past the bitmap's right and bottom edges,
   * where Bitmap.createBitmap rejects the crop.
   */
  lemma SizeCheckIgnoresPosition()
    ensures CropSizeFits(Rect(5, 5, 10, 10), 8, 8)
    ensures !Admissible(Rect(5, 5, 10, 10), 8, 8)
    ensures exists x, y :: InBox(Rect(5, 5, 10, 10), x, y) && !(0 <= x < 8 && 0 <= y < 8)
    ensures !CropAccepted(Rect(5, 5, 10, 10), 8, 8)
  {
    assert InBox(Rect(5, 5, 10, 10), 9, 9);
  }
}
