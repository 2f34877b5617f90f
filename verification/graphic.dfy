/**
 * The overlay drawing of face_detection/FaceContourGraphic.kt: each face's
 * graphic owns a transform from camera-frame coordinates to overlay
 * coordinates; the first graphic drawn while the shared overlay's
 * `areDimsInit` flag is false installs the scale-and-mirror transform and
 * draws nothing, every later draw maps its box through its own transform.
 *
 * Android's Matrix is modelled for the transforms that arise here: axis
 * aligned scales and translations, x' = scaleX * x + transX and
 * y' = scaleY * y + transY.
 */
module Graphic {
  import opened Wrappers
  import opened Crop

  /** A float rectangle (android.graphics.RectF), with reals for floats. */
  datatype RectF = RectF(left: real, top: real, right: real, bottom: real)

  /** Rect.toRectF. */
  function ToRectF(r: Rect): RectF {
    RectF(r.left as real, r.top as real, r.right as real, r.bottom as real)
  }

  datatype Matrix = Matrix(scaleX: real, transX: real, scaleY: real, transY: real)

  /** A freshly constructed Matrix. */
  const Identity: Matrix := Matrix(1.0, 0.0, 1.0, 0.0)

  function MapX(m: Matrix, x: real): real { m.scaleX * x + m.transX }
  function MapY(m: Matrix, y: real): real { m.scaleY * y + m.transY }

  /** Matrix.preScale(sx, sy): the scale is applied to a point before m. */
  function PreScale(m: Matrix, sx: real, sy: real): (r: Matrix)
    ensures forall x :: MapX(r, x) == MapX(m, sx * x)
    ensures forall y :: MapY(r, y) == MapY(m, sy * y)
  {
    Matrix(m.scaleX * sx, m.transX, m.scaleY * sy, m.transY)
  }

  /** Matrix.postScale(sx, sy, px, py): after m, scale about the pivot (px, py). */
  function PostScale(m: Matrix, sx: real, sy: real, px: real, py: real): (r: Matrix)
    ensures forall x :: MapX(r, x) == sx * (MapX(m, x) - px) + px
    ensures forall y :: MapY(r, y) == sy * (MapY(m, y) - py) + py
  {
    Matrix(sx * m.scaleX, sx * (m.transX - px) + px, sy * m.scaleY, sy * (m.transY - py) + py)
  }

  function Min(a: real, b: real): real { if a <= b then a else b }
  function Max(a: real, b: real): real { if a <= b then b else a }

  /** Matrix.mapRect: the bounding box of the four mapped corners. */
  function MapRect(m: Matrix, r: RectF): (q: RectF)
    ensures q.left <= q.right && q.top <= q.bottom
    ensures {q.left, q.right} == {MapX(m, r.left), MapX(m, r.right)}
    ensures {q.top, q.bottom} == {MapY(m, r.top), MapY(m, r.bottom)}
  {
    RectF(Min(MapX(m, r.left), MapX(m, r.right)), Min(MapY(m, r.top), MapY(m, r.bottom)),
          Max(MapX(m, r.left), MapX(m, r.right)), Max(MapY(m, r.top), MapY(m, r.bottom)))
  }

  /** The transform the first draw installs on a fresh graphic: scale to the view, then mirror. */
  function Bootstrap(viewWidth: real, viewHeight: real, frameWidth: real, frameHeight: real): Matrix
    requires frameWidth != 0.0 && frameHeight != 0.0
  {
    var xFactor := viewWidth / frameWidth;
    var yFactor := viewHeight / frameHeight;
    PostScale(PreScale(Identity, xFactor, yFactor), -1.0, 1.0, viewWidth / 2.0, viewHeight / 2.0)
  }

  /**
   * The bootstrap transform mirrors horizontally about the view's midline
   * after scaling: x' = viewWidth - xFactor * x and y' = yFactor * y. A
   * point at the frame's left edge lands on the view's right edge.
   */
  lemma BootstrapMirrors(viewWidth: real, viewHeight: real, frameWidth: real, frameHeight: real, x: real, y: real)
    requires frameWidth != 0.0 && frameHeight != 0.0
    ensures MapX(Bootstrap(viewWidth, viewHeight, frameWidth, frameHeight), x) == viewWidth - (viewWidth / frameWidth) * x
    ensures MapY(Bootstrap(viewWidth, viewHeight, frameWidth, frameHeight), y) == (viewHeight / frameHeight) * y
    ensures MapX(Bootstrap(viewWidth, viewHeight, frameWidth, frameHeight), 0.0) == viewWidth
    ensures MapX(Bootstrap(viewWidth, viewHeight, frameWidth, frameHeight), frameWidth) == 0.0
  {
  }

  /** The identity transform leaves a box whose edges are in order unchanged. */
  lemma IdentityKeepsBox(r: RectF)
    requires r.left <= r.right && r.top <= r.bottom
    ensures MapRect(Identity, r) == r
  {
  }

  /** android.graphics.Canvas: only its size matters here. */
  datatype Canvas = Canvas(width: nat, height: nat)

  /** What one call of draw does on the canvas. */
  datatype Drawn =
    | Bootstrapped
      // the transform was installed; nothing was drawn
    | Box(box: RectF, title: string, textX: real, textY: real)
      // the mapped box was drawn, and the title at (textX, textY)
    | NothingDrawn
      // after initialisation a null canvas is skipped by the safe calls
    | NullCanvas
      // during initialisation `canvas!!` throws on a null canvas

  /**
   * The parts of GraphicOverlay the core uses: the shared `areDimsInit`
   * flag, the list of graphics, and how often a redraw was requested.
   */
  class GraphicOverlay {
    var areDimsInit: bool
    var graphics: seq<FaceContourGraphic>
    var invalidations: nat

    constructor()
      ensures !areDimsInit && graphics == [] && invalidations == 0
    {
      areDimsInit := false;
      graphics := [];
      invalidations := 0;
    }

    method Clear()
      modifies this`graphics
      ensures graphics == []
    {
      graphics := [];
    }

    method Add(g: FaceContourGraphic)
      modifies this`graphics
      ensures graphics == old(graphics) + [g]
    {
      graphics := graphics + [g];
    }

    method PostInvalidate()
      modifies this`invalidations
      ensures invalidations == old(invalidations) + 1
    {
      invalidations := invalidations + 1;
    }
  }

  class FaceContourGraphic {
    const overlay: GraphicOverlay
    const face: Rect
    var output2OverlayTransform: Matrix
    var frameHeight: int
    var frameWidth: int
    var recognizedTitle: string

    /** A new graphic owns an identity transform; frame dimensions start at 0. */
    constructor(overlay: GraphicOverlay, face: Rect)
      ensures this.overlay == overlay && this.face == face
      ensures output2OverlayTransform == Identity
      ensures frameHeight == 0 && frameWidth == 0 && recognizedTitle == ""
    {
      this.overlay := overlay;
      this.face := face;
      output2OverlayTransform := Identity;
      frameHeight := 0;
      frameWidth := 0;
      recognizedTitle := "";
    }

    /**
     * draw: while the overlay's dimensions are not initialised, compute the
     * scale factors from the canvas and frame sizes, scale and mirror this
     * graphic's transform, mark the dimensions initialised and draw nothing.
     * Afterwards, draw the face box mapped through this graphic's transform
     * and the title at the mapped top-left corner.
     */
    method Draw(canvas: Option<Canvas>) returns (drawn: Drawn)
      requires !overlay.areDimsInit && canvas.Some? ==> frameWidth != 0 && frameHeight != 0
      modifies this`output2OverlayTransform, overlay`areDimsInit
      ensures old(overlay.areDimsInit) ==> overlay.areDimsInit
      ensures !old(overlay.areDimsInit) && canvas.Some? ==>
        var vw := canvas.value.width as real;
        var vh := canvas.value.height as real;
        var xFactor := vw / frameWidth as real;
        var yFactor := vh / frameHeight as real;
        && drawn == Bootstrapped
        && overlay.areDimsInit
        && output2OverlayTransform ==
             PostScale(PreScale(old(output2OverlayTransform), xFactor, yFactor), -1.0, 1.0, vw / 2.0, vh / 2.0)
        && (old(output2OverlayTransform) == Identity ==>
              output2OverlayTransform == Bootstrap(vw, vh, frameWidth as real, frameHeight as real))
      ensures !old(overlay.areDimsInit) && canvas.None? ==>
        drawn == NullCanvas && !overlay.areDimsInit && output2OverlayTransform == old(output2OverlayTransform)
      ensures old(overlay.areDimsInit) ==>
        && output2OverlayTransform == old(output2OverlayTransform)
        && var box := MapRect(output2OverlayTransform, ToRectF(face));
           drawn == if canvas.Some? then Box(box, recognizedTitle, box.left, box.top) else NothingDrawn
    {
      if !overlay.areDimsInit {
        if canvas.None? {
          return NullCanvas;
        }
        var viewWidth := canvas.value.width as real;
        var viewHeight := canvas.value.height as real;
        var xFactor := viewWidth / frameWidth as real;
        var yFactor := viewHeight / frameHeight as real;
        output2OverlayTransform := PreScale(output2OverlayTransform, xFactor, yFactor);
        output2OverlayTransform := PostScale(output2OverlayTransform, -1.0, 1.0, viewWidth / 2.0, viewHeight / 2.0);
        overlay.areDimsInit := true;
        drawn := Bootstrapped;
      } else {
        var bBox := MapRect(output2OverlayTransform, ToRectF(face));
        if canvas.Some? {
          drawn := Box(bBox, recognizedTitle, bBox.left, bBox.top);
        } else {
          drawn := NothingDrawn;
        }
      }
    }
  }
}
