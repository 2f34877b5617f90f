/**
 * face_detection/FaceContourDetectionProcessor.kt: what happens once the
 * face detector succeeds on an admitted frame. The overlay is cleared, one
 * graphic per detected face is created and added in the detector's order,
 * each face is handed to the recogniser, the overlay is invalidated, and
 * the analyzer's `isProcessing` flag is cleared so the next frame can be
 * admitted. A crop that throws inside the recogniser ends all of this at
 * that face. The subclass's onFailure only logs.
 */
module ContourDetection {
  import opened Wrappers
  import opened Crop
  import opened Normalizer
  import opened Gallery
  import opened Graphic
  import opened Analyzer
  import opened FaceRecognition

  /** Index of the first box the recogniser handles in the given way. */
  function FirstHandled(faces: seq<Rect>, w: int, h: int, how: Handling): (r: Option<nat>)
    ensures r.Some? ==>
      && r.value < |faces|
      && HandlingOf(faces[r.value], w, h) == how
      && forall j :: 0 <= j < r.value ==> HandlingOf(faces[j], w, h) != how
    ensures r.None? ==> forall j :: 0 <= j < |faces| ==> HandlingOf(faces[j], w, h) != how
  {
    if faces == [] then None
    else if HandlingOf(faces[0], w, h) == how then Some(0)
    else match FirstHandled(faces[1..], w, h, how)
      case None => None
      case Some(k) => Some(k + 1)
  }

  /** Looking at one more face changes the answer only if none before it was handled that way. */
  lemma FirstHandledExtend(faces: seq<Rect>, i: nat, w: int, h: int, how: Handling)
    requires i < |faces|
    ensures FirstHandled(faces[..i + 1], w, h, how) ==
      if FirstHandled(faces[..i], w, h, how).Some? then FirstHandled(faces[..i], w, h, how)
      else if HandlingOf(faces[i], w, h) == how then Some(i) else None
  {
    var pre := FirstHandled(faces[..i], w, h, how);
    var ext := FirstHandled(faces[..i + 1], w, h, how);
    assert faces[..i + 1][i] == faces[i];
    assert forall j :: 0 <= j < i ==> faces[..i + 1][j] == faces[j] == faces[..i][j];
    if pre.Some? {
      assert ext.Some? && ext.value <= pre.value;
    } else if ext.Some? {
      assert ext.value == i;
    }
  }

  /** Past a prefix with no throwing crop, the next face throws or extends it. */
  lemma ThrowsStep(faces: seq<Rect>, i: nat, w: int, h: int, thrown: bool)
    requires i < |faces| && FirstHandled(faces[..i], w, h, Throws) == None
    requires thrown <==> HandlingOf(faces[i], w, h) == Throws
    ensures FirstHandled(faces[..i + 1], w, h, Throws) == if thrown then Some(i) else None
  {
    FirstHandledExtend(faces, i, w, h, Throws);
  }

  /** What a prefix finds first is also what the whole sequence finds first. */
  lemma FirstHandledPrefix(faces: seq<Rect>, n: nat, w: int, h: int, how: Handling)
    requires n <= |faces| && FirstHandled(faces[..n], w, h, how).Some?
    ensures FirstHandled(faces, w, h, how) == FirstHandled(faces[..n], w, h, how)
  {
    var j := FirstHandled(faces[..n], w, h, how).value;
    assert faces[..n][j] == faces[j];
  }

  /**
   * How many faces the forEach of onSuccess reaches: all of them, or those
   * up to and including the first whose crop throws.
   */
  function Reached(faces: seq<Rect>, w: int, h: int): (n: nat)
    ensures n <= |faces|
    ensures forall j :: 0 <= j < n - 1 ==> HandlingOf(faces[j], w, h) != Throws
    ensures n < |faces| ==> 0 < n && HandlingOf(faces[n - 1], w, h) == Throws
  {
    match FirstHandled(faces, w, h, Throws)
    case Some(c) => c + 1
    case None => |faces|
  }

  /**
   * The pending add request after recognising `faces` in order, starting
   * from `pending0` with open dialogs `dialogs0`: it survives only if no
   * face was cropped, and the first cropped face's recognition (and only
   * that one) opened a dialog if a request was pending.
   */
  ghost predicate Consumed(faces: seq<Rect>, w: int, h: int, pending0: bool, dialogs0: seq<Recognition>,
                           recognitions: seq<Option<Recognition>>, pending: bool, dialogs: seq<Recognition>)
    requires |recognitions| == |faces|
  {
    var first := FirstHandled(faces, w, h, Cropped);
    && pending == (pending0 && first.None?)
    && dialogs == dialogs0 + if pending0 && first.Some? then recognitions[first.value].ToSeq() else []
  }

  /** Recognising one more face, as recognize does, keeps Consumed. */
  lemma ConsumedStep(faces: seq<Rect>, i: nat, w: int, h: int, pending0: bool, dialogs0: seq<Recognition>,
                     recognitions: seq<Option<Recognition>>, pending: bool, dialogs: seq<Recognition>,
                     rec: Option<Recognition>, pending': bool, dialogs': seq<Recognition>)
    requires i < |faces| && |recognitions| == i
    requires Consumed(faces[..i], w, h, pending0, dialogs0, recognitions, pending, dialogs)
    requires HandlingOf(faces[i], w, h) != Cropped ==> rec == None && pending' == pending && dialogs' == dialogs
    requires HandlingOf(faces[i], w, h) == Cropped ==>
      rec.Some? && !pending' && dialogs' == dialogs + if pending then [rec.value] else []
    ensures Consumed(faces[..i + 1], w, h, pending0, dialogs0, recognitions + [rec], pending', dialogs')
  {
    FirstHandledExtend(faces, i, w, h, Cropped);
    var first := FirstHandled(faces[..i], w, h, Cropped);
    if first.Some? {
      assert (recognitions + [rec])[first.value] == recognitions[first.value];
    }
  }

  class FaceContourDetectionProcessor {
    const overlay: GraphicOverlay
    const analyzer: BaseImageAnalyzer
    const faceRecognitionProcessor: FaceRecognitionProcessor

    constructor(overlay: GraphicOverlay, analyzer: BaseImageAnalyzer, recognizer: FaceRecognitionProcessor)
      requires analyzer.graphicOverlay == overlay
      ensures this.overlay == overlay && this.analyzer == analyzer && faceRecognitionProcessor == recognizer
    {
      this.overlay := overlay;
      this.analyzer := analyzer;
      faceRecognitionProcessor := recognizer;
    }

    /** Graphic g was made for this face of a frame of the given bitmap and not touched since. */
    ghost predicate GraphicFor(g: FaceContourGraphic, face: Rect, bitmap: Bitmap, dimsInit: bool)
      reads g
    {
      && g.overlay == overlay && g.face == face
      && g.output2OverlayTransform == Identity && g.recognizedTitle == ""
      && g.frameWidth == (if dimsInit then 0 else bitmap.width)
      && g.frameHeight == (if dimsInit then 0 else bitmap.height)
    }

    /** One iteration's graphic: created, given the frame size while the overlay's dimensions are uninitialised, added. */
    method AddGraphic(face: Rect, bitmap: Bitmap) returns (faceGraphic: FaceContourGraphic)
      modifies overlay`graphics
      ensures fresh(faceGraphic) && GraphicFor(faceGraphic, face, bitmap, overlay.areDimsInit)
      ensures overlay.graphics == old(overlay.graphics) + [faceGraphic]
    {
      faceGraphic := new FaceContourGraphic(overlay, face);
      if !overlay.areDimsInit {
        faceGraphic.frameHeight := bitmap.height;
        faceGraphic.frameWidth := bitmap.width;
      }
      overlay.Add(faceGraphic);
    }

    /**
     * One pass of the forEach body: the face's graphic is added, then the
     * face is recognised. A crop that throws leaves the graphic added.
     */
    method HandleFace(face: Rect, bitmap: Bitmap, scaled: Bitmap)
      returns (faceGraphic: FaceContourGraphic, result: Result<Option<Recognition>, CropError>)
      requires faceRecognitionProcessor.Valid() && IsScaledTo(scaled, TfFrApiInputSize)
      modifies overlay`graphics
      modifies faceRecognitionProcessor`addAFacePendingToRecognize, faceRecognitionProcessor`dialogs
      modifies faceRecognitionProcessor`inputFeature
      ensures fresh(faceGraphic) && GraphicFor(faceGraphic, face, bitmap, overlay.areDimsInit)
      ensures overlay.graphics == old(overlay.graphics) + [faceGraphic]
      ensures faceRecognitionProcessor.Valid()
      ensures faceRecognitionProcessor.registered == old(faceRecognitionProcessor.registered)
      ensures result.Failure? <==> HandlingOf(face, bitmap.width, bitmap.height) == Throws
      ensures result.Success? ==> result.value == Outcome(faceRecognitionProcessor.registered, face, bitmap, scaled)
      ensures HandlingOf(face, bitmap.width, bitmap.height) != Cropped ==>
        && faceRecognitionProcessor.addAFacePendingToRecognize == old(faceRecognitionProcessor.addAFacePendingToRecognize)
        && faceRecognitionProcessor.dialogs == old(faceRecognitionProcessor.dialogs)
      ensures HandlingOf(face, bitmap.width, bitmap.height) == Cropped ==>
        && result.Success? && result.value.Some?
        && !faceRecognitionProcessor.addAFacePendingToRecognize
        && faceRecognitionProcessor.dialogs == old(faceRecognitionProcessor.dialogs) +
             if old(faceRecognitionProcessor.addAFacePendingToRecognize) then [result.value.value] else []
    {
      faceGraphic := AddGraphic(face, bitmap);
      result := faceRecognitionProcessor.Recognize(face, bitmap, scaled);
    }

    /** What recognize yields for one face of the frame, given the bitmap scaled from its crop; None if it yields nothing. */
    ghost function Outcome(registered: seq<Entry>, face: Rect, bitmap: Bitmap, scaled: Bitmap): Option<Recognition>
      requires Comparable(registered, faceRecognitionProcessor.EmbeddingOf(scaled))
    {
      if HandlingOf(face, bitmap.width, bitmap.height) == Cropped then
        Some(Recognized(registered, Initial(faceRecognitionProcessor.EmbeddingOf(scaled))))
      else None
    }

    /**
     * The state after the forEach body has run on the faces before
     * |graphics|: their graphics were added in order, their recognitions are
     * what recognize yields, the pending request went to the first cropped
     * face, and `thrown` tells whether the last of them threw (no earlier
     * one did).
     */
    ghost predicate Scanned(results: seq<Rect>, bitmap: Bitmap, scaledFor: Rect -> Bitmap, registered: seq<Entry>,
                            pending0: bool, dialogs0: seq<Recognition>,
                            graphics: seq<FaceContourGraphic>, recognitions: seq<Option<Recognition>>, thrown: bool)
      reads overlay, faceRecognitionProcessor, graphics
    {
      && |graphics| <= |results| && |recognitions| == |graphics|
      && faceRecognitionProcessor.Valid() && faceRecognitionProcessor.registered == registered
      && overlay.graphics == graphics
      && (forall k :: 0 <= k < |graphics| ==> GraphicFor(graphics[k], results[k], bitmap, overlay.areDimsInit))
      && (forall k :: 0 <= k < |recognitions| ==>
            recognitions[k] == Outcome(registered, results[k], bitmap, scaledFor(results[k])))
      && FirstHandled(results[..|graphics|], bitmap.width, bitmap.height, Throws) ==
           (if thrown then Some(|graphics| - 1) else None)
      && Consumed(results[..|graphics|], bitmap.width, bitmap.height, pending0, dialogs0, recognitions,
                  faceRecognitionProcessor.addAFacePendingToRecognize, faceRecognitionProcessor.dialogs)
    }

    /** One pass of the forEach body keeps Scanned. */
    method ScanFace(results: seq<Rect>, bitmap: Bitmap, scaledFor: Rect -> Bitmap, ghost registered: seq<Entry>,
                    ghost pending0: bool, ghost dialogs0: seq<Recognition>,
                    graphics: seq<FaceContourGraphic>, recognitions: seq<Option<Recognition>>)
      returns (graphics': seq<FaceContourGraphic>, recognitions': seq<Option<Recognition>>, thrown: bool)
      requires |graphics| < |results| && IsScaledTo(scaledFor(results[|graphics|]), TfFrApiInputSize)
      requires Scanned(results, bitmap, scaledFor, registered, pending0, dialogs0, graphics, recognitions, false)
      modifies overlay`graphics
      modifies faceRecognitionProcessor`addAFacePendingToRecognize, faceRecognitionProcessor`dialogs
      modifies faceRecognitionProcessor`inputFeature
      ensures Scanned(results, bitmap, scaledFor, registered, pending0, dialogs0, graphics', recognitions', thrown)
      ensures |graphics'| == |graphics| + 1 && fresh(graphics'[|graphics|])
      ensures forall k :: 0 <= k < |graphics| ==> graphics'[k] == graphics[k]
    {
      var i := |graphics|;
      var face := results[i];
      ghost var pending := faceRecognitionProcessor.addAFacePendingToRecognize;
      ghost var dialogs := faceRecognitionProcessor.dialogs;
      var faceGraphic, result := HandleFace(face, bitmap, scaledFor(face));
      graphics' := graphics + [faceGraphic];
      var recognition := if result.Success? then result.value else None;
      thrown := result.Failure?;
      ThrowsStep(results, i, bitmap.width, bitmap.height, thrown);
      ConsumedStep(results, i, bitmap.width, bitmap.height, pending0, dialogs0, recognitions,
                   pending, dialogs, recognition,
                   faceRecognitionProcessor.addAFacePendingToRecognize, faceRecognitionProcessor.dialogs);
      recognitions' := recognitions + [recognition];
    }

    /**
     * The forEach loop of onSuccess, on an overlay already cleared. An
     * exception from a crop ends the loop at that face.
     */
    method RecognizeFaces(results: seq<Rect>, bitmap: Bitmap, scaledFor: Rect -> Bitmap)
      returns (graphics: seq<FaceContourGraphic>, recognitions: seq<Option<Recognition>>, thrown: bool)
      requires faceRecognitionProcessor.Valid()
      requires forall r :: IsScaledTo(scaledFor(r), TfFrApiInputSize)
      requires overlay.graphics == []
      modifies overlay`graphics
      modifies faceRecognitionProcessor`addAFacePendingToRecognize, faceRecognitionProcessor`dialogs
      modifies faceRecognitionProcessor`inputFeature
      ensures faceRecognitionProcessor.Valid()
      ensures faceRecognitionProcessor.registered == old(faceRecognitionProcessor.registered)
      ensures thrown == FirstHandled(results, bitmap.width, bitmap.height, Throws).Some?
      ensures overlay.graphics == graphics && |graphics| == Reached(results, bitmap.width, bitmap.height)
      ensures forall k :: 0 <= k < |graphics| ==> fresh(graphics[k]) && GraphicFor(graphics[k], results[k], bitmap, overlay.areDimsInit)
      ensures |recognitions| == |graphics|
      ensures forall k :: 0 <= k < |graphics| ==> recognitions[k] == Outcome(old(faceRecognitionProcessor.registered), results[k], bitmap, scaledFor(results[k]))
      ensures var first := FirstHandled(results[..|graphics|], bitmap.width, bitmap.height, Cropped);
        && faceRecognitionProcessor.addAFacePendingToRecognize ==
             (old(faceRecognitionProcessor.addAFacePendingToRecognize) && first.None?)
        && faceRecognitionProcessor.dialogs == old(faceRecognitionProcessor.dialogs) +
             if old(faceRecognitionProcessor.addAFacePendingToRecognize) && first.Some?
             then recognitions[first.value].ToSeq() else []
    {
      graphics := [];
      recognitions := [];
      thrown := false;
      ghost var registered := faceRecognitionProcessor.registered;
      ghost var pending := faceRecognitionProcessor.addAFacePendingToRecognize;
      ghost var dialogs := faceRecognitionProcessor.dialogs;
      while |graphics| < |results| && !thrown
        invariant forall k :: 0 <= k < |graphics| ==> fresh(graphics[k])
        invariant Scanned(results, bitmap, scaledFor, registered, pending, dialogs, graphics, recognitions, thrown)
        decreases |results| - |graphics|
      {
        graphics, recognitions, thrown := ScanFace(results, bitmap, scaledFor, registered, pending, dialogs, graphics, recognitions);
      }
      if thrown {
        FirstHandledPrefix(results, |graphics|, bitmap.width, bitmap.height, Throws);
      } else {
        assert results[..|graphics|] == results;
      }
    }

    /**
     * onSuccess: clear the overlay; for each face in order, create its
     * graphic (copying the frame size onto it only while the overlay's
     * dimensions are uninitialised), add it, and recognise the face; then
     * invalidate the overlay and clear `isProcessing`. `scaledFor` gives
     * the bitmap the crop-and-scale library calls produce for a box.
     *
     * Only the first cropped face can consume a pending add request, so
     * at most one dialog opens per frame. A crop that throws ends
     * onSuccess there: the overlay is not invalidated and `isProcessing`
     * stays set, and nothing in the app catches the exception.
     */
    method OnSuccess(results: seq<Rect>, bitmap: Bitmap, scaledFor: Rect -> Bitmap)
      returns (graphics: seq<FaceContourGraphic>, recognitions: seq<Option<Recognition>>, thrown: bool)
      requires faceRecognitionProcessor.Valid()
      requires forall r :: IsScaledTo(scaledFor(r), TfFrApiInputSize)
      modifies overlay`graphics, overlay`invalidations, analyzer`isProcessing
      modifies faceRecognitionProcessor`addAFacePendingToRecognize, faceRecognitionProcessor`dialogs
      modifies faceRecognitionProcessor`inputFeature
      ensures faceRecognitionProcessor.Valid()
      ensures faceRecognitionProcessor.registered == old(faceRecognitionProcessor.registered)
      ensures thrown == FirstHandled(results, bitmap.width, bitmap.height, Throws).Some?
      ensures overlay.graphics == graphics && |graphics| == Reached(results, bitmap.width, bitmap.height)
      ensures forall k :: 0 <= k < |graphics| ==> fresh(graphics[k]) && GraphicFor(graphics[k], results[k], bitmap, overlay.areDimsInit)
      ensures |recognitions| == |graphics|
      ensures forall k :: 0 <= k < |graphics| ==> recognitions[k] == Outcome(old(faceRecognitionProcessor.registered), results[k], bitmap, scaledFor(results[k]))
      ensures !thrown ==> overlay.invalidations == old(overlay.invalidations) + 1 && !analyzer.isProcessing
      ensures thrown ==> overlay.invalidations == old(overlay.invalidations) && analyzer.isProcessing == old(analyzer.isProcessing)
      ensures var first := FirstHandled(results[..|graphics|], bitmap.width, bitmap.height, Cropped);
        && faceRecognitionProcessor.addAFacePendingToRecognize ==
             (old(faceRecognitionProcessor.addAFacePendingToRecognize) && first.None?)
        && faceRecognitionProcessor.dialogs == old(faceRecognitionProcessor.dialogs) +
             if old(faceRecognitionProcessor.addAFacePendingToRecognize) && first.Some?
             then recognitions[first.value].ToSeq() else []
    {
      overlay.Clear();
      graphics, recognitions, thrown := RecognizeFaces(results, bitmap, scaledFor);
      if thrown {
        return;
      }
      overlay.PostInvalidate();
      analyzer.isProcessing := false;
    }
  }
}
