/**
 * camera/BaseImageAnalyzer.kt: frame admission for the face detector.
 * A frame is admitted only when no earlier frame is still being processed;
 * the detector's outcome arrives later as a success or failure callback,
 * after which the frame's image proxy is closed by the complete listener.
 *
 * Callbacks are modelled as sequential events: `Analyze` is the camera
 * delivering a frame, `OnDetectionSuccess` and `OnDetectionFailure` are the
 * detector task finishing (each followed by the complete listener). The
 * observable side effects are recorded, in order, in `events`.
 */
module Analyzer {
  import opened Wrappers
  import opened Crop
  import opened Normalizer
  import opened Graphic

  /** An ImageProxy: its id, whether it carries a media image, and the bitmap BitmapUtils makes of it. */
  datatype Frame = Frame(id: nat, hasMediaImage: bool, bitmap: Option<Bitmap>)

  datatype Event =
    | Closed(frame: nat)           // imageProxy.close()
    | DetectionStarted(frame: nat) // faceDetectInImage on the frame's media image
    | OverlayCleared               // graphicOverlay.clear()
    | OverlayInvalidated           // graphicOverlay.postInvalidate()
    | FailureHandled               // the subclass's onFailure

  class BaseImageAnalyzer {
    var isProcessing: bool
    /** Declared and read in analyze, but never assigned. */
    var faces: Option<seq<Rect>>
    /** The frame whose detection has not yet reported back. */
    var inFlight: Option<Frame>
    var events: seq<Event>
    /** Ids of all frames delivered so far. */
    ghost var seen: set<nat>
    const graphicOverlay: GraphicOverlay

    ghost predicate Valid()
      reads this
    {
      && faces == None
      && (inFlight.Some? ==> isProcessing && inFlight.value.id in seen && Closed(inFlight.value.id) !in events)
      && (forall e :: e in events && e.Closed? ==> e.frame in seen)
      && (forall i, j :: 0 <= i < j < |events| && events[i].Closed? ==> events[j] != events[i])
    }

    constructor(overlay: GraphicOverlay)
      ensures Valid()
      ensures graphicOverlay == overlay && !isProcessing && inFlight == None && events == [] && seen == {}
    {
      graphicOverlay := overlay;
      isProcessing := false;
      faces := None;
      inFlight := None;
      events := [];
      seen := {};
    }

    /** The `faces?.size == 0` clause of analyze's drop test. */
    predicate FacesEmpty()
      reads this
    {
      faces.Some? && |faces.value| == 0
    }

    /** The drop clause on `faces` never fires: `faces` stays null. */
    lemma FacesClauseNeverFires()
      requires Valid()
      ensures !FacesEmpty()
    {
    }

    /**
     * analyze: a frame arriving while another is processed is closed at
     * once. Otherwise `isProcessing` is set before anything else; detection
     * starts only when the frame has a media image (without one the flag
     * stays set and the frame is never closed).
     */
    method Analyze(frame: Frame)
      requires Valid() && frame.id !in seen
      modifies this`isProcessing, this`inFlight, this`events, this`seen
      ensures Valid() && seen == old(seen) + {frame.id}
      ensures old(isProcessing) ==>
        && isProcessing
        && inFlight == old(inFlight)
        && events == old(events) + [Closed(frame.id)]
      ensures !old(isProcessing) ==>
        && isProcessing
        && inFlight == (if frame.hasMediaImage then Some(frame) else old(inFlight))
        && events == old(events) + (if frame.hasMediaImage then [DetectionStarted(frame.id)] else [])
    {
      seen := seen + {frame.id};
      if isProcessing || FacesEmpty() {
        events := events + [Closed(frame.id)];
        return;
      }
      isProcessing := true;
      if frame.hasMediaImage {
        inFlight := Some(frame);
        events := events + [DetectionStarted(frame.id)];
      }
    }

    /**
     * The success listener followed by the complete listener: onSuccess is
     * launched (returned here) only for a non-null bitmap, and the frame is
     * closed. `isProcessing` is left for onSuccess to reset.
     */
    method OnDetectionSuccess() returns (launch: Option<Bitmap>)
      requires Valid() && inFlight.Some?
      modifies this`inFlight, this`events
      ensures Valid() && inFlight == None && isProcessing
      ensures launch == old(inFlight.value.bitmap)
      ensures events == old(events) + [Closed(old(inFlight.value.id))]
    {
      launch := inFlight.value.bitmap;
      events := events + [Closed(inFlight.value.id)];
      inFlight := None;
    }

    /**
     * The failure listener followed by the complete listener: the overlay is
     * cleared and invalidated, then onFailure runs, then the frame is
     * closed. `isProcessing` is not reset on this path.
     */
    method OnDetectionFailure()
      requires Valid() && inFlight.Some?
      modifies this`inFlight, this`events, graphicOverlay`graphics, graphicOverlay`invalidations
      ensures Valid() && inFlight == None && isProcessing
      ensures graphicOverlay.graphics == []
      ensures graphicOverlay.invalidations == old(graphicOverlay.invalidations) + 1
      ensures events == old(events) + [OverlayCleared, OverlayInvalidated, FailureHandled, Closed(old(inFlight.value.id))]
    {
      graphicOverlay.Clear();
      graphicOverlay.PostInvalidate();
      events := events + [OverlayCleared, OverlayInvalidated, FailureHandled, Closed(inFlight.value.id)];
      inFlight := None;
    }
  }
}
