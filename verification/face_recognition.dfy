/**
 * face_detection/FaceRecognitionProcessor.kt: the recogniser that owns the
 * gallery of registered faces, the "add a face" flag raised by the
 * floating action button, and the per-face recognise step (bounds check,
 * tensor conversion, embedding, nearest neighbour, colouring).
 *
 * The MobileFaceNet model is a parameter: a total function from the input
 * tensor to an embedding of fixed length `dim`. Cropping and scaling are
 * Android library calls; `Recognize` receives the bitmap they produce.
 */
module FaceRecognition {
  import opened Wrappers
  import opened Crop
  import opened Normalizer
  import opened Gallery

  /** Side length of the square input the MobileFaceNet model takes. */
  const TfFrApiInputSize: nat := 112

  /** The shape of the model's FLOAT32 input tensor. */
  const InputShape: seq<nat> := ImageShape(TfFrApiInputSize)

  /**
   * The byte buffer built for the model holds exactly as many bytes as the
   * 1x112x112x3 FLOAT32 input tensor, so loading it into the tensor succeeds.
   */
  lemma InputBufferFitsTensor()
    ensures InputShape == [1, 112, 112, 3]
    ensures ByteCapacity(TfFrApiInputSize) == 4 * Elements(InputShape) == 150528
  {
    CapacityFitsImageShape(TfFrApiInputSize);
  }

  class FaceRecognitionProcessor {
    /** Raised by the add button; consumed by the next face that passes the bounds check. */
    var addAFacePendingToRecognize: bool
    /** The `registered` HashMap, in iteration order. */
    var registered: seq<Entry>
    /** Add-face dialogs that are open, oldest first; each holds the recognition it will register. */
    var dialogs: seq<Recognition>
    /** The contents last loaded into the input tensor. */
    var inputFeature: seq<real>
    /** The MobileFaceNet model. */
    const mobileFaceNet: seq<real> -> seq<real>
    /** Length of every embedding the model produces. */
    const dim: nat

    ghost predicate Valid()
      reads this
    {
      && (forall t :: |mobileFaceNet(t)| == dim)
      && UniqueNames(registered)
      && (forall k :: 0 <= k < |registered| ==> |registered[k].rec.extra| == dim)
      && (forall k :: 0 <= k < |dialogs| ==> |dialogs[k].extra| == dim)
    }

    constructor(model: seq<real> -> seq<real>, embeddingSize: nat)
      requires forall t :: |model(t)| == embeddingSize
      ensures Valid()
      ensures mobileFaceNet == model && dim == embeddingSize
      ensures !addAFacePendingToRecognize && registered == [] && dialogs == []
      ensures inputFeature == seq(Elements(InputShape), _ => 0.0)
    {
      mobileFaceNet := model;
      dim := embeddingSize;
      addAFacePendingToRecognize := false;
      registered := [];
      dialogs := [];
      inputFeature := seq(Elements(InputShape), _ => 0.0);
    }

    /** The add button's click listener. */
    method OnAddClicked()
      requires Valid()
      modifies this`addAFacePendingToRecognize
      ensures Valid() && addAFacePendingToRecognize
    {
      addAFacePendingToRecognize := true;
    }

    /** The embedding the model yields for a bitmap already scaled to the input size. */
    ghost function EmbeddingOf(scaled: Bitmap): seq<real> {
      mobileFaceNet(Tensor(scaled.pixels))
    }

    /**
     * findNearest: scans the gallery in order, computing each squared L2
     * distance, and keeps the first strictly smallest.
     */
    method FindNearest(emb: seq<real>) returns (ret: Option<(string, real)>)
      requires Comparable(registered, emb)
      ensures ret.None? <==> |registered| == 0
      ensures ret.Some? ==> exists k ::
        && IsFirstMinimum(registered, emb, k)
        && ret.value == (registered[k].name, DistanceTo(registered, emb, k))
    {
      ret := None;
      ghost var best: nat := 0;
      for e := 0 to |registered|
        invariant ret.None? <==> e == 0
        invariant ret.Some? ==>
          && NearestIndex(registered[..e], emb) == Some(best)
          && best < e
          && ret.value == (registered[best].name, DistanceTo(registered, emb, best))
      {
        var knownEmb := registered[e].rec.extra;
        var distance := 0.0;
        for i := 0 to |emb|
          invariant distance == SumSq(emb, knownEmb, i)
        {
          var diff := emb[i] - knownEmb[i];
          distance := distance + Sq(diff);
        }
        assert registered[..e + 1][..e] == registered[..e];
        if ret == None || distance < ret.value.1 {
          ret := Some((registered[e].name, distance));
          best := e;
        }
      }
      assert registered[..|registered|] == registered;
      if |registered| > 0 {
        NearestIsFirstMinimum(registered, emb);
      }
    }

    /** doRecognition: the nearest name and distance, then the threshold colouring. */
    method DoRecognition(rec: Recognition) returns (r: Recognition)
      requires Comparable(registered, rec.extra)
      ensures r == Recognized(registered, rec)
    {
      r := rec;
      if |registered| > 0 {
        var nearest := FindNearest(rec.extra);
        if nearest.Some? {
          ghost var k :| IsFirstMinimum(registered, rec.extra, k)
            && nearest.value == (registered[k].name, DistanceTo(registered, rec.extra, k));
          NearestIndexIff(registered, rec.extra, k);
          r := r.(title := nearest.value.0, distance := nearest.value.1);
        }
      }
      var conf := r.distance;
      if conf < Threshold {
        if r.id == "0" {
          r := r.(color := ColorGreen);
        } else {
          r := r.(color := ColorRed);
        }
      }
    }

    /**
     * recognize: faces whose box fails the bounds check are ignored. For any
     * other face the crop comes first, and Bitmap.createBitmap throws on an
     * empty or inverted box; the exception leaves recognize before the
     * pending request is looked at. A face that is cropped is converted to
     * the input tensor and embedded; a pending add request is consumed and
     * opens a dialog for this recognition; the recognition is then matched
     * against the gallery. The dialog holds the same object doRecognition
     * then updates, so it shows (and would register) the matched
     * recognition.
     */
    method Recognize(face: Rect, bitmap: Bitmap, scaled: Bitmap) returns (result: Result<Option<Recognition>, CropError>)
      requires Valid() && IsScaledTo(scaled, TfFrApiInputSize)
      modifies this`addAFacePendingToRecognize, this`dialogs, this`inputFeature
      ensures Valid() && registered == old(registered)
      ensures HandlingOf(face, bitmap.width, bitmap.height) != Cropped ==>
        && addAFacePendingToRecognize == old(addAFacePendingToRecognize)
        && dialogs == old(dialogs)
        && inputFeature == old(inputFeature)
      ensures HandlingOf(face, bitmap.width, bitmap.height) == Ignored ==> result == Success(None)
      ensures HandlingOf(face, bitmap.width, bitmap.height) == Throws ==> result == Failure(IllegalArgumentException)
      ensures HandlingOf(face, bitmap.width, bitmap.height) == Cropped ==>
        && inputFeature == Tensor(scaled.pixels)
        && result == Success(Some(Recognized(registered, Initial(EmbeddingOf(scaled)))))
        && !addAFacePendingToRecognize
        && dialogs == old(dialogs) + (if old(addAFacePendingToRecognize) then [result.value.value] else [])
    {
      result := Success(None);
      if face.left > 0 && face.right > 0 && face.top > 0 && face.bottom > 0
        && face.Width() + face.left <= bitmap.width && face.Height() + face.top <= bitmap.height
      {
        if !CropAccepted(face, bitmap.width, bitmap.height) {
          result := Failure(IllegalArgumentException);
          return;
        }
        var buffer := ConvertBitmapToByteBuffer(scaled, TfFrApiInputSize);
        GetPixelsOfScaled(scaled, TfFrApiInputSize);
        inputFeature := buffer[..];
        var embeddings := mobileFaceNet(inputFeature);
        var resultRecognition := Initial(embeddings);
        var showDialog := false;
        if addAFacePendingToRecognize {
          addAFacePendingToRecognize := false;
          showDialog := true;
        }
        resultRecognition := DoRecognition(resultRecognition);
        RecognizedMeaning(registered, Initial(embeddings));
        if showDialog {
          dialogs := dialogs + [resultRecognition];
        }
        result := Success(Some(resultRecognition));
      }
    }

    /** register: HashMap.put of the recognition under the name. */
    method Register(name: string, rec: Recognition)
      requires Valid() && |rec.extra| == dim
      modifies this`registered
      ensures Valid()
      ensures registered == Put(old(registered), name, rec)
      ensures Lookup(registered, name) == Some(rec)
      ensures forall other :: other != name ==> Lookup(registered, other) == Lookup(old(registered), other)
    {
      PutOverwrites(registered, name, rec, name);
      forall other | other != name
        ensures Lookup(Put(registered, name, rec), other) == Lookup(registered, other)
      {
        PutOverwrites(registered, name, rec, other);
      }
      PutKeepsValues(registered, name, rec);
      registered := Put(registered, name, rec);
    }

    /**
     * The OK button of the k-th open add-face dialog. A non-empty name
     * registers the dialog's recognition under that name; an empty name
     * registers nothing. Either way the dialog closes, because an
     * AlertDialog dismisses itself once its button's listener returns.
     */
    method ConfirmAddFace(k: nat, name: string)
      requires Valid() && k < |dialogs|
      modifies this`registered, this`dialogs
      ensures Valid()
      ensures dialogs == old(dialogs[..k] + dialogs[k + 1..])
      ensures name == "" ==> registered == old(registered)
      ensures name != "" ==>
        && registered == Put(old(registered), name, old(dialogs[k]))
        && Lookup(registered, name) == Some(old(dialogs[k]))
        && (forall other :: other != name ==> Lookup(registered, other) == Lookup(old(registered), other))
    {
      if name != "" {
        Register(name, dialogs[k]);
      }
      dialogs := dialogs[..k] + dialogs[k + 1..];
    }
  }
}
