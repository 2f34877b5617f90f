/**
 * face_mask_detection/FaceRecognitionProcessor.kt: the mask-detection
 * variant of the recogniser. It admits a face box under the same bounds
 * rule, converts the 224x224 scaled crop to the input tensor and runs the
 * MaskDetector model; the model's output is not used further.
 */
module MaskDetection {
  import opened Wrappers
  import opened Crop
  import opened Normalizer

  /** Side length of the square input the MaskDetector model takes. */
  const TfFrApiInputSize: nat := 224

  /** The shape of the model's FLOAT32 input tensor. */
  const InputShape: seq<nat> := ImageShape(TfFrApiInputSize)

  /** The buffer holds exactly the bytes of the 1x224x224x3 FLOAT32 input tensor. */
  lemma InputBufferFitsTensor()
    ensures InputShape == [1, 224, 224, 3]
    ensures ByteCapacity(TfFrApiInputSize) == 4 * Elements(InputShape) == 602112
  {
    CapacityFitsImageShape(TfFrApiInputSize);
  }

  class FaceRecognitionProcessor {
    /** The contents last loaded into the input tensor. */
    var inputFeature: seq<real>
    /** The MaskDetector model. */
    const maskDetector: seq<real> -> seq<real>

    constructor(model: seq<real> -> seq<real>)
      ensures maskDetector == model
      ensures inputFeature == seq(Elements(InputShape), _ => 0.0)
    {
      maskDetector := model;
      inputFeature := seq(Elements(InputShape), _ => 0.0);
    }

    /**
     * detectMask: a rejected box runs nothing and changes nothing, and so
     * does an admitted box that createBitmap refuses, except that it
     * throws. A cropped box loads the scaled crop's tensor and runs the
     * model, whose output is returned here (the source computes it and
     * drops it).
     */
    method DetectMask(face: Rect, bitmap: Bitmap, scaled: Bitmap) returns (output: Result<Option<seq<real>>, CropError>)
      requires IsScaledTo(scaled, TfFrApiInputSize)
      modifies this`inputFeature
      ensures HandlingOf(face, bitmap.width, bitmap.height) != Cropped ==> inputFeature == old(inputFeature)
      ensures HandlingOf(face, bitmap.width, bitmap.height) == Ignored ==> output == Success(None)
      ensures HandlingOf(face, bitmap.width, bitmap.height) == Throws ==> output == Failure(IllegalArgumentException)
      ensures HandlingOf(face, bitmap.width, bitmap.height) == Cropped ==>
        && inputFeature == Tensor(scaled.pixels)
        && |inputFeature| == Elements(InputShape)
        && output == Success(Some(maskDetector(inputFeature)))
    {
      output := Success(None);
      if face.left > 0 && face.right > 0 && face.top > 0 && face.bottom > 0
        && face.Width() + face.left <= bitmap.width && face.Height() + face.top <= bitmap.height
      {
        if !CropAccepted(face, bitmap.width, bitmap.height) {
          output := Failure(IllegalArgumentException);
          return;
        }
        var buffer := ConvertBitmapToByteBuffer(scaled, TfFrApiInputSize);
        GetPixelsOfScaled(scaled, TfFrApiInputSize);
        CapacityFitsImageShape(TfFrApiInputSize);
        inputFeature := buffer[..];
        output := Success(Some(maskDetector(inputFeature)));
      }
    }
  }
}
