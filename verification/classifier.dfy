/**
 * TfliteClassifierHelper.kt: runs a TFLite interpreter on a 160x160 bitmap
 * and returns the first row of its score output. The interpreter (model
 * file, GPU delegate, threads) is a parameter: a function from the input
 * tensor to the three outputs, or None when it throws.
 */
module Classifier {
  import opened Wrappers
  import opened Normalizer

  /** Side length of the square input. */
  const InputSize: nat := 160

  /** The sizes of the three output arrays process allocates. */
  const LocationsSize: nat := 4
  const ClassesSize: nat := 3
  const ScoresSize: nat := 136

  /** What the interpreter writes into the three output arrays. */
  datatype Outputs = Outputs(locations: seq<real>, classes: seq<real>, scores: seq<real>)

  /** The exceptions process can raise. */
  datatype Exception =
    | ArrayIndexOutOfBounds
      // Bitmap.getPixels into an IntArray too small for the bitmap
    | InterpreterFailure
      // the interpreter threw, or its outputs do not fit the arrays
    | RuntimeException(cause: Exception)

  /** Output arrays of the given sizes, as the interpreter fills them. */
  predicate FitsOutputs(o: Outputs) {
    |o.locations| == LocationsSize && |o.classes| == ClassesSize && |o.scores| == ScoresSize
  }

  /** The buffer holds exactly the bytes of a 1x160x160x3 FLOAT32 tensor. */
  lemma InputBufferSize()
    ensures ByteCapacity(InputSize) == 4 * Elements(ImageShape(InputSize)) == 307200
  {
    CapacityFitsImageShape(InputSize);
  }

  class TfliteClassifierHelper {
    /** Shape 1x1x4 once process has run. */
    var outputLocations: seq<seq<seq<real>>>
    /** Shape 1x3 once process has run. */
    var outputClasses: seq<seq<real>>
    /** Shape 1x136 once process has run. */
    var outputScores: seq<seq<real>>
    const interpreter: seq<real> -> Option<Outputs>

    /** The three output fields are lateinit: empty until process assigns them. */
    constructor(interpreter: seq<real> -> Option<Outputs>)
      ensures this.interpreter == interpreter
      ensures outputLocations == [] && outputClasses == [] && outputScores == []
    {
      this.interpreter := interpreter;
      outputLocations := [];
      outputClasses := [];
      outputScores := [];
    }

    /**
     * process: convert the bitmap, allocate zeroed output arrays and run the
     * interpreter; any exception is rethrown wrapped in a RuntimeException.
     * A bitmap with more pixels than 160x160 fails in the conversion, before
     * the output fields are reassigned. On success the result is
     * outputScores[0], of length 136.
     */
    method Process(resizedBitmap: Bitmap) returns (r: Result<seq<real>, Exception>)
      requires WellFormed(resizedBitmap)
      modifies this`outputLocations, this`outputClasses, this`outputScores
      ensures r.Failure? ==> r.error.RuntimeException?
      ensures resizedBitmap.width * resizedBitmap.height > InputSize * InputSize ==>
        && r == Failure(RuntimeException(ArrayIndexOutOfBounds))
        && outputLocations == old(outputLocations)
        && outputClasses == old(outputClasses)
        && outputScores == old(outputScores)
      ensures resizedBitmap.width * resizedBitmap.height <= InputSize * InputSize ==>
        var out := interpreter(Tensor(GetPixels(resizedBitmap, InputSize)));
        if out.Some? && FitsOutputs(out.value) then
          && outputLocations == [[out.value.locations]]
          && outputClasses == [out.value.classes]
          && outputScores == [out.value.scores]
          && r == Success(outputScores[0])
          && |r.value| == ScoresSize
        else
          && r == Failure(RuntimeException(InterpreterFailure))
          && outputLocations == [[seq(LocationsSize, _ => 0.0)]]
          && outputClasses == [seq(ClassesSize, _ => 0.0)]
          && outputScores == [seq(ScoresSize, _ => 0.0)]
    {
      if resizedBitmap.width * resizedBitmap.height > InputSize * InputSize {
        return Failure(RuntimeException(ArrayIndexOutOfBounds));
      }
      var buffer := ConvertBitmapToByteBuffer(resizedBitmap, InputSize);
      outputLocations := [[seq(LocationsSize, _ => 0.0)]];
      outputClasses := [seq(ClassesSize, _ => 0.0)];
      outputScores := [seq(ScoresSize, _ => 0.0)];
      var out := interpreter(buffer[..]);
      if out.None? || !FitsOutputs(out.value) {
        return Failure(RuntimeException(InterpreterFailure));
      }
      outputLocations := [[out.value.locations]];
      outputClasses := [out.value.classes];
      outputScores := [out.value.scores];
      r := Success(outputScores[0]);
    }
  }
}
