# Android face recognition: the per-frame core, in Dafny

This project models what the Android app `shaon2016/Android-Face-Recognition`
does with each camera frame, leaving out the camera, ML Kit and TensorFlow
Lite plumbing. Each step below is modelled and then proved correct:

- **Frame admission.** `BaseImageAnalyzer` runs at most one frame at a time,
  guarded by its `isProcessing` flag.
- **Success path.** `FaceContourDetectionProcessor.onSuccess` clears the
  overlay. For each detected face it adds one `FaceContourGraphic` and asks
  the recogniser about that face. Then it invalidates the overlay and clears
  `isProcessing`.
- **Recognition.** The recogniser (`face_detection/FaceRecognitionProcessor`)
  does the following for each face:
  - it admits the face's bounding box only if the box lies inside the bitmap;
  - it crops the admitted box, and the crop throws when the box is empty or
    inverted, which ends `onSuccess` at that face;
  - it turns the scaled crop into a normalised float tensor;
  - it embeds that tensor with MobileFaceNet;
  - if an "add a face" request is pending, it consumes the request and opens
    an add-face dialog;
  - it finds the nearest registered face by L2 distance and colours the
    result when the distance is below 1.0.
- **Registration.** Confirming a dialog with a non-empty name stores the
  recognition in the gallery, overwriting any earlier entry with that name.
  The dialog closes whether or not the name was empty.
- **Drawing.** `FaceContourGraphic.draw` works in two stages. The first call
  computes the frame-to-view transform, a scale plus a horizontal mirror, and
  draws nothing. Later calls map the box through the graphic's own matrix.
- **Related code.** The same tensor conversion appears in the mask detector
  (224×224) and in the TFLite classifier helper (160×160). The root
  `CameraXManager` has helpers for orientation bucketing, the aspect-ratio
  choice, the front-lens flags and a crop size check.

Modules:

| module | contents |
|---|---|
| `Wrappers` | `Option` and `Result` |
| `Crop` | bounding boxes and the admission check |
| `Normalizer` | pixels to tensor, and the fill loop over an `array<real>` |
| `Gallery` | the recognition record, squared distances, the nearest-neighbour choice, the map view of the gallery, and doRecognition as a function |
| `FaceRecognition` | the recogniser as a class |
| `Graphic` | the matrix, the overlay and the contour graphic |
| `Analyzer` | `BaseImageAnalyzer` as an event-logging class |
| `ContourDetection` | `onSuccess` |
| `MaskDetection` | the mask detector |
| `Classifier` | `TfliteClassifierHelper` |
| `CameraX` | the `CameraXManager` helpers |

Modelling choices:

- **Squared distances.** Distances are kept squared, so `Math.sqrt` never
  appears. The threshold test `d < 1` is the same as `d² < 1`, and squaring
  keeps the same nearest entry.
- **Floats.** `Float.MAX_VALUE` is the exact real constant.
- **Gallery order.** The gallery is a sequence of (name, recognition) entries
  in the HashMap's iteration order. `findNearest` keeps the first strict
  minimum in that order.
- **Channel extraction.** `(v shr k) and 0xFF` is written with Dafny's
  Euclidean `/` and `%` by powers of two. These agree with Kotlin's
  arithmetic shift and mask for negative pixels too.
- **Model calls.** The embedder, the mask detector and the TFLite
  interpreter are parameters, given as functions on values.
- **Crop and scale.** The bitmap produced by Android's crop-and-scale calls
  is an input: `scaled` for one face, or `scaledFor` for each box of a frame.

## Model

Paths are relative to the repository root. `FaceRecognitionProcessor.kt`
without a directory means the one in `face_detection/`.

| member | source | states |
|---|---|---|
| Crop.Admissible | app/src/main/java/com/shaon2016/facerecongnition/face_detection/FaceRecognitionProcessor.kt:49 | The guard as written: all four edges positive, `width() + left` at most the bitmap width and `height() + top` at most its height. |
| Crop.AdmissibleMeansInside | app/src/main/java/com/shaon2016/facerecongnition/face_detection/FaceRecognitionProcessor.kt:49 | A box is admitted iff all four edges are positive, right <= width and bottom <= height. An admitted box's pixels all lie inside the bitmap. |
| Crop.EdgeIsInclusive | app/src/main/java/com/shaon2016/facerecongnition/face_detection/FaceRecognitionProcessor.kt:49 | A box ending exactly at the right and bottom edges is admitted. One pixel more in either direction is rejected. |
| Crop.ZeroEdgeRejected | app/src/main/java/com/shaon2016/facerecongnition/face_detection/FaceRecognitionProcessor.kt:49 | A box touching the left or top border (coordinate 0) is rejected. |
| Crop.CropAccepted | app/src/main/java/com/shaon2016/facerecongnition/face_detection/FaceRecognitionProcessor.kt:50-56 | The regions `Bitmap.createBitmap(bitmap, left, top, width, height)` accepts: non-negative start, positive width and height, and an end within the bitmap. It throws IllegalArgumentException on any other region. |
| Crop.HandlingOf | app/src/main/java/com/shaon2016/facerecongnition/face_detection/FaceRecognitionProcessor.kt:49-56 | A face is ignored iff the guard rejects it. It throws iff the guard admits it with width or height ≤ 0, and is cropped iff the guard admits it with both positive. |
| Crop.DegenerateBoxesThrow | app/src/main/java/com/shaon2016/facerecongnition/face_detection/FaceRecognitionProcessor.kt:49-56 | The empty box (5,5)-(5,5) and the inverted box (7,5)-(3,9) in a 10×10 bitmap pass the guard, and the crop then throws. |
| Normalizer.Tensor | app/src/main/java/com/shaon2016/facerecongnition/face_detection/FaceRecognitionProcessor.kt:176-184 | The tensor of n pixels has 3n values. |
| Normalizer.CapacityHoldsTensor | app/src/main/java/com/shaon2016/facerecongnition/face_detection/FaceRecognitionProcessor.kt:171 | The allocated `4·S·S·3` bytes are four bytes for each of the 3·S·S floats. |
| Normalizer.CapacityFitsImageShape | app/src/main/java/com/shaon2016/facerecongnition/face_detection/FaceRecognitionProcessor.kt:171 | The buffer's byte count is 4 × the element count of the `[1,S,S,3]` input tensor. |
| Normalizer.GetPixels | app/src/main/java/com/shaon2016/facerecongnition/face_detection/FaceRecognitionProcessor.kt:174-175 | `getPixels` into an S·S int array: the bitmap's row-major pixels first, zeros after them. |
| Normalizer.GetPixelsOfScaled | app/src/main/java/com/shaon2016/facerecongnition/face_detection/FaceRecognitionProcessor.kt:174-175 | For an S×S bitmap the array is exactly its pixels. |
| Normalizer.TensorAt | app/src/main/java/com/shaon2016/facerecongnition/face_detection/FaceRecognitionProcessor.kt:177-183 | Element k is channel k mod 3 (R, G, B) of pixel k div 3, normalised. The same layout holds at S = 224 and S = 160 (`face_mask_detection/FaceRecognitionProcessor.kt:77-83`, `TfliteClassifierHelper.kt:100-106`). |
| Normalizer.NormalizeRange | app/src/main/java/com/shaon2016/facerecongnition/face_detection/FaceRecognitionProcessor.kt:180-182 | A byte c maps to (c − 128)/128, which lies in [−1, 127/128]. |
| Normalizer.TensorRange | app/src/main/java/com/shaon2016/facerecongnition/TfliteClassifierHelper.kt:103-105 | Every tensor value lies in [−1, 127/128]. |
| Normalizer.TensorRecoversChannels | app/src/main/java/com/shaon2016/facerecongnition/face_detection/FaceRecognitionProcessor.kt:180-182 | Denormalising the three values of pixel i gives back its R, G and B bytes, so the conversion loses nothing. |
| Normalizer.ChannelsOfArgb | app/src/main/java/com/shaon2016/facerecongnition/face_mask_detection/FaceRecognitionProcessor.kt:80-82 | The shifts and masks extract R, G and B from a packed ARGB int, including when alpha ≥ 0x80 makes the int negative. |
| Normalizer.PaddingIsMinusOne | app/src/main/java/com/shaon2016/facerecongnition/face_detection/FaceRecognitionProcessor.kt:174-182 | A zero pixel (array padding) contributes −1.0 on every channel. |
| Normalizer.RowMajorBound | app/src/main/java/com/shaon2016/facerecongnition/face_mask_detection/FaceRecognitionProcessor.kt:76-79 | The pixel counter at (i, j) is i·S + j, which stays below S·S. |
| Normalizer.PutPixel | app/src/main/java/com/shaon2016/facerecongnition/face_detection/FaceRecognitionProcessor.kt:180-182 | Three `putFloat`s append exactly the pixel's R, G and B values after what was written before. |
| Normalizer.TensorStep | app/src/main/java/com/shaon2016/facerecongnition/face_detection/FaceRecognitionProcessor.kt:179-182 | The tensor of one more pixel is the old tensor followed by that pixel's three values. |
| Normalizer.ReadPixels | app/src/main/java/com/shaon2016/facerecongnition/face_detection/FaceRecognitionProcessor.kt:174-175 | The new int array holds GetPixels of the bitmap. |
| Normalizer.PutRow | app/src/main/java/com/shaon2016/facerecongnition/face_detection/FaceRecognitionProcessor.kt:178-183 | The inner loop advances the pixel counter by S and extends the written prefix to the tensor of the pixels read so far. |
| Normalizer.ConvertBitmapToByteBuffer | app/src/main/java/com/shaon2016/facerecongnition/face_detection/FaceRecognitionProcessor.kt:170-187 | Returns a new buffer of `4·S·S·3` bytes whose contents are exactly the tensor of the bitmap's pixels. S is a parameter: the same member covers the copies at S = 224 (`face_mask_detection/FaceRecognitionProcessor.kt:70-87`) and S = 160 (`TfliteClassifierHelper.kt:93-110`). |
| Gallery.SumSq | app/src/main/java/com/shaon2016/facerecongnition/face_detection/FaceRecognitionProcessor.kt:157-161 | The accumulated sum of squared differences is never negative. |
| Gallery.SumSqZeroIff | app/src/main/java/com/shaon2016/facerecongnition/face_detection/FaceRecognitionProcessor.kt:157-161 | The sum over the first n indices is 0 iff the two prefixes are equal. |
| Gallery.DistanceZeroIff | app/src/main/java/com/shaon2016/facerecongnition/face_detection/FaceRecognitionProcessor.kt:156-162 | The distance is 0 iff the stored embedding starts with the query. |
| Gallery.NearestIndex | app/src/main/java/com/shaon2016/facerecongnition/face_detection/FaceRecognitionProcessor.kt:153-168 | The scan's choice: none iff the gallery is empty, and otherwise a valid index. |
| Gallery.NearestIsFirstMinimum | app/src/main/java/com/shaon2016/facerecongnition/face_detection/FaceRecognitionProcessor.kt:155-166 | On a non-empty gallery the choice is no further away than any entry, and strictly closer than every earlier entry. |
| Gallery.FirstMinimumUnique | app/src/main/java/com/shaon2016/facerecongnition/face_detection/FaceRecognitionProcessor.kt:163 | Because the comparison is strict, at most one index is the first minimum, so the tie-break is determined. |
| Gallery.NearestIndexIff | app/src/main/java/com/shaon2016/facerecongnition/face_detection/FaceRecognitionProcessor.kt:153-168 | The scan returns index i iff i is the first minimum. |
| Gallery.IndexOf | app/src/main/java/com/shaon2016/facerecongnition/face_detection/FaceRecognitionProcessor.kt:89 | Finds an entry carrying the name, or reports that no entry carries it. |
| Gallery.Lookup | app/src/main/java/com/shaon2016/facerecongnition/face_detection/FaceRecognitionProcessor.kt:89 | The `registered` HashMap read as a map: the recognition stored under the name, or null. |
| Gallery.Put | app/src/main/java/com/shaon2016/facerecongnition/face_detection/FaceRecognitionProcessor.kt:91-93 | `registered[name] = rec`: overwrites the entry carrying the name in place, or appends a new entry. |
| Gallery.LookupAt | app/src/main/java/com/shaon2016/facerecongnition/face_detection/FaceRecognitionProcessor.kt:89 | With unique keys, `get` of an entry's name yields that entry's recognition. |
| Gallery.LookupMissing | app/src/main/java/com/shaon2016/facerecongnition/face_detection/FaceRecognitionProcessor.kt:89 | `get` of an absent name yields nothing. |
| Gallery.PutOverwrites | app/src/main/java/com/shaon2016/facerecongnition/face_detection/FaceRecognitionProcessor.kt:91-93 | After `put`: the keys stay unique, the name maps to the new recognition, every other name keeps its value, and the size grows iff the name was new. |
| Gallery.PutKeepsValues | app/src/main/java/com/shaon2016/facerecongnition/face_detection/FaceRecognitionProcessor.kt:91-93 | Every entry after `put` is the new one or an entry that was there before. |
| Gallery.Coloured | app/src/main/java/com/shaon2016/facerecongnition/face_detection/FaceRecognitionProcessor.kt:112-122 | The threshold colouring: below 1.0, green for id "0" and red for any other id; otherwise the colour is kept. |
| Gallery.Recognized | app/src/main/java/com/shaon2016/facerecongnition/face_detection/FaceRecognitionProcessor.kt:95-125 | doRecognition as a function: the first-nearest entry's name and distance on a non-empty gallery, then the threshold colouring. |
| Gallery.RecognizedMeaning | app/src/main/java/com/shaon2016/facerecongnition/face_detection/FaceRecognitionProcessor.kt:95-125 | doRecognition keeps id and embedding. With an empty gallery it keeps title and distance; otherwise they become the first-nearest entry's name and distance. Below 1.0 the colour is green for id "0" and red for any other id; at 1.0 or more it is unchanged. |
| Gallery.EmptyGalleryUnknown | app/src/main/java/com/shaon2016/facerecongnition/face_detection/FaceRecognitionProcessor.kt:95-125 | With an empty gallery a new recognition stays unchanged: "?", distance `Float.MAX_VALUE` (not below the threshold), colour 0. |
| Gallery.RegisteredFaceIsGreen | app/src/main/java/com/shaon2016/facerecongnition/face_detection/FaceRecognitionProcessor.kt:116-118 | If an entry stores exactly the query embedding, the result has distance 0 and is green. |
| Gallery.NeverRed | app/src/main/java/com/shaon2016/facerecongnition/face_detection/FaceRecognitionProcessor.kt:116-122 | The recognitions `recognize` builds have id "0", so their colour is never red. |
| FaceRecognition.InputBufferFitsTensor | app/src/main/java/com/shaon2016/facerecongnition/face_detection/FaceRecognitionProcessor.kt:38-42 | The input tensor is 1×112×112×3, and the 150528-byte buffer fills it exactly. |
| FaceRecognition.FaceRecognitionProcessor.constructor | app/src/main/java/com/shaon2016/facerecongnition/face_detection/FaceRecognitionProcessor.kt:22-42 | A new recogniser has no pending request, an empty gallery, no dialogs and a zero input tensor of 112·112·3 floats. |
| FaceRecognition.FaceRecognitionProcessor.OnAddClicked | app/src/main/java/com/shaon2016/facerecongnition/face_detection/FaceRecognitionProcessor.kt:26-28 | The add button sets the pending flag. |
| FaceRecognition.FaceRecognitionProcessor.FindNearest | app/src/main/java/com/shaon2016/facerecongnition/face_detection/FaceRecognitionProcessor.kt:153-168 | The nested loop returns null iff the gallery is empty. Otherwise it returns the name and distance of the first entry at minimum distance. |
| FaceRecognition.FaceRecognitionProcessor.DoRecognition | app/src/main/java/com/shaon2016/facerecongnition/face_detection/FaceRecognitionProcessor.kt:95-125 | The updated recognition equals `Gallery.Recognized` of the gallery and the input. |
| FaceRecognition.FaceRecognitionProcessor.Recognize | app/src/main/java/com/shaon2016/facerecongnition/face_detection/FaceRecognitionProcessor.kt:44-87 | A box the guard rejects changes nothing and yields no recognition. An admitted empty or inverted box makes the crop throw: the result is IllegalArgumentException, and the flag, dialogs and tensor are unchanged. A cropped box loads the tensor of the scaled crop and yields the recognised embedding. It clears the flag and opens one dialog iff the flag was set; that dialog holds the recognised object. The gallery is unchanged. |
| FaceRecognition.FaceRecognitionProcessor.Register | app/src/main/java/com/shaon2016/facerecongnition/face_detection/FaceRecognitionProcessor.kt:91-93 | The gallery becomes `put(name, rec)`: the name maps to rec and all other names are unchanged. |
| FaceRecognition.FaceRecognitionProcessor.ConfirmAddFace | app/src/main/java/com/shaon2016/facerecongnition/face_detection/FaceRecognitionProcessor.kt:138-146 | The dialog closes whatever the name, since an AlertDialog dismisses itself after its button's listener. An empty name registers nothing. Otherwise the dialog's recognition is registered under the name and other names keep their values. |
| Graphic.PreScale | app/src/main/java/com/shaon2016/facerecongnition/face_detection/FaceContourGraphic.kt:51 | `preScale` maps x to the old mapping of sx·x, and likewise for y. |
| Graphic.PostScale | app/src/main/java/com/shaon2016/facerecongnition/face_detection/FaceContourGraphic.kt:52 | `postScale` about (px, py) maps x to sx·(old(x) − px) + px, and likewise for y. |
| Graphic.MapRect | app/src/main/java/com/shaon2016/facerecongnition/face_detection/FaceContourGraphic.kt:56 | `mapRect` yields the sorted box whose edges are the mapped edges. |
| Graphic.Bootstrap | app/src/main/java/com/shaon2016/facerecongnition/face_detection/FaceContourGraphic.kt:48-52 | The matrix the first draw builds: identity, pre-scaled by the view/frame factors, then post-scaled by (−1, 1) about the view centre. |
| Graphic.BootstrapMirrors | app/src/main/java/com/shaon2016/facerecongnition/face_detection/FaceContourGraphic.kt:45-53 | The bootstrap transform is x' = viewWidth − xFactor·x and y' = yFactor·y. The frame's left edge lands on the view's right edge and vice versa. |
| Graphic.IdentityKeepsBox | app/src/main/java/com/shaon2016/facerecongnition/face_detection/FaceContourGraphic.kt:54-56 | A graphic that never bootstrapped maps its box unchanged: the bootstrap is not shared between graphics. |
| Graphic.GraphicOverlay.constructor | app/src/main/java/com/shaon2016/facerecongnition/face_detection/FaceContourGraphic.kt:45 | A new overlay has `areDimsInit` false, so the first draw of a graphic bootstraps. It holds no graphics and has no invalidations. |
| Graphic.GraphicOverlay.Clear | app/src/main/java/com/shaon2016/facerecongnition/face_detection/FaceContourDetectionProcessor.kt:63 | The overlay holds no graphics afterwards. |
| Graphic.GraphicOverlay.Add | app/src/main/java/com/shaon2016/facerecongnition/face_detection/FaceContourDetectionProcessor.kt:72 | The graphic is appended. |
| Graphic.GraphicOverlay.PostInvalidate | app/src/main/java/com/shaon2016/facerecongnition/face_detection/FaceContourDetectionProcessor.kt:79 | The invalidation count goes up by one. |
| Graphic.FaceContourGraphic.constructor | app/src/main/java/com/shaon2016/facerecongnition/face_detection/FaceContourGraphic.kt:13-23 | A new graphic has an identity matrix, frame size 0×0 and an empty title. |
| Graphic.FaceContourGraphic.Draw | app/src/main/java/com/shaon2016/facerecongnition/face_detection/FaceContourGraphic.kt:44-62 | While dims are uninitialised, draw pre-scales by view/frame, mirrors about the view's vertical midline, sets `areDimsInit` and draws nothing. A null canvas throws instead. Afterwards, draw maps the box through the matrix and draws it with the title at the mapped (left, top), or nothing on a null canvas. `areDimsInit` never goes back to false. |
| Analyzer.BaseImageAnalyzer.constructor | app/src/main/java/com/shaon2016/facerecongnition/camera/BaseImageAnalyzer.kt:18-21 | Not processing, `faces` null, nothing in flight. |
| Analyzer.BaseImageAnalyzer.FacesClauseNeverFires | app/src/main/java/com/shaon2016/facerecongnition/camera/BaseImageAnalyzer.kt:19-28 | `faces` stays null, so `faces?.size == 0` is never true. |
| Analyzer.BaseImageAnalyzer.Analyze | app/src/main/java/com/shaon2016/facerecongnition/camera/BaseImageAnalyzer.kt:24-40 | A busy analyzer closes the frame at once and changes nothing else. An idle one sets `isProcessing` before detection. It starts detection only when the frame has a media image; otherwise the frame stays unclosed and `isProcessing` stays set. |
| Analyzer.BaseImageAnalyzer.OnDetectionSuccess | app/src/main/java/com/shaon2016/facerecongnition/camera/BaseImageAnalyzer.kt:41-58 | The success listener hands on the frame's bitmap (onSuccess is launched only when it is present). The complete listener then closes the frame, and no frame is ever closed twice. `isProcessing` is left for onSuccess to clear. |
| Analyzer.BaseImageAnalyzer.OnDetectionFailure | app/src/main/java/com/shaon2016/facerecongnition/camera/BaseImageAnalyzer.kt:52-58 | In order: clear the overlay, invalidate it, run onFailure (which only logs), then close the frame. `isProcessing` stays true. |
| ContourDetection.FirstHandled | app/src/main/java/com/shaon2016/facerecongnition/face_detection/FaceContourDetectionProcessor.kt:66-76 | The index of the first face that `recognize` handles in a given way (ignored, throwing or cropped), or none if no face is handled that way. |
| ContourDetection.FirstHandledExtend | app/src/main/java/com/shaon2016/facerecongnition/face_detection/FaceContourDetectionProcessor.kt:66-76 | One more face changes the first face handled a given way only if no earlier face was handled that way. |
| ContourDetection.FirstHandledPrefix | app/src/main/java/com/shaon2016/facerecongnition/face_detection/FaceContourDetectionProcessor.kt:66-76 | The first face a prefix finds is also the first in the whole sequence. |
| ContourDetection.ThrowsStep | app/src/main/java/com/shaon2016/facerecongnition/face_detection/FaceContourDetectionProcessor.kt:66-76 | Past faces whose crops all succeeded, the next face either throws or keeps that so. |
| ContourDetection.Reached | app/src/main/java/com/shaon2016/facerecongnition/face_detection/FaceContourDetectionProcessor.kt:66-76 | The forEach reaches every face, or stops after the first one whose crop throws. |
| ContourDetection.ConsumedStep | app/src/main/java/com/shaon2016/facerecongnition/face_detection/FaceRecognitionProcessor.kt:78-82 | Over a sequence of faces, the pending request survives iff no face was cropped. Only the first cropped face opens a dialog. |
| ContourDetection.FaceContourDetectionProcessor.constructor | app/src/main/java/com/shaon2016/facerecongnition/face_detection/FaceContourDetectionProcessor.kt:22-44 | The processor's overlay is the analyzer's `graphicOverlay`. |
| ContourDetection.FaceContourDetectionProcessor.AddGraphic | app/src/main/java/com/shaon2016/facerecongnition/face_detection/FaceContourDetectionProcessor.kt:67-72 | Appends a new graphic for the face. It carries the frame size only while the overlay's dims are uninitialised, and 0×0 otherwise. |
| ContourDetection.FaceContourDetectionProcessor.HandleFace | app/src/main/java/com/shaon2016/facerecongnition/face_detection/FaceContourDetectionProcessor.kt:67-75 | The face's graphic is added first and the face is then recognised. It fails iff the crop throws, with the graphic already added. The result and the flag and dialog changes are those of `recognize`. |
| ContourDetection.FaceContourDetectionProcessor.ScanFace | app/src/main/java/com/shaon2016/facerecongnition/face_detection/FaceContourDetectionProcessor.kt:66-76 | One pass of the forEach body extends the graphics and recognitions by one face, and reports whether its crop threw. It keeps every per-face fact and the pending-request accounting. |
| ContourDetection.FaceContourDetectionProcessor.RecognizeFaces | app/src/main/java/com/shaon2016/facerecongnition/face_detection/FaceContourDetectionProcessor.kt:65-77 | One new graphic per face reached, in detector order, making up the overlay's whole list. The loop stops after the first face whose crop throws, and reports that it threw. Recognitions are what `recognize` yields against the gallery as it was. The request is consumed by the first cropped face only. |
| ContourDetection.FaceContourDetectionProcessor.OnSuccess | app/src/main/java/com/shaon2016/facerecongnition/face_detection/FaceContourDetectionProcessor.kt:58-82 | Clear, then one graphic per face reached with its recognition. If no crop threw: one invalidation, then `isProcessing` is false. If a crop threw, the exception leaves onSuccess: no invalidation, and `isProcessing` stays set. At most one dialog opens, for the first cropped face and only if a request was pending. |
| MaskDetection.InputBufferFitsTensor | app/src/main/java/com/shaon2016/facerecongnition/face_mask_detection/FaceRecognitionProcessor.kt:22-33 | The input tensor is 1×224×224×3, and the 602112-byte buffer fills it exactly. |
| MaskDetection.FaceRecognitionProcessor.constructor | app/src/main/java/com/shaon2016/facerecongnition/face_mask_detection/FaceRecognitionProcessor.kt:28-33 | The input tensor starts as 224·224·3 zeros. |
| MaskDetection.FaceRecognitionProcessor.DetectMask | app/src/main/java/com/shaon2016/facerecongnition/face_mask_detection/FaceRecognitionProcessor.kt:36-68 | A rejected box invokes nothing and changes nothing. An admitted empty or inverted box makes the crop throw and changes nothing. A cropped box loads the tensor of the scaled crop and runs the mask model on it. |
| Classifier.InputBufferSize | app/src/main/java/com/shaon2016/facerecongnition/TfliteClassifierHelper.kt:94 | The buffer is `4·160·160·3` = 307200 bytes, exactly the `[1,160,160,3]` float tensor. |
| Classifier.TfliteClassifierHelper.constructor | app/src/main/java/com/shaon2016/facerecongnition/TfliteClassifierHelper.kt:36-40 | The output arrays start empty and the interpreter is the given one. |
| Classifier.TfliteClassifierHelper.Process | app/src/main/java/com/shaon2016/facerecongnition/TfliteClassifierHelper.kt:70-91 | A bitmap too large for the 160×160 int array fails inside the conversion, before the outputs are allocated. An interpreter failure fails after the outputs are zeroed. Both come back wrapped in a RuntimeException. On success the output fields hold the interpreter's results, and the return value is `outputScores[0]`, of length 136. |
| CameraX.RotationFor | app/src/main/java/com/shaon2016/facerecongnition/CameraXManager.kt:131-135 | The `when` of onOrientationChanged: 45..134 → ROTATION_270, 135..224 → ROTATION_180, 225..314 → ROTATION_90, else ROTATION_0. |
| CameraX.RotationCompensates | app/src/main/java/com/shaon2016/facerecongnition/CameraXManager.kt:131-136 | For 0 ≤ o < 360: o is bucketed to rotation r iff o + 90r + 45 (mod 360) < 90. So 45..134 → 270, 135..224 → 180, 225..314 → 90, and the rest → 0. |
| CameraX.OutOfRangeIsUpright | app/src/main/java/com/shaon2016/facerecongnition/CameraXManager.kt:135 | Every value outside 45..314, including negatives and ≥ 360, maps to ROTATION_0. |
| CameraX.AspectRatio | app/src/main/java/com/shaon2016/facerecongnition/CameraXManager.kt:266-272 | aspectRatio with the doubles' behaviour written out: +Inf for one zero side (4:3), NaN for two (16:9), and an exact strict comparison that matches the rounded one for every pair of Ints. |
| CameraX.AspectRatioSymmetric | app/src/main/java/com/shaon2016/facerecongnition/CameraXManager.kt:266-272 | `aspectRatio(w, h) == aspectRatio(h, w)`. |
| CameraX.AspectRatioThreshold | app/src/main/java/com/shaon2016/facerecongnition/CameraXManager.kt:266-272 | For positive sides the choice is 4:3 iff max/min < 14/9, the midpoint of 4/3 and 16/9. An exact 14:9 frame gets 16:9, as the rounded doubles decide. |
| CameraX.CameraXManager.constructor | app/src/main/java/com/shaon2016/facerecongnition/CameraXManager.kt:49-58 | Front lens, both flip flags false. |
| CameraX.CameraXManager.OnOrientationChanged | app/src/main/java/com/shaon2016/facerecongnition/CameraXManager.kt:127-148 | Both targets get the bucketed rotation. With the front lens, the flip flag becomes true; the vertical flag becomes true on 0, false on 1, and is otherwise kept. With the back lens, both flags are kept. |
| CameraX.CropSizeFits | app/src/main/java/com/shaon2016/facerecongnition/CameraXManager.kt:212 | The size-only check as written: the box's width and height at most the bitmap's. |
| CameraX.AdmissibleFitsSize | app/src/main/java/com/shaon2016/facerecongnition/CameraXManager.kt:212 | Every box `recognize` admits also passes this size-only check. |
| CameraX.SizeCheckIgnoresPosition | app/src/main/java/com/shaon2016/facerecongnition/CameraXManager.kt:212 | The size-only check passes a box that reaches outside the bitmap, and that `createBitmap` refuses. |

## Left out

- Camera acquisition, use-case binding and the lifecycle are left out, in both `CameraXManager` files. `MainActivity.kt` and `camera/DrawRect.kt` are left out too. These are Android I/O and UI.
- ML Kit face detection, MobileFaceNet, MaskDetector and the TFLite `Interpreter`, with its GPU delegate and model loading, are foreign code. The embedder and mask model are total functions given as parameters. The interpreter is a partial function whose failure stands for any exception it throws.
- `Bitmap.createBitmap`, `Bitmap.createScaledBitmap` and `BitmapUtils.getBitmap` are Android library calls. Their result is an input. Only the rule by which `createBitmap` throws is modelled. The `crop` field of `Recognition` (the cropped bitmap shown in the dialog) is not modelled.
- `camera/GraphicOverlay.kt` is not part of this model. The overlay's graphics list, its `areDimsInit` flag and its invalidations are modelled as the core code uses them.
- The dialog widgets are left out. Only the OK button's outcome is modelled. Cancelling a dialog (leaving it open forever) is not modelled.
- What happens after an exception leaves `onSuccess` is left out. Nothing in the app catches it, so the coroutine launched on `Dispatchers.Main` fails; the model reports the throw and stops there.
- Coroutine dispatch and cross-thread races on `isProcessing` and the pending flag are left out. Callbacks run as sequential method calls.
- Float rounding, `Math.sqrt` and NaN are left out, except in `aspectRatio`, where they decide the outcome and are written out. Distances are reals and are kept squared.
- HashMap iteration order is the order of the entry sequence. `put` overwrites in place and appends new names at the end. A real HashMap may reorder entries.
- The signature mismatch between `FaceContourDetectionProcessor.kt:29-35,75` and `FaceRecognitionProcessor.kt:22,44` is not modelled. The model follows each body as written. `recognize` takes a face and a bitmap, and never sets a graphic's `recognizedTitle`, so it stays "".
- `onFailure` of `FaceContourDetectionProcessor` only logs. It is the `FailureHandled` event, which changes no state.
- The mask model's output is discarded by `detectMask`. The model returns it so the call can be stated.
- `OUTPUT_SIZE` and `isModelQuantized` in `TfliteClassifierHelper.kt` are unused and are left out.
- Analyzer.BaseImageAnalyzer.Analyze: requires a frame id not seen before. Frame identity stands in for the `ImageProxy` object, so that "closed at most once" can be stated.
- FaceRecognition.FaceRecognitionProcessor.Recognize: requires the scaled bitmap to be 112×112, which `createScaledBitmap` guarantees. It also requires the recogniser's invariant that every embedding has the model's fixed length. `findNearest` indexes stored embeddings by the query's indices, so it would fail without this.
- Graphic.FaceContourGraphic.Draw: requires a non-zero frame size on the bootstrap path. With a zero size Kotlin divides by zero and gets Infinity or NaN factors, and the model does not represent those.

Where the code differs from a plain reading of the design, the model follows the code:

- Ties in `findNearest` go to the first entry in iteration order, not to a name order.
- `isProcessing` is not reset after a detection failure, or when the bitmap is null. A frame without a media image is never closed.
- The admission check does not demand a positive width or height. An empty or inverted box passes it, and `createBitmap` then throws out of `recognize` and `onSuccess`.
- The root `CameraXManager` crop check compares only sizes.

## Findings

| source | as written | input that shows it | evidently intended | confidence | as-written member | corrected member |
|---|---|---|---|---|---|---|
| app/src/main/java/com/shaon2016/facerecongnition/CameraXManager.kt:212 | Only the box's width and height are compared with the bitmap's; its left and top are ignored | Box (5,5)-(10,10) in an 8×8 bitmap passes the check, yet the crop starts at column 5 and needs columns up to 9 | The crop lies inside the bitmap, as the check at `face_detection/FaceRecognitionProcessor.kt:49` demands before its identical `createBitmap` call | not executed; high that the check admits such boxes, medium that `createBitmap` then throws | CameraX.SizeCheckIgnoresPosition | Crop.AdmissibleMeansInside |
