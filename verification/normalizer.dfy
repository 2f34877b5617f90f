/**
 * Conversion of an S x S bitmap of packed ARGB pixels into the float input
 * tensor of a TFLite model: S*S*3 values (channel - 128) / 128, row-major,
 * R, G, B per pixel. The same routine is used with S = 112 (face
 * embedding), 224 (mask detection) and 160 (the classifier helper).
 */
module Normalizer {
  const ImageMean: real := 128.0
  const ImageStd: real := 128.0

  /** A bitmap: width, height and its pixels as Kotlin Ints, row-major. */
  datatype Bitmap = Bitmap(width: nat, height: nat, pixels: seq<int>)

  predicate WellFormed(b: Bitmap) {
    |b.pixels| == b.width * b.height
  }

  /** The bitmap that Bitmap.createScaledBitmap(_, size, size, _) returns has this shape. */
  predicate IsScaledTo(b: Bitmap, size: nat) {
    b.width == size && b.height == size && WellFormed(b)
  }

  /**
   * Channel extraction `(v shr k) and 0xFF`. Kotlin's `shr` is an arithmetic
   * shift, i.e. floor division by 2^k, and `and 0xFF` keeps the low byte;
   * Dafny's `/` and `%` by a positive constant are exactly floor division and
   * the non-negative remainder, so negative (alpha >= 0x80) pixels are covered.
   */
  function RedByte(v: int): int { (v / 0x1_0000) % 0x100 }
  function GreenByte(v: int): int { (v / 0x100) % 0x100 }
  function BlueByte(v: int): int { v % 0x100 }

  /** Channel c of pixel v: 0 = red, 1 = green, 2 = blue. */
  function ChannelByte(v: int, c: int): int {
    if c == 0 then RedByte(v) else if c == 1 then GreenByte(v) else BlueByte(v)
  }

  function Normalize(c: int): real {
    (c as real - ImageMean) / ImageStd
  }

  /** The inverse of Normalize. */
  function Denormalize(x: real): real {
    x * ImageStd + ImageMean
  }

  /** The three floats one pixel contributes, in R, G, B order. */
  function PixelValues(v: int): seq<real> {
    [Normalize(RedByte(v)), Normalize(GreenByte(v)), Normalize(BlueByte(v))]
  }

  /** The tensor of a row-major pixel sequence: the pixels' triples, concatenated in order. */
  function Tensor(px: seq<int>): (r: seq<real>)
    ensures |r| == 3 * |px|
    decreases |px|
  {
    if px == [] then [] else Tensor(px[..|px| - 1]) + PixelValues(px[|px| - 1])
  }

  /** Bytes the source allocates for the direct ByteBuffer: four per float. */
  function ByteCapacity(inputSize: nat): nat {
    4 * inputSize * inputSize * 3
  }

  /** Number of elements of a tensor of the given shape. */
  function Elements(shape: seq<nat>): nat {
    if shape == [] then 1 else shape[0] * Elements(shape[1..])
  }

  /** The byte size is that of 3 * S * S floats. */
  lemma CapacityHoldsTensor(inputSize: nat)
    ensures ByteCapacity(inputSize) == 4 * (3 * (inputSize * inputSize))
  {
  }

  /** The shape [1, S, S, 3] of a FLOAT32 image tensor. */
  function ImageShape(inputSize: nat): seq<nat> {
    [1, inputSize, inputSize, 3]
  }

  /**
   * The buffer holds exactly the bytes of a FLOAT32 tensor of shape
   * [1, S, S, 3], so TensorBuffer.loadBuffer accepts it.
   */
  lemma CapacityFitsImageShape(inputSize: nat)
    ensures ByteCapacity(inputSize) == 4 * Elements(ImageShape(inputSize))
  {
    var shape := ImageShape(inputSize);
    assert shape[1..][1..][1..] == [3];
    assert shape[1..][1..][1..][1..] == [];
    assert Elements([3]) == 3 by {
      assert [3][1..] == [];
    }
    assert Elements(shape[1..][1..]) == inputSize * 3;
    assert Elements(shape[1..]) == inputSize * (inputSize * 3);
    CapacityHoldsTensor(inputSize);
  }

  /**
   * The IntArray of size*size pixels after Bitmap.getPixels with stride =
   * width: the bitmap's pixels row-major, then the array's initial zeros.
   */
  function GetPixels(b: Bitmap, size: nat): (r: seq<int>)
    requires WellFormed(b) && b.width * b.height <= size * size
    ensures |r| == size * size
    ensures r[..|b.pixels|] == b.pixels
    ensures forall k :: |b.pixels| <= k < |r| ==> r[k] == 0
  {
    b.pixels + seq(size * size - |b.pixels|, _ => 0)
  }

  /** An exactly S x S bitmap fills the array with nothing left over. */
  lemma GetPixelsOfScaled(b: Bitmap, size: nat)
    requires IsScaledTo(b, size)
    ensures GetPixels(b, size) == b.pixels
  {
  }

  /** Element k of the tensor is channel k % 3 of pixel k / 3. */
  lemma {:induction false} TensorAt(px: seq<int>, k: int)
    requires 0 <= k < 3 * |px|
    ensures Tensor(px)[k] == Normalize(ChannelByte(px[k / 3], k % 3))
    decreases |px|
  {
    var n := |px| - 1;
    if k < 3 * n {
      TensorAt(px[..n], k);
      assert px[..n][k / 3] == px[k / 3];
    } else {
      assert k / 3 == n;
    }
  }

  /** A channel byte normalises into [-1, 127/128]. */
  lemma NormalizeRange(c: int)
    requires 0 <= c < 0x100
    ensures -1.0 <= Normalize(c) <= 127.0 / 128.0
  {
  }

  /** Every value of the tensor lies in [-1, 127/128]. */
  lemma TensorRange(px: seq<int>, k: int)
    requires 0 <= k < |Tensor(px)|
    ensures -1.0 <= Tensor(px)[k] <= 127.0 / 128.0
  {
    TensorAt(px, k);
    NormalizeRange(ChannelByte(px[k / 3], k % 3));
  }

  /**
   * Nothing is lost: the three floats of pixel i give back its red, green
   * and blue bytes.
   */
  lemma TensorRecoversChannels(px: seq<int>, i: int)
    requires 0 <= i < |px|
    ensures Denormalize(Tensor(px)[3 * i]) == RedByte(px[i]) as real
    ensures Denormalize(Tensor(px)[3 * i + 1]) == GreenByte(px[i]) as real
    ensures Denormalize(Tensor(px)[3 * i + 2]) == BlueByte(px[i]) as real
  {
    TensorAt(px, 3 * i);
    TensorAt(px, 3 * i + 1);
    TensorAt(px, 3 * i + 2);
  }

  /** Color.argb(a, r, g, b) seen as a 32-bit signed Kotlin Int. */
  function Argb(a: int, r: int, g: int, b: int): int {
    var u := a * 0x100_0000 + r * 0x1_0000 + g * 0x100 + b;
    if u >= 0x8000_0000 then u - 0x1_0000_0000 else u
  }

  /** The channel extraction undoes Color.argb for every alpha, including negative Ints. */
  lemma ChannelsOfArgb(a: int, r: int, g: int, b: int)
    requires 0 <= a < 0x100 && 0 <= r < 0x100 && 0 <= g < 0x100 && 0 <= b < 0x100
    ensures RedByte(Argb(a, r, g, b)) == r
    ensures GreenByte(Argb(a, r, g, b)) == g
    ensures BlueByte(Argb(a, r, g, b)) == b
  {
    var v := Argb(a, r, g, b);
    var hi := if a >= 0x80 then a - 0x100 else a;
    assert v == hi * 0x100_0000 + r * 0x1_0000 + g * 0x100 + b;
    assert v / 0x1_0000 == hi * 0x100 + r;
    assert v / 0x100 == (hi * 0x100 + r) * 0x100 + g;
    assert v == ((hi * 0x100 + r) * 0x100 + g) * 0x100 + b;
  }

  /** The tensor of a zero pixel (getPixels' padding) is -1 in every channel. */
  lemma PaddingIsMinusOne(px: seq<int>, k: int)
    requires 0 <= k < 3 * |px| && px[k / 3] == 0
    ensures Tensor(px)[k] == -1.0
  {
    TensorAt(px, k);
    assert RedByte(0) == 0 && GreenByte(0) == 0 && BlueByte(0) == 0;
    assert ChannelByte(px[k / 3], k % 3) == 0;
    assert Normalize(0) == -1.0;
  }

  lemma RowMajorBound(i: nat, j: nat, n: nat)
    requires i < n && j <= n
    ensures i * n + j <= n * n
    ensures j < n ==> i * n + j < n * n
    ensures i * n + n == (i + 1) * n
  {
    assert (i + 1) * n <= n * n;
  }

  /** Three putFloat calls for one pixel at float position pos. */
  method PutPixel(byteBuffer: array<real>, pos: nat, v: int)
    requires pos + 3 <= byteBuffer.Length
    modifies byteBuffer
    ensures byteBuffer[..pos + 3] == old(byteBuffer[..pos]) + PixelValues(v)
  {
    byteBuffer[pos] := (RedByte(v) as real - ImageMean) / ImageStd;
    byteBuffer[pos + 1] := (GreenByte(v) as real - ImageMean) / ImageStd;
    byteBuffer[pos + 2] := (BlueByte(v) as real - ImageMean) / ImageStd;
  }

  /** Extending the pixel prefix by one pixel extends the tensor by its triple. */
  lemma TensorStep(px: seq<int>, n: nat)
    requires n < |px|
    ensures Tensor(px[..n + 1]) == Tensor(px[..n]) + PixelValues(px[n])
  {
    assert px[..n + 1][..n] == px[..n];
  }

  /** `IntArray(size * size)` filled by `bitmap.getPixels(intValues, 0, bitmap.width, 0, 0, bitmap.width, bitmap.height)`. */
  method ReadPixels(bitmap: Bitmap, size: nat) returns (intValues: array<int>)
    requires WellFormed(bitmap) && bitmap.width * bitmap.height <= size * size
    ensures fresh(intValues)
    ensures intValues[..] == GetPixels(bitmap, size)
  {
    intValues := new int[size * size](_ => 0);
    forall k | 0 <= k < |bitmap.pixels| {
      intValues[k] := bitmap.pixels[k];
    }
    assert intValues[..] == GetPixels(bitmap, size);
  }

  /**
   * The inner loop of convertBitmapToByteBuffer: one row of `width` pixels,
   * read with the running index `pixel`, three floats each.
   */
  method PutRow(byteBuffer: array<real>, intValues: array<int>, pixel: nat, width: nat) returns (next: nat)
    requires pixel + width <= intValues.Length && byteBuffer.Length == 3 * intValues.Length
    requires byteBuffer[..3 * pixel] == Tensor(intValues[..pixel])
    modifies byteBuffer
    ensures next == pixel + width
    ensures byteBuffer[..3 * next] == Tensor(intValues[..next])
  {
    next := pixel;
    for j := 0 to width
      invariant next == pixel + j
      invariant byteBuffer[..3 * next] == Tensor(intValues[..next])
    {
      var v := intValues[next];
      PutPixel(byteBuffer, 3 * next, v);
      TensorStep(intValues[..], next);
      assert intValues[..][..next + 1] == intValues[..next + 1];
      next := next + 1;
    }
  }

  /**
   * convertBitmapToByteBuffer: copy the bitmap into an IntArray of S*S
   * pixels, then write three floats per pixel with a running pixel index,
   * row by row. The buffer is returned as floats; its byte size is 4 per float.
   */
  method ConvertBitmapToByteBuffer(bitmap: Bitmap, inputSize: nat) returns (byteBuffer: array<real>)
    requires WellFormed(bitmap) && bitmap.width * bitmap.height <= inputSize * inputSize
    ensures fresh(byteBuffer)
    ensures 4 * byteBuffer.Length == ByteCapacity(inputSize)
    ensures byteBuffer[..] == Tensor(GetPixels(bitmap, inputSize))
  {
    var total := inputSize * inputSize;
    byteBuffer := new real[3 * total];
    CapacityHoldsTensor(inputSize);
    var intValues := ReadPixels(bitmap, inputSize);
    ghost var pixels := intValues[..];
    var pixel := 0;
    for i := 0 to inputSize
      modifies byteBuffer
      invariant pixel == i * inputSize <= total
      invariant byteBuffer[..3 * pixel] == Tensor(intValues[..pixel])
    {
      RowMajorBound(i, inputSize, inputSize);
      pixel := PutRow(byteBuffer, intValues, pixel, inputSize);
    }
    assert pixel == intValues.Length;
    assert intValues[..pixel] == pixels;
    assert byteBuffer[..] == byteBuffer[..3 * pixel];
  }
}
