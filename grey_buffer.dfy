/** The model's input buffer built from the preprocessed image
    (`convertTensorImageToFloatBuffer`) and its rendering back into a bitmap for display
    (`convertFloatBufferToBitmap`). Both walk a row-major grid; float values are reals. */
module GreyBuffer {
  import JavaInt
  import opened GridIndex
  import opened Colors

  /** The grey value of one pixel: the mean of its three channels, scaled by 1/255.
      Channels in [0, 255] give a value in [0, 1], and a pixel that is already grey
      keeps its intensity on that scale. */
  function Grey(r: real, g: real, b: real): (v: real)
    ensures 0.0 <= r <= 255.0 && 0.0 <= g <= 255.0 && 0.0 <= b <= 255.0 ==> 0.0 <= v <= 1.0
    ensures r == g == b ==> v * 255.0 == r
  {
    (r + g + b) / 3.0 / 255.0
  }

  /** The grey value of cell k of an interleaved three-channel buffer. */
  function GreyOfCell(pixels: seq<real>, k: int): real
    requires 0 <= k && 3 * k + 2 < |pixels|
  {
    Grey(pixels[3 * k], pixels[3 * k + 1], pixels[3 * k + 2])
  }

  /** The first n grey cells of an interleaved three-channel buffer. When every channel
      value lies in [0, 255], every grey value lies in [0, 1]. */
  function GreyImage(pixels: seq<real>, n: nat): (grey: seq<real>)
    requires 3 * n <= |pixels|
    ensures |grey| == n
    ensures (forall i :: 0 <= i < |pixels| ==> 0.0 <= pixels[i] <= 255.0) ==>
              forall k :: 0 <= k < n ==> 0.0 <= grey[k] <= 1.0
  {
    seq(n, k requires 0 <= k < n => GreyOfCell(pixels, k))
  }

  /** Output cell k depends only on input cells 3k, 3k + 1 and 3k + 2. */
  lemma GreyImageIsLocal(p1: seq<real>, p2: seq<real>, n: nat, k: int)
    requires 3 * n <= |p1| && 3 * n <= |p2| && 0 <= k < n
    requires p1[3 * k..3 * k + 3] == p2[3 * k..3 * k + 3]
    ensures GreyImage(p1, n)[k] == GreyImage(p2, n)[k]
  {
    assert p1[3 * k] == p1[3 * k..3 * k + 3][0] && p1[3 * k + 1] == p1[3 * k..3 * k + 3][1];
    assert p1[3 * k + 2] == p1[3 * k..3 * k + 3][2];
  }

  /** `convertTensorImageToFloatBuffer`: for every cell (x, y) of a maxX-by-maxY grid,
      averages the three channels read at `(x + y * maxX) * 3` into cell `x + y * maxX`
      of a new buffer. Every read is in bounds, and every output cell is written. */
  method ConvertTensorImageToFloatBuffer(buffer: array<real>, maxX: nat, maxY: nat)
    returns (result: array<real>)
    requires 3 * (maxX * maxY) <= buffer.Length
    ensures fresh(result)
    ensures result[..] == GreyImage(buffer[..], maxX * maxY)
  {
    result := new real[maxX * maxY];
    for x := 0 to maxX
      invariant forall k :: 0 <= k < maxX * maxY && k % maxX < x ==>
                  result[k] == GreyOfCell(buffer[..], k)
    {
      for y := 0 to maxY
        invariant forall k :: 0 <= k < maxX * maxY && (k % maxX < x || (k % maxX == x && k / maxX < y)) ==>
                    result[k] == GreyOfCell(buffer[..], k)
      {
        var i := Cell(x, y, maxX, maxY) * 3;
        var r := buffer[i];
        var g := buffer[i + 1];
        var b := buffer[i + 2];
        forall k | 0 <= k < maxX * maxY && k % maxX == x && k / maxX == y
          ensures k == Cell(x, y, maxX, maxY)
        {
          CellOfIndex(k, maxX, maxY);
        }
        result[Cell(x, y, maxX, maxY)] := Grey(r, g, b);
      }
      forall k | 0 <= k < maxX * maxY
        ensures k / maxX < maxY
      {
        CellOfIndex(k, maxX, maxY);
      }
    }
  }

  /** The channel value written for grey value v, as the source computes it: `(int) (256 * v)`,
      the whole number of 256ths in v. Grey values in [0, 1) give an 8-bit channel; 1.0 gives 256. */
  function ChannelAsWritten(v: real): (c: int)
    ensures 0.0 <= v ==> 0 <= c && c as real <= 256.0 * v < c as real + 1.0
    ensures 0.0 <= v < 1.0 ==> InByteRange(c)
    ensures v == 1.0 ==> c == 256
  {
    JavaInt.Trunc(256.0 * v)
  }

  /** A white input pixel averages to exactly 1.0, which the rendering turns into channel
      value 256: one past the largest 8-bit channel value. */
  lemma WhiteOverflowsChannel()
    ensures Grey(255.0, 255.0, 255.0) == 1.0
    ensures !InByteRange(ChannelAsWritten(Grey(255.0, 255.0, 255.0)))
  {
  }

  /** The channel value for grey value v, clamped to 255: grey values in [0, 1] give an
      8-bit channel, and below 1.0 the value is the one the source computes. */
  function Channel(v: real): (c: int)
    ensures 0.0 <= v <= 1.0 ==> InByteRange(c)
    ensures 0.0 <= v < 1.0 ==> c == ChannelAsWritten(v)
  {
    var c := JavaInt.Trunc(256.0 * v);
    if c > 255 then 255 else c
  }

  /** `convertFloatBufferToBitmap`: a new sizeX-by-sizeY bitmap whose pixel (x, y) is the
      opaque grey rendering of buffer cell `x + y * sizeX`, with the channel computed as
      the source does (so a cell holding 1.0 gets channel 256). */
  method ConvertFloatBufferToBitmap(floatBuffer: array<real>, sizeX: nat, sizeY: nat)
    returns (bitmap: array2<Argb>)
    requires sizeX * sizeY <= floatBuffer.Length
    ensures fresh(bitmap)
    ensures bitmap.Length0 == sizeX && bitmap.Length1 == sizeY
    ensures forall x, y :: 0 <= x < sizeX && 0 <= y < sizeY ==>
              bitmap[x, y] == OpaqueGrey(ChannelAsWritten(floatBuffer[Cell(x, y, sizeX, sizeY)]))
  {
    bitmap := new Argb[sizeX, sizeY];
    for x := 0 to sizeX
      invariant forall x', y' :: 0 <= x' < x && 0 <= y' < sizeY ==>
                  bitmap[x', y'] == OpaqueGrey(ChannelAsWritten(floatBuffer[Cell(x', y', sizeX, sizeY)]))
    {
      for y := 0 to sizeY
        invariant forall x', y' :: 0 <= x' < sizeX && 0 <= y' < sizeY && (x' < x || (x' == x && y' < y)) ==>
                    bitmap[x', y'] == OpaqueGrey(ChannelAsWritten(floatBuffer[Cell(x', y', sizeX, sizeY)]))
      {
        var c := ChannelAsWritten(floatBuffer[Cell(x, y, sizeX, sizeY)]);
        bitmap[x, y] := OpaqueGrey(c);
      }
    }
  }
}
