/** The black-and-white pass of `MainActivity.preprocessImage`: each pixel's luminance is
    inverted (dark ink becomes bright) and anything dimmer than 120 is forced to black. */
module PreprocessImage {
  import JavaInt
  import opened Colors

  /** Inverted intensities below this are forced to black. */
  const Cutoff := 120

  /** `(int) (0.2989 * R + 0.5870 * G + 0.1140 * B)`, evaluated on exact reals. The weights
      add up to 0.9999, so 8-bit channels give at most 254. */
  function Luminance(p: Argb): (gray: int)
    ensures InByteRange(p.red) && InByteRange(p.green) && InByteRange(p.blue) ==> 0 <= gray <= 254
  {
    JavaInt.Trunc(0.2989 * p.red as real + 0.5870 * p.green as real + 0.1140 * p.blue as real)
  }

  /** `Math.abs(gray - 255)`: the distance from white. On 8-bit intensities it mirrors the
      scale, so black becomes 255 and white becomes 0. */
  function Invert(gray: int): (inverted: int)
    ensures inverted >= 0
    ensures InByteRange(gray) ==> InByteRange(inverted) && inverted + gray == 255
  {
    JavaInt.Abs(gray - 255)
  }

  /** `if (gray < 120) gray = 0`: keeps intensities from the cutoff up and blacks out the
      rest, so what comes out is black or at least the cutoff. */
  function Threshold(gray: int): (kept: int)
    ensures kept == 0 || Cutoff <= kept
    ensures Cutoff <= gray ==> kept == gray
    ensures kept != 0 ==> kept == gray
  {
    if gray < Cutoff then 0 else gray
  }

  /** The output intensity for a gray value: inverted, then thresholded. On [0, 255] a
      gray value turns black exactly when it is brighter than 135 (inverted below 120). */
  function Binarize(gray: int): (intensity: int)
    ensures InByteRange(gray) ==> (intensity == 0 <==> gray > 255 - Cutoff)
  {
    Threshold(Invert(gray))
  }

  /** The new pixel: same alpha, equal red, green and blue, and for 8-bit input an
      intensity that is either black or in [120, 255]. */
  function BlackAndWhite(p: Argb): (q: Argb)
    ensures q.alpha == p.alpha
    ensures q.red == q.green == q.blue
    ensures InByteRange(p.red) && InByteRange(p.green) && InByteRange(p.blue) ==>
              q.red == 0 || Cutoff <= q.red <= 255
  {
    var gray := Binarize(Luminance(p));
    Argb(p.alpha, gray, gray, gray)
  }

  /** For a gray value in [0, 255] the output is black or lies in [120, 255]. */
  lemma BinarizeRange(gray: int)
    requires InByteRange(gray)
    ensures Binarize(gray) == 0 || Cutoff <= Binarize(gray) <= 255
  {
  }

  /** The threshold is idempotent: applied to its own output it changes nothing. */
  lemma ThresholdIdempotent(gray: int)
    ensures Threshold(Threshold(gray)) == Threshold(gray)
  {
  }

  /** The cutoff boundary: an inverted intensity of 119 goes to black, 120 passes through;
      so gray 136 (inverted 119) is blacked out and gray 135 (inverted 120) is kept. */
  lemma CutoffBoundary()
    ensures Threshold(119) == 0 && Threshold(120) == 120
    ensures Binarize(136) == 0 && Binarize(135) == 120
  {
  }

  /** The nested loop of `preprocessImage` (before the final 28 by 28 rescale): a new
      bitmap of the same width and height whose pixel (x, y) is the black-and-white image
      of input pixel (x, y) alone. */
  method PreprocessImage(imageBitmap: array2<Argb>) returns (bmOut: array2<Argb>)
    ensures fresh(bmOut)
    ensures bmOut.Length0 == imageBitmap.Length0 && bmOut.Length1 == imageBitmap.Length1
    ensures forall x, y :: 0 <= x < bmOut.Length0 && 0 <= y < bmOut.Length1 ==>
              bmOut[x, y] == BlackAndWhite(imageBitmap[x, y])
  {
    var width := imageBitmap.Length0;
    var height := imageBitmap.Length1;
    bmOut := new Argb[width, height];
    for x := 0 to width
      invariant forall x', y' :: 0 <= x' < x && 0 <= y' < height ==>
                  bmOut[x', y'] == BlackAndWhite(imageBitmap[x', y'])
    {
      for y := 0 to height
        invariant forall x', y' :: 0 <= x' < width && 0 <= y' < height && (x' < x || (x' == x && y' < y)) ==>
                    bmOut[x', y'] == BlackAndWhite(imageBitmap[x', y'])
      {
        var pixel := imageBitmap[x, y];
        var a := pixel.alpha;
        var gray := Luminance(pixel);
        gray := JavaInt.Abs(gray - 255);
        if gray < Cutoff {
          gray := 0;
        }
        bmOut[x, y] := Argb(a, gray, gray, gray);
      }
    }
  }
}
