# AIDigits: the sequential core, modelled in Dafny

AIDigits is an Android app that photographs a handwritten digit, preprocesses the
picture and asks a TensorFlow Lite model which digit it shows. Almost all of the work
is done by library calls. This project models the parts the app computes itself and
proves what they guarantee:

- **Top-1 selection** (`ImageClassifier.calculateTopProbability`). The label-to-score map
  is a sequence of `(label, score)` entries in iteration order. The model shows that the
  loop returns the first entry holding the maximum score. When no score is positive it
  returns the sentinel `("", 0)`. The ten labels are `"0"` to `"9"`.
- **Grey buffer and its rendering** (`convertTensorImageToFloatBuffer`,
  `convertFloatBufferToBitmap`). Both are nested loops over a row-major grid with index
  `x + y * maxX`. The model proves that this index is a bijection onto `[0, maxX * maxY)`
  (module `GridIndex`). It also proves that every read is in bounds, that every output
  cell is written, and that cell k depends only on input cells 3k, 3k+1 and 3k+2.
  Both return newly allocated arrays. The rendering computes the channel as the code
  does, `(int) (256 * v)`, which overflows on white (see "## Findings").
- **`loadImage` parameters**. These are the crop side `min(width, height)`, the resize
  target, and the quarter turns `sensorOrientation / 90` under Java's truncating division
  (module `JavaInt`).
- **Classifier lifetime**. `ImageClassifier` is a class. Its invariant says the owned
  interpreter is either still held and never closed, or dropped and closed exactly once.
  `close` is idempotent. `recognizeImage` chains the modelled pieces. The inference engine
  is passed in as a function `run`. After `close`, `recognizeImage` fails on the null
  interpreter.
- **Black-and-white pass** (`MainActivity.preprocessImage`). Each pixel's luminance is
  inverted with `|gray - 255|` and then thresholded at 120. Alpha is kept and R = G = B.
  The output has the input's size, and pixel (x, y) depends only on input pixel (x, y).

Floats are modelled as reals. Java's `(int)` casts are modelled as truncation toward
zero (`JavaInt.Trunc`).

The model follows the code in three places where a reader might expect something else:

- An orientation that is not a multiple of 90 is not rejected. It is truncated (45 gives
  0 turns, -45 gives 0).
- Using a closed classifier does not raise a dedicated error. `recognizeImage`
  dereferences the null interpreter, and the model returns `NullInterpreter`.
- The grey value is the plain mean of the three channels divided by 255. The
  `IMAGE_MEAN`/`IMAGE_STD` normaliser is defined but never applied.

## Model

| member | source | states |
|---|---|---|
| `TopProbability.CalculateTopProbability` | app/src/main/java/com/example/aidigits/ImageClassifier.java:184-195 | the loop that starts from `("", 0)` and replaces the candidate only on a strictly greater score returns `Top(labelProb)` |
| `TopProbability.Top` | app/src/main/java/com/example/aidigits/ImageClassifier.java:185-193 | the selected score is at least 0 and at least every entry's score |
| `TopProbability.TopIsFirstMaximum` | app/src/main/java/com/example/aidigits/ImageClassifier.java:187-193 | the result is `("", 0)` exactly when no score is positive (this covers empty input); otherwise it is the first entry in iteration order that has the maximum score |
| `TopProbability.FirstMaximumIsTop` | app/src/main/java/com/example/aidigits/ImageClassifier.java:189-192 | whichever entry is the first maximum is the one returned, so earlier entries win ties |
| `TopProbability.TopComesFromEntries` | app/src/main/java/com/example/aidigits/ImageClassifier.java:190-191 | a non-empty returned label is the key of an entry whose score is the returned probability |
| `TopProbability.Step` | app/src/main/java/com/example/aidigits/ImageClassifier.java:189-192 | one loop turn: the candidate's score never drops and ends at least the entry's score; the result is the old candidate or the entry, and an equal score keeps the old candidate |
| `TopProbability.LabelsDistinct` | app/src/main/java/com/example/aidigits/ImageClassifier.java:52 | no label of `"0"` to `"9"` occurs twice |
| `TopProbability.LabelProbabilitiesIsMap` | app/src/main/java/com/example/aidigits/ImageClassifier.java:204-206 | with distinct labels, the entries form a faithful label-to-score map: the score under label i is score i, and a key that is no label finds nothing |
| `TopProbability.ArgmaxExample` | app/src/main/java/com/example/aidigits/ImageClassifier.java:184-195 | scores 0.1, 0.05, 0.3 and seven zeros select label "2" with 0.3 |
| `TopProbability.TieBreakExample` | app/src/main/java/com/example/aidigits/ImageClassifier.java:189 | equal maxima 0.5 at labels "3" and "7" select "3" |
| `GridIndex.Cell` | app/src/main/java/com/example/aidigits/ImageClassifier.java:158-164 | index `x + y * maxX` of a cell in the grid lies in `[0, maxX * maxY)`, and `k % maxX`, `k / maxX` recover (x, y) |
| `GridIndex.CellOfIndex` | app/src/main/java/com/example/aidigits/ImageClassifier.java:155-165 | every index below `maxX * maxY` is the index of a grid cell, so the layout is onto |
| `GridIndex.CellInjective` | app/src/main/java/com/example/aidigits/ImageClassifier.java:164 | two cells with the same index are the same cell, so no cell is written twice |
| `GreyBuffer.Grey` | app/src/main/java/com/example/aidigits/ImageClassifier.java:163 | channels in [0, 255] give a grey value in [0, 1]; a grey pixel keeps its intensity on that scale |
| `GreyBuffer.GreyImage` | app/src/main/java/com/example/aidigits/ImageClassifier.java:155-166 | the buffer has `maxX * maxY` cells, each in [0, 1] when every channel is in [0, 255] |
| `GreyBuffer.GreyImageIsLocal` | app/src/main/java/com/example/aidigits/ImageClassifier.java:158-164 | output cell k depends only on input cells 3k, 3k+1, 3k+2 |
| `GreyBuffer.ConvertTensorImageToFloatBuffer` | app/src/main/java/com/example/aidigits/ImageClassifier.java:147-170 | with at least `3 * maxX * maxY` input floats, all reads are in bounds and the result is a newly allocated array holding the grey image of the input, cell for cell |
| `GreyBuffer.WhiteOverflowsChannel` | app/src/main/java/com/example/aidigits/ImageClassifier.java:176 | as written, a white pixel (grey exactly 1.0) renders with channel value 256, outside the 8-bit range |
| `GreyBuffer.ChannelAsWritten` | app/src/main/java/com/example/aidigits/ImageClassifier.java:176 | `(int) (256 * v)` is the whole number of 256ths in v: an 8-bit channel for v in [0, 1), but 256 for v = 1.0 |
| `GreyBuffer.Channel` | app/src/main/java/com/example/aidigits/ImageClassifier.java:176 | corrected rendering (proved, not used by the rendering methods): grey values in [0, 1] give a channel in [0, 255], equal to `(int) (256 * v)` below 1.0 |
| `GreyBuffer.ConvertFloatBufferToBitmap` | app/src/main/java/com/example/aidigits/ImageClassifier.java:172-182 | a newly allocated sizeX by sizeY bitmap whose pixel (x, y) is the opaque grey of buffer cell `x + y * sizeX`, with channel `(int) (256 * v)` as written |
| `JavaInt.Div` | app/src/main/java/com/example/aidigits/ImageClassifier.java:133 | for a positive divisor, Java's `/` rounds toward zero: `q * b <= a < q * b + b` for a >= 0 and `q * b - b < a <= q * b` for a < 0 |
| `JavaInt.DivRem` | app/src/main/java/com/example/aidigits/ImageClassifier.java:133 | Java's `/` and `%` satisfy `(a / b) * b + a % b == a`, with a remainder smaller than the divisor and of the dividend's sign (truncation toward zero) |
| `JavaInt.Trunc` | app/src/main/java/com/example/aidigits/ImageClassifier.java:176 | the `(int)` cast drops the fractional part toward zero |
| `JavaInt.Abs` | app/src/main/java/com/example/aidigits/MainActivity.java:137 | `Math.abs` is non-negative and equals the argument or its negation |
| `LoadImage.CropSize` | app/src/main/java/com/example/aidigits/ImageClassifier.java:129 | the crop side is at most the width and at most the height, and equals one of them |
| `LoadImage.QuarterTurns` | app/src/main/java/com/example/aidigits/ImageClassifier.java:133 | `sensorOrientation / 90` is rounded toward zero: `90 * t <= s < 90 * t + 90` for s >= 0, and the mirror image for s < 0 |
| `LoadImage.QuarterTurnsOfRightAngles` | app/src/main/java/com/example/aidigits/ImageClassifier.java:133 | `90 * k` degrees gives k turns, so 0, 90, 180, 270 give 0, 1, 2, 3 |
| `LoadImage.QuarterTurnsTruncate` | app/src/main/java/com/example/aidigits/ImageClassifier.java:133 | -45 degrees gives 0 turns, where Euclidean division would give -1 |
| `LoadImage.LoadImageOps` | app/src/main/java/com/example/aidigits/ImageClassifier.java:124-142 | the square crop fits the bitmap, the resize target is the model's input size, and orientations in [0, 360) give 0 to 3 turns (exactly s / 90 for multiples of 90) |
| `Classifier.ImageClassifier.constructor` | app/src/main/java/com/example/aidigits/ImageClassifier.java:88-96 | a fresh, unclosed interpreter is held, and the model size is read from input shape indices 2 (X) and 1 (Y) |
| `Classifier.ImageClassifier.Close` | app/src/main/java/com/example/aidigits/ImageClassifier.java:213-219 | afterwards the interpreter field is null and the interpreter has been closed exactly once; a second call leaves it untouched |
| `Classifier.ImageClassifier.RecognizeImage` | app/src/main/java/com/example/aidigits/ImageClassifier.java:198-211 | fails exactly when the interpreter is null; otherwise the prediction is the first maximum of the labelled scores for the grey buffer, and the bitmap is new and shows cell `x + y * X` at pixel (x, y), with channel `(int) (256 * v)` as written |
| `Classifier.CloseTwiceThenRecognize` | app/src/main/java/com/example/aidigits/ImageClassifier.java:198-219 | closing twice closes the interpreter once, and a later recognition fails |
| `PreprocessImage.Luminance` | app/src/main/java/com/example/aidigits/MainActivity.java:136 | for 8-bit channels the truncated luminance lies in [0, 254] (the weights sum to 0.9999) |
| `PreprocessImage.Invert` | app/src/main/java/com/example/aidigits/MainActivity.java:137 | `|gray - 255|` is non-negative; on [0, 255] it mirrors the scale (`inverted + gray == 255`) |
| `PreprocessImage.Threshold` | app/src/main/java/com/example/aidigits/MainActivity.java:138 | the output is 0 or at least 120; values from 120 up pass unchanged, and any non-zero output is the input |
| `PreprocessImage.Binarize` | app/src/main/java/com/example/aidigits/MainActivity.java:137-138 | on [0, 255], a gray value turns black exactly when it is brighter than 135 (its inversion is below 120) |
| `PreprocessImage.BlackAndWhite` | app/src/main/java/com/example/aidigits/MainActivity.java:131-140 | the new pixel keeps alpha, has R = G = B, and for 8-bit input is black or in [120, 255] |
| `PreprocessImage.BinarizeRange` | app/src/main/java/com/example/aidigits/MainActivity.java:137-138 | for gray in [0, 255] the output intensity is 0 or in [120, 255] |
| `PreprocessImage.ThresholdIdempotent` | app/src/main/java/com/example/aidigits/MainActivity.java:138 | thresholding its own output changes nothing |
| `PreprocessImage.CutoffBoundary` | app/src/main/java/com/example/aidigits/MainActivity.java:138 | inverted 119 becomes 0 and inverted 120 stays 120 |
| `PreprocessImage.PreprocessImage` | app/src/main/java/com/example/aidigits/MainActivity.java:121-142 | the output is a new bitmap with the input's width and height, and pixel (x, y) is the black-and-white image of input pixel (x, y) alone |

## Left out

- TensorFlow Lite itself is not modelled: creating the `Interpreter`, reading its tensor shapes, and `run`. `run` is the parameter `run` of `RecognizeImage`. The input shape is a constructor parameter.
- `NormalizeOp(0, 1)` post-processing is the identity on exact values, so it is omitted. The unused `NormalizeOp(127.5, 127.5)` pre-processor is omitted too.
- `TensorLabel`'s map is assumed to iterate in label order. `LabelProbabilities` models it under that assumption, because its implementation is not part of this model.
- `ResizeWithCropOrPadOp`, `ResizeOp` and `Rot90Op` belong to the image library. Only their arguments are modelled. So the claim that four quarter turns restore the image is not modelled.
- Floating-point rounding is not modelled. Values are exact reals. `NaN` and infinite scores are not modelled, and neither is the saturation of `(int)` casts.
- `PreprocessImage.Luminance`: evaluates the weights on exact reals. With doubles, a weighted sum whose exact value is an integer can round just below it and truncate one lower.
- Android's `Bitmap` and `Color` pixel packing is not modelled. A pixel is an `Argb` of four ints.
- The `Canvas`/`ColorMatrix` contrast stage (MainActivity.java:103-119) is not modelled, because its output `ret` is never read. The loop reads the input bitmap, and `PreprocessImage` takes only that bitmap.
- The final `Matrix.postScale` resize to 28 by 28 (MainActivity.java:143-154) is a filtered library resize. It is not modelled.
- The UI and I/O are not modelled: camera intents, button handlers, `TextView`/`Toast`, the random choice of test asset, `loadModel`, and every `Log` call.
- The thread count is only passed to the library. The model stores it; concurrency is not modelled.
- `Classifier.ImageClassifier.RecognizeImage`: takes the output of `loadImage` as a parameter. So the assignment of that output to the `inputImageBuffer` field (ImageClassifier.java:199) is not modelled. The method requires the loaded image to have as many cells as the model's input, which the resize guarantees. With fewer cells, Java would throw an index-out-of-bounds exception, and that path is not modelled.
- `Classifier.ImageClassifier.constructor`: requires an input shape with at least three entries. With a shorter shape, Java would throw an index-out-of-bounds exception at ImageClassifier.java:95-96. This is a fault of the model file, and that path is not modelled.
- `Classifier.ImageClassifier.RecognizeImage`: requires the engine to give exactly one score per label. `TensorLabel` (ImageClassifier.java:205) rejects a count mismatch. This is a configuration fault, and that path is not modelled.
- `GreyBuffer.ConvertTensorImageToFloatBuffer`: requires a buffer of at least `3 * maxX * maxY` floats, which the loaded image always has. A shorter buffer would make Java throw, and that is not modelled.

## Findings

The rendering methods keep the channel as written, so that they model the code.
`GreyBuffer.WhiteOverflowsChannel` exhibits the overflow, and the corrected
`GreyBuffer.Channel` is proved to stay in range.

| source | as written | input that shows it | evidently intended | confidence | as-written member | corrected member |
|---|---|---|---|---|---|---|
| app/src/main/java/com/example/aidigits/ImageClassifier.java:176 | `(int) (256 * v)` is used as an 8-bit channel value | a white pixel (255, 255, 255) averages to exactly 1.0 (also in float arithmetic), giving channel 256; Android's packing, which ORs red shifted by 16, green shifted by 8 and blue into an opaque int, turns `Color.rgb(256, 256, 256)` into 0xFF010100, so a white stroke displays as near-black (1, 1, 0) | channel values stay in [0, 255]; the corrected rendering clamps at 255 | medium; not executed | `GreyBuffer.ChannelAsWritten` | `GreyBuffer.Channel` |
