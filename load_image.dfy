/** The parameters `loadImage` computes for the image operations it chains: a centred
    square crop, a nearest-neighbour resize to the model's input size and a rotation by
    whole quarter turns. The operations themselves belong to the image library and are
    not modelled; only their arguments are. */
module LoadImage {
  import JavaInt

  /** Side of the square crop: `Math.min(width, height)`, the largest square that fits. */
  function CropSize(width: int, height: int): (side: int)
    ensures side <= width && side <= height
    ensures side == width || side == height
  {
    if width <= height then width else height
  }

  /** Quarter turns for a sensor orientation in degrees: `sensorOrientation / 90` with
      Java's division, which truncates toward zero. */
  function QuarterTurns(sensorOrientation: int): (turns: int)
    ensures 0 <= sensorOrientation ==> 90 * turns <= sensorOrientation < 90 * turns + 90
    ensures sensorOrientation < 0 ==> 90 * turns - 90 < sensorOrientation <= 90 * turns
  {
    JavaInt.Div(sensorOrientation, 90)
  }

  /** A whole number of right angles gives that many quarter turns, in either direction:
      0, 90, 180 and 270 degrees give 0, 1, 2 and 3. */
  lemma QuarterTurnsOfRightAngles(k: int)
    ensures QuarterTurns(90 * k) == k
  {
    var t := QuarterTurns(90 * k);
    if 0 <= k {
      assert 90 * t <= 90 * k < 90 * t + 90;
    } else {
      assert 90 * t - 90 < 90 * k <= 90 * t;
    }
  }

  /** Where truncation and Euclidean division part: -45 degrees is no turn at all in
      Java, while Dafny's own `/` would give -1. */
  lemma QuarterTurnsTruncate()
    ensures QuarterTurns(-45) == 0 && -45 / 90 == -1
  {
  }

  /** The arguments of the three image operations `loadImage` builds. */
  datatype ImageOps = ImageOps(cropSide: int, resizeX: int, resizeY: int, quarterTurns: int)

  /** The operations for a width-by-height bitmap, a sensor orientation and the model's
      input size: a square crop no larger than the bitmap, a resize to exactly the
      model's size, and the quarter turns for the orientation. */
  function LoadImageOps(width: int, height: int, sensorOrientation: int,
                        modelImageSizeX: int, modelImageSizeY: int): (ops: ImageOps)
    ensures ops.cropSide <= width && ops.cropSide <= height
    ensures ops.cropSide == width || ops.cropSide == height
    ensures ops.resizeX == modelImageSizeX && ops.resizeY == modelImageSizeY
    ensures 0 <= sensorOrientation < 360 ==> 0 <= ops.quarterTurns < 4
    ensures sensorOrientation % 90 == 0 ==> 90 * ops.quarterTurns == sensorOrientation
  {
    var turns := QuarterTurns(sensorOrientation);
    assert sensorOrientation % 90 == 0 ==> 90 * turns == sensorOrientation by {
      if sensorOrientation % 90 == 0 {
        QuarterTurnsOfRightAngles(sensorOrientation / 90);
      }
    }
    ImageOps(CropSize(width, height), modelImageSizeX, modelImageSizeY, turns)
  }
}
