/** Pixels as Android bitmaps hold them, one value per channel. */
module Colors {

  /** A pixel's alpha, red, green and blue channels. How `Color.argb` packs them into
      one int is not modelled. */
  datatype Argb = Argb(alpha: int, red: int, green: int, blue: int)

  /** The range of one 8-bit channel. */
  predicate InByteRange(c: int)
  {
    0 <= c <= 255
  }

  /** `Color.rgb(c, c, c)`: a fully opaque grey of intensity c. */
  function OpaqueGrey(c: int): Argb
  {
    Argb(255, c, c, c)
  }
}
