/** Colours as the client stores them. */
module Pixels {
  import opened Machine

  datatype Bgr = Bgr(b: Byte, g: Byte, r: Byte)

  /** Four bytes of a surface; the last one is not shown. */
  datatype Pixel = Pixel(b: Byte, g: Byte, r: Byte, x: Byte)

  function Opaque(c: Bgr): Pixel {
    Pixel(c.b, c.g, c.r, 0xFF)
  }
}
