/** Real arithmetic shared by the geometry of the detector, the corner editor
    and the image compressor. */
module Arith {

  /** `Math.min` on two reals. */
  function Min(a: real, b: real): real {
    if a <= b then a else b
  }
}
