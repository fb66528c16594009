/** Rectangles in the two coordinate systems the detectors use. */
module Geometry {

  /** A rectangle in frame-relative coordinates (an `ImageFloatBox`). The
      C++ `ImageFloatBox` stores doubles; the model uses exact reals. */
  datatype FloatBox = FloatBox(x: real, y: real, width: real, height: real) {
    function MaxX(): real { x + width }
    function MaxY(): real { y + height }

    /** The box lies inside the unit square, touching allowed. */
    predicate InsideFrame() {
      0.0 <= x && 0.0 <= y && 0.0 <= width && 0.0 <= height && MaxX() <= 1.0 && MaxY() <= 1.0
    }
  }

  /** A rectangle in one image's pixel coordinates (an `ImagePixelBox`):
      `minX` and `minY` inclusive, `maxX` and `maxY` exclusive. */
  datatype PixelBox = PixelBox(minX: nat, minY: nat, maxX: nat, maxY: nat) {
    function Width(): int { maxX - minX }
    function Height(): int { maxY - minY }
  }
}
