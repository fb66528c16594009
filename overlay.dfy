/** Debug overlays: a detector only ever appends boxes to a set of items;
    drawing them is outside the model. */
module Overlay {
  import opened Geometry

  /** A 32-bit ARGB colour. */
  datatype Color = Color(argb: bv32)

  const Magenta := Color(0xffff00ff)

  datatype OverlayItem = OverlayItem(color: Color, box: FloatBox)

  /** A handle that keeps one box drawn on the live overlay while it exists
      (an `OverlayBoxScope`). */
  datatype OverlayBoxScope = OverlayBoxScope(box: FloatBox, color: Color)

  /** The collection `make_overlays` fills in (a `VideoOverlaySet`). */
  class VideoOverlaySet {
    var items: seq<OverlayItem>

    constructor ()
      ensures items == []
    {
      items := [];
    }

    method Add(color: Color, box: FloatBox)
      modifies this
      ensures items == old(items) + [OverlayItem(color, box)]
    {
      items := items + [OverlayItem(color, box)];
    }
  }
}
