/**
 * The conversions between the editors' screen boxes and PDF user space.
 * The screen has its origin at the top-left corner of the rendered page with
 * y growing downward, in displayed pixels; PDF user space has its origin at
 * the bottom-left corner with y growing upward, in points (section 8.3.2.3
 * of ISO 32000-1). The ratio between them is page points over displayed
 * pixels, one per axis. Arithmetic is exact over `real`.
 */
module Coordinates {
  import opened Wrappers

  datatype Point = Point(x: real, y: real)

  /** A box given by its lower-left corner (PDF) or its upper-left corner (screen). */
  datatype Rect = Rect(x: real, y: real, width: real, height: real)

  /** A rendered page: its size in points and its displayed size in pixels. */
  datatype View = View(pageWidth: real, pageHeight: real, displayedWidth: real, displayedHeight: real)

  predicate Displayed(v: View) {
    v.displayedWidth > 0.0 && v.displayedHeight > 0.0
  }

  function RatioX(v: View): real
    requires Displayed(v)
  {
    v.pageWidth / v.displayedWidth
  }

  function RatioY(v: View): real
    requires Displayed(v)
  {
    v.pageHeight / v.displayedHeight
  }

  /** A screen point in PDF user space: both axes scaled, y flipped. */
  function ToPdf(v: View, p: Point): Point
    requires Displayed(v)
  {
    Point(p.x * RatioX(v), v.pageHeight - p.y * RatioY(v))
  }

  /** A PDF point on the screen. */
  function ToScreen(v: View, p: Point): Point
    requires Displayed(v) && v.pageWidth > 0.0 && v.pageHeight > 0.0
  {
    Point(p.x / RatioX(v), (v.pageHeight - p.y) / RatioY(v))
  }

  /** The two maps are inverse to each other on a page of positive size. */
  lemma ScreenRoundTrip(v: View, p: Point)
    requires Displayed(v) && v.pageWidth > 0.0 && v.pageHeight > 0.0
    ensures ToScreen(v, ToPdf(v, p)) == p
    ensures ToPdf(v, ToScreen(v, p)) == p
  {
    assert RatioX(v) > 0.0 && RatioY(v) > 0.0;
  }

  function Max0(a: real): (m: real)
    ensures m >= 0.0 && m >= a && (m == a || m == 0.0)
  {
    if a >= 0.0 then a else 0.0
  }

  /**
   * `updateSelection` of the redaction editor: the dragged box, with its
   * position clamped to be non-negative, in points with a lower-left origin.
   */
  function RedactionRect(v: View, dragX: real, dragY: real, width: real, height: real): (r: Rect)
    requires Displayed(v)
    ensures r.width == width * RatioX(v) && r.height == height * RatioY(v)
  {
    var x, y := Max0(dragX), Max0(dragY);
    Rect(x * RatioX(v), v.pageHeight - y * RatioY(v) - height * RatioY(v), width * RatioX(v), height * RatioY(v))
  }

  /**
   * The PDF box has the clamped screen box's corners: its lower-left corner
   * is the screen's bottom-left, its top edge the flipped screen top edge.
   */
  lemma RedactionCorners(v: View, dragX: real, dragY: real, width: real, height: real)
    requires Displayed(v)
    ensures var r, x, y := RedactionRect(v, dragX, dragY, width, height), Max0(dragX), Max0(dragY);
      Point(r.x, r.y) == ToPdf(v, Point(x, y + height)) &&
      Point(r.x + r.width, r.y + r.height) == ToPdf(v, Point(x + width, y)) &&
      r.y + r.height == v.pageHeight - y * RatioY(v)
  {
  }

  /** A box drawn inside the displayed page covers a part of the page in points. */
  lemma RedactionInsidePage(v: View, dragX: real, dragY: real, width: real, height: real)
    requires Displayed(v) && v.pageWidth >= 0.0 && v.pageHeight >= 0.0
    requires 0.0 <= dragX && 0.0 <= width && dragX + width <= v.displayedWidth
    requires 0.0 <= dragY && 0.0 <= height && dragY + height <= v.displayedHeight
    ensures var r := RedactionRect(v, dragX, dragY, width, height);
      0.0 <= r.x && r.x + r.width <= v.pageWidth && 0.0 <= r.y && r.y + r.height <= v.pageHeight
  {
    var rx, ry := RatioX(v), RatioY(v);
    assert rx >= 0.0 && ry >= 0.0;
    assert (dragX + width) * rx <= v.displayedWidth * rx == v.pageWidth;
    assert (dragY + height) * ry <= v.displayedHeight * ry == v.pageHeight;
  }

  /** A drag past the top or left edge is treated as a drag to that edge. */
  lemma RedactionClamped(v: View, dragX: real, dragY: real, width: real, height: real)
    requires Displayed(v)
    ensures RedactionRect(v, dragX, dragY, width, height) ==
      RedactionRect(v, Max0(dragX), Max0(dragY), width, height)
    ensures dragX <= 0.0 ==> RedactionRect(v, dragX, dragY, width, height).x == 0.0
  {
    assert Max0(Max0(dragX)) == Max0(dragX) && Max0(Max0(dragY)) == Max0(dragY);
  }

  /**
   * The vertical extent used as the watermark's pivot: the font size for text;
   * for an image, the rendered image's height when the element can be found.
   */
  function ObjectHeight(isImage: bool, hasImageFile: bool, renderedHeight: Option<real>, size: real): (h: real)
    ensures !(isImage && hasImageFile) ==> h == size
    ensures renderedHeight.None? ==> h == size
  {
    if isImage && hasImageFile && renderedHeight.Some? then renderedHeight.value else size
  }

  /** `handleSave` of the watermark editor: where the mark's lower-left corner goes, in points. */
  function WatermarkOrigin(v: View, dragX: real, dragY: real, objectHeight: real): Point
    requires Displayed(v)
  {
    var ratioX, ratioY := RatioX(v), RatioY(v);
    Point(dragX * ratioX, v.pageHeight - (dragY + objectHeight) * ratioY)
  }

  /**
   * The pivot is the bottom-left corner of the dragged box: the mark's PDF
   * origin is that screen point mapped, so the box's top edge lands
   * `objectHeight` displayed pixels above it.
   */
  lemma WatermarkPivot(v: View, dragX: real, dragY: real, objectHeight: real)
    requires Displayed(v)
    ensures WatermarkOrigin(v, dragX, dragY, objectHeight) == ToPdf(v, Point(dragX, dragY + objectHeight))
    ensures WatermarkOrigin(v, dragX, dragY, objectHeight).y + objectHeight * RatioY(v) ==
      ToPdf(v, Point(dragX, dragY)).y
  {
    var ry := RatioY(v);
    assert (dragY + objectHeight) * ry == dragY * ry + objectHeight * ry;
  }

  /** Screen pixels at zoom `scale` to points, as `updateSignaturePosition` stores them. */
  function PixelsToPoints(pixels: real, scale: real): real
    requires scale > 0.0
  {
    pixels / scale
  }

  /** Points to screen pixels, as the signature box is placed and sized. */
  function PointsToPixels(points: real, scale: real): real {
    points * scale
  }

  /** The stored position is zoom-independent: converting either way and back is the identity. */
  lemma ZoomRoundTrip(v: real, scale: real)
    requires scale > 0.0
    ensures PointsToPixels(PixelsToPoints(v, scale), scale) == v
    ensures PixelsToPoints(PointsToPixels(v, scale), scale) == v
  {
  }

  /** The lower-left y of a box of the given height whose top is `y` below the top of the page. */
  function FlipY(y: real, height: real, pageHeight: real): real {
    pageHeight - y - height
  }

  /** Flipping twice gives the top-based y back, and the box's top edge lands `y` below the page top. */
  lemma FlipYInvolution(y: real, height: real, pageHeight: real)
    ensures FlipY(FlipY(y, height, pageHeight), height, pageHeight) == y
    ensures pageHeight - (FlipY(y, height, pageHeight) + height) == y
  {
  }
}
