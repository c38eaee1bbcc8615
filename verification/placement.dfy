/**
 * Where `watermarkPDF` (src/lib/pdf-utils.ts) puts its mark on a page, in PDF
 * default user space (origin at the bottom-left corner, y growing upward, as
 * section 8.3.2.3 of ISO 32000-1 lays it out): one of nine anchors with a
 * 20-unit margin, or an explicit position when both coordinates are given.
 * Also the page filter of `targetPages` and the size of an image mark.
 * Lengths are `real`; the source computes them in double precision.
 */
module Placement {
  import opened Wrappers

  const Margin: real := 20.0

  datatype Anchor =
    | Center | TopLeft | TopCenter | TopRight | LeftCenter | RightCenter
    | BottomLeft | BottomCenter | BottomRight

  datatype Point = Point(x: real, y: real)

  /** The `position` option as the source spells it. */
  function AnchorName(a: Anchor): string {
    match a
    case Center => "center"
    case TopLeft => "top-left"
    case TopCenter => "top-center"
    case TopRight => "top-right"
    case LeftCenter => "left-center"
    case RightCenter => "right-center"
    case BottomLeft => "bottom-left"
    case BottomCenter => "bottom-center"
    case BottomRight => "bottom-right"
  }

  /** The `switch (position)`: the eight edge names, and `center` for everything else. */
  function AnchorOf(position: string): (a: Anchor)
    ensures a != Center ==> AnchorName(a) == position
  {
    if position == "top-left" then TopLeft
    else if position == "top-center" then TopCenter
    else if position == "top-right" then TopRight
    else if position == "left-center" then LeftCenter
    else if position == "right-center" then RightCenter
    else if position == "bottom-left" then BottomLeft
    else if position == "bottom-center" then BottomCenter
    else if position == "bottom-right" then BottomRight
    else Center
  }

  /** Every anchor is selected by its own name. */
  lemma AnchorNameRoundTrip(a: Anchor)
    ensures AnchorOf(AnchorName(a)) == a
  {
    match a
    case Center =>
      assert AnchorName(a) == "center";
      assert "center" != "top-left" && "center" != "top-center" && "center" != "top-right";
      assert "center" != "left-center" && "center" != "right-center";
      assert "center" != "bottom-left" && "center" != "bottom-center" && "center" != "bottom-right";
    case TopLeft =>
    case TopCenter =>
      assert "top-center" != "top-left";
    case TopRight =>
      assert "top-right" != "top-left" && "top-right" != "top-center";
    case LeftCenter =>
      assert "left-center" != "top-left" && "left-center" != "top-center" && "left-center" != "top-right";
    case RightCenter =>
      assert "right-center" != "top-left" && "right-center" != "top-center" && "right-center" != "top-right";
      assert "right-center" != "left-center";
    case BottomLeft =>
      assert "bottom-left" != "top-left" && "bottom-left" != "top-center" && "bottom-left" != "top-right";
      assert "bottom-left" != "left-center" && "bottom-left" != "right-center";
    case BottomCenter =>
      assert "bottom-center" != "top-left" && "bottom-center" != "top-center" && "bottom-center" != "top-right";
      assert "bottom-center" != "left-center" && "bottom-center" != "right-center";
      assert "bottom-center" != "bottom-left";
    case BottomRight =>
      assert "bottom-right" != "top-left" && "bottom-right" != "top-center" && "bottom-right" != "top-right";
      assert "bottom-right" != "left-center" && "bottom-right" != "right-center";
      assert "bottom-right" != "bottom-left" && "bottom-right" != "bottom-center";
  }

  /** Which edge, if any, pins an anchor along one axis. */
  datatype Pin = Low | Middle | High

  function HorizontalPin(a: Anchor): Pin {
    match a
    case TopLeft | LeftCenter | BottomLeft => Low
    case TopRight | RightCenter | BottomRight => High
    case _ => Middle
  }

  function VerticalPin(a: Anchor): Pin {
    match a
    case BottomLeft | BottomCenter | BottomRight => Low
    case TopLeft | TopCenter | TopRight => High
    case _ => Middle
  }

  /** Where an anchor puts an object of size `w` × `h` on a `W` × `H` page, bottom-left corner. */
  function AnchorOrigin(a: Anchor, W: real, H: real, w: real, h: real): (p: Point)
    ensures HorizontalPin(a) == Low ==> p.x == Margin
    ensures HorizontalPin(a) == High ==> W - (p.x + w) == Margin
    ensures HorizontalPin(a) == Middle ==> p.x == W - (p.x + w)
    ensures VerticalPin(a) == Low ==> p.y == Margin
    ensures VerticalPin(a) == High ==> H - (p.y + h) == Margin
    ensures VerticalPin(a) == Middle ==> p.y == H - (p.y + h)
  {
    var left, centerX, right := Margin, (W - w) / 2.0, W - w - Margin;
    var bottom, centerY, top := Margin, (H - h) / 2.0, H - h - Margin;
    match a
    case TopLeft => Point(left, top)
    case TopCenter => Point(centerX, top)
    case TopRight => Point(right, top)
    case LeftCenter => Point(left, centerY)
    case RightCenter => Point(right, centerY)
    case BottomLeft => Point(left, bottom)
    case BottomCenter => Point(centerX, bottom)
    case BottomRight => Point(right, bottom)
    case Center => Point(centerX, centerY)
  }

  /** An unrecognised position string centres the object. */
  lemma UnknownPositionCentres(position: string, W: real, H: real, w: real, h: real)
    requires forall a :: a != Center ==> AnchorName(a) != position
    ensures AnchorOrigin(AnchorOf(position), W, H, w, h) == Point((W - w) / 2.0, (H - h) / 2.0)
  {
  }

  /** An object that fits inside the margins stays inside them at every anchor. */
  lemma AnchorInsideMargins(a: Anchor, W: real, H: real, w: real, h: real)
    requires w >= 0.0 && h >= 0.0 && w + 2.0 * Margin <= W && h + 2.0 * Margin <= H
    ensures var p := AnchorOrigin(a, W, H, w, h);
      Margin <= p.x && p.x + w <= W - Margin && Margin <= p.y && p.y + h <= H - Margin
  {
  }

  function MirrorLeftRight(a: Anchor): Anchor {
    match a
    case TopLeft => TopRight
    case TopRight => TopLeft
    case LeftCenter => RightCenter
    case RightCenter => LeftCenter
    case BottomLeft => BottomRight
    case BottomRight => BottomLeft
    case _ => a
  }

  function MirrorTopBottom(a: Anchor): Anchor {
    match a
    case TopLeft => BottomLeft
    case BottomLeft => TopLeft
    case TopCenter => BottomCenter
    case BottomCenter => TopCenter
    case TopRight => BottomRight
    case BottomRight => TopRight
    case _ => a
  }

  /** Mirrored anchors give mirrored positions: the layout is symmetric about both centre lines. */
  lemma AnchorsSymmetric(a: Anchor, W: real, H: real, w: real, h: real)
    ensures var p, q := AnchorOrigin(a, W, H, w, h), AnchorOrigin(MirrorLeftRight(a), W, H, w, h);
      q.x == W - w - p.x && q.y == p.y
    ensures var p, q := AnchorOrigin(a, W, H, w, h), AnchorOrigin(MirrorTopBottom(a), W, H, w, h);
      q.y == H - h - p.y && q.x == p.x
  {
  }

  /** The position used: the explicit `x`, `y` when both are given, else the anchor's. */
  function Position(x: Option<real>, y: Option<real>, a: Anchor, W: real, H: real, w: real, h: real): (p: Point)
    ensures x.Some? && y.Some? ==> p == Point(x.value, y.value)
  {
    if x.Some? && y.Some? then Point(x.value, y.value) else AnchorOrigin(a, W, H, w, h)
  }

  /** One coordinate alone does not override the anchor. */
  lemma HalfOverrideIgnored(v: real, a: Anchor, W: real, H: real, w: real, h: real)
    ensures Position(Some(v), None, a, W, H, w, h) == AnchorOrigin(a, W, H, w, h)
    ensures Position(None, Some(v), a, W, H, w, h) == AnchorOrigin(a, W, H, w, h)
  {
  }

  /** `targetPages`: every page, or the listed indices. */
  datatype Targets = AllPages | Only(indices: seq<int>)

  /** The negation of the skip test `targetPages !== "all" && !targetPages.includes(index)`. */
  predicate Targeted(t: Targets, index: int) {
    t.AllPages? || index in t.indices
  }

  datatype Size = Size(width: real, height: real)

  /** An image mark is `size` wide and keeps the image's aspect ratio. */
  function ImageMarkSize(size: real, intrinsic: Size): (s: Size)
    requires intrinsic.width > 0.0
    ensures s.width == size
    ensures s.height * intrinsic.width == intrinsic.height * size
  {
    var scaleFactor := size / intrinsic.width;
    Size(size, intrinsic.height * scaleFactor)
  }
}
