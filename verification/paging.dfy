/**
 * The page and zoom steps the viewers share: `changePage` of the reader
 * (src/app/tools/pdf-reader/client.tsx) and of the signing page
 * (src/app/tools/sign-pdf/client.tsx) moves only to an existing page; the
 * redaction page (src/app/tools/remove-watermark/client.tsx) clamps instead;
 * zoom steps are clamped to [0.5, 3].
 */
module Paging {
  import opened Wrappers

  /** `changePage(delta)`: the new page when it exists, otherwise the current one. */
  function Navigate(current: int, delta: int, numPages: Option<int>): (p: int)
    ensures numPages.None? ==> p == current
    ensures numPages.Some? && 1 <= current + delta <= numPages.value ==> p == current + delta
    ensures numPages.Some? && !(1 <= current + delta <= numPages.value) ==> p == current
  {
    if numPages.None? then current
    else
      var newPage := current + delta;
      if 1 <= newPage <= numPages.value then newPage else current
  }

  /** A page within [1, numPages] stays within it however far the step goes. */
  lemma NavigateStaysInRange(current: int, delta: int, n: int)
    requires 1 <= current <= n
    ensures 1 <= Navigate(current, delta, Some(n)) <= n
  {
  }

  /** Stepping forward and back from a page that has a successor returns to it. */
  lemma NavigateForwardBack(current: int, n: int)
    requires 1 <= current < n
    ensures Navigate(Navigate(current, 1, Some(n)), -1, Some(n)) == current
  {
  }

  /** The previous-page button of the redaction page: `Math.max(1, p - 1)`. */
  function PreviousClamped(p: int): (q: int)
    ensures q >= 1 && (p >= 2 ==> q == p - 1) && (p < 2 ==> q == 1)
  {
    if p - 1 >= 1 then p - 1 else 1
  }

  /** The next-page button of the redaction page: `Math.min(numPages || 1, p + 1)`. */
  function NextClamped(p: int, numPages: Option<int>): (q: int)
    ensures var last := if numPages.Some? && numPages.value != 0 then numPages.value else 1;
      q <= last && (p + 1 <= last ==> q == p + 1) && (p + 1 > last ==> q == last)
  {
    var last := if numPages.Some? && numPages.value != 0 then numPages.value else 1;
    if last <= p + 1 then last else p + 1
  }

  /** The clamped buttons keep a page within [1, numPages]. */
  lemma ClampedStaysInRange(p: int, n: int)
    requires 1 <= p <= n
    ensures 1 <= PreviousClamped(p) <= n
    ensures 1 <= NextClamped(p, Some(n)) <= n
  {
  }

  const MinScale: real := 0.5
  const MaxScale: real := 3.0

  function Max(a: real, b: real): real {
    if a >= b then a else b
  }

  function Min(a: real, b: real): real {
    if a <= b then a else b
  }

  /** The reader's `handleZoom`: `Math.max(0.5, Math.min(3.0, prev + delta))`. */
  function Zoom(scale: real, delta: real): (s: real)
    ensures MinScale <= s <= MaxScale
    ensures MinScale <= scale + delta <= MaxScale ==> s == scale + delta
  {
    Max(MinScale, Min(MaxScale, scale + delta))
  }

  /** The signing page's zoom buttons, each clamped on one side only. */
  function ZoomOut(scale: real): (s: real)
    ensures s >= MinScale && (scale <= MaxScale + 0.1 ==> s <= MaxScale)
  {
    Max(MinScale, scale - 0.1)
  }

  function ZoomIn(scale: real): (s: real)
    ensures s <= MaxScale && (scale >= MinScale - 0.1 ==> s >= MinScale)
  {
    Min(MaxScale, scale + 0.1)
  }

  /** Zooming in then out from inside the range gives the start back unless a bound was hit. */
  lemma ZoomInOut(scale: real)
    requires MinScale <= scale && scale + 0.1 <= MaxScale
    ensures ZoomOut(ZoomIn(scale)) == scale
  {
  }
}
