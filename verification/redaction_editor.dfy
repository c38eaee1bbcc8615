/**
 * The redaction page (src/app/tools/remove-watermark/client.tsx): a box the
 * user drags and resizes over the rendered page, converted to points as the
 * current selection, and turned into the region list `removeWatermark`
 * paints over — one region for the page shown, or one per page.
 */
module RedactionEditor {
  import opened Wrappers
  import Paging
  import Coordinates
  import Documents

  /** The minimum side the resize handle leaves: `Math.max(20, start + moved)`. */
  const MinSide: real := 20.0

  function Resized(start: real, moved: real): (side: real)
    ensures side >= MinSide
    ensures start + moved >= MinSide ==> side == start + moved
  {
    if MinSide >= start + moved then MinSide else start + moved
  }

  /** A number box: `parseInt(text) || 0`; `parsed` is `None` for NaN. */
  function SideInput(parsed: Option<int>): (side: real)
    ensures parsed.Some? ==> side == parsed.value as real
    ensures parsed.None? ==> side == 0.0
  {
    if parsed.Some? && parsed.value != 0 then parsed.value as real else 0.0
  }

  /** The selection applied to page `pageIndex`. */
  function RegionOf(selection: Coordinates.Rect, pageIndex: int): Documents.Region {
    Documents.Region(pageIndex, selection.x, selection.y, selection.width, selection.height)
  }

  /** Every page 0..count-1 in order, each with a copy of the selection. */
  function AllPageRegions(selection: Coordinates.Rect, count: int): (r: seq<Documents.Region>)
    ensures |r| == if count > 0 then count else 0
    ensures forall i :: 0 <= i < |r| ==> r[i] == RegionOf(selection, i)
  {
    seq(if count > 0 then count else 0, i => RegionOf(selection, i))
  }

  /**
   * Cleaning every page of an n-page document covers each page exactly once,
   * with the selection.
   */
  lemma CleanAllCoversEachPage(pages: seq<Documents.Page>, selection: Coordinates.Rect)
    ensures var r := Documents.Cleaned(pages, AllPageRegions(selection, |pages|));
      |r| == |pages| &&
      forall i :: 0 <= i < |pages| ==> r[i].marks == pages[i].marks + [Documents.CoverOf(RegionOf(selection, i))]
  {
    var regions := AllPageRegions(selection, |pages|);
    Documents.CleanedPages(pages, regions);
    forall i | 0 <= i < |pages|
      ensures Documents.CoversFor(regions, i) == [Documents.CoverOf(RegionOf(selection, i))]
    {
      CoversOfDistinct(selection, |pages|, i);
    }
  }

  /** In the all-pages list only the entry for page `i` names page `i`. */
  lemma {:induction false} CoversOfDistinct(selection: Coordinates.Rect, n: nat, i: int)
    requires 0 <= i < n
    ensures Documents.CoversFor(AllPageRegions(selection, n), i) == [Documents.CoverOf(RegionOf(selection, i))]
  {
    var regions := AllPageRegions(selection, n);
    assert regions[..n - 1] == AllPageRegions(selection, n - 1);
    if i == n - 1 {
      NoCoversBeyond(selection, n - 1, i);
    } else {
      CoversOfDistinct(selection, n - 1, i);
    }
  }

  /** No entry of the list for the first `n` pages names a later page. */
  lemma {:induction false} NoCoversBeyond(selection: Coordinates.Rect, n: nat, i: int)
    requires n <= i
    ensures Documents.CoversFor(AllPageRegions(selection, n), i) == []
  {
    if n > 0 {
      var regions := AllPageRegions(selection, n);
      assert regions[..n - 1] == AllPageRegions(selection, n - 1);
      NoCoversBeyond(selection, n - 1, i);
    }
  }

  class RedactionPage {
    var hasFile: bool
    var numPages: Option<int>
    var currentPage: int
    var selection: Option<Coordinates.Rect>
    var dragX: real
    var dragY: real
    var boxWidth: real
    var boxHeight: real

    constructor ()
      ensures !hasFile && numPages.None? && currentPage == 1 && selection.None?
      ensures dragX == 100.0 && dragY == 100.0 && boxWidth == 200.0 && boxHeight == 100.0
    {
      hasFile, numPages, currentPage, selection := false, None, 1, None;
      dragX, dragY, boxWidth, boxHeight := 100.0, 100.0, 200.0, 100.0;
    }

    /** `handleDrop`: when the document loads, page 1 and no selection. */
    method Load(count: Option<int>)
      modifies this
      ensures hasFile
      ensures count.Some? ==> numPages == count && currentPage == 1 && selection.None?
      ensures count.None? ==>
        numPages == old(numPages) && currentPage == old(currentPage) && selection == old(selection)
      ensures dragX == old(dragX) && dragY == old(dragY)
      ensures boxWidth == old(boxWidth) && boxHeight == old(boxHeight)
    {
      hasFile := true;
      if count.Some? {
        numPages, currentPage, selection := count, 1, None;
      }
    }

    /** A drag: the box's top-left corner moves to the reported position. */
    method Drag(x: real, y: real)
      modifies this
      ensures dragX == x && dragY == y
      ensures hasFile == old(hasFile) && numPages == old(numPages) && currentPage == old(currentPage)
      ensures selection == old(selection) && boxWidth == old(boxWidth) && boxHeight == old(boxHeight)
    {
      dragX, dragY := x, y;
    }

    /** The resize handle, moved by `dx`, `dy` from a box of `startWidth` by `startHeight`. */
    method ResizeBy(startWidth: real, startHeight: real, dx: real, dy: real)
      modifies this
      ensures boxWidth == Resized(startWidth, dx) && boxHeight == Resized(startHeight, dy)
      ensures boxWidth >= MinSide && boxHeight >= MinSide
      ensures hasFile == old(hasFile) && numPages == old(numPages) && currentPage == old(currentPage)
      ensures selection == old(selection) && dragX == old(dragX) && dragY == old(dragY)
    {
      boxWidth, boxHeight := Resized(startWidth, dx), Resized(startHeight, dy);
    }

    /** The width box: its updater replaces the width and keeps the height. */
    method TypeWidth(parsed: Option<int>)
      modifies this
      ensures boxWidth == SideInput(parsed) && boxHeight == old(boxHeight)
      ensures hasFile == old(hasFile) && numPages == old(numPages) && currentPage == old(currentPage)
      ensures selection == old(selection) && dragX == old(dragX) && dragY == old(dragY)
    {
      boxWidth := SideInput(parsed);
    }

    /** The height box: its updater replaces the height and keeps the width. */
    method TypeHeight(parsed: Option<int>)
      modifies this
      ensures boxHeight == SideInput(parsed) && boxWidth == old(boxWidth)
      ensures hasFile == old(hasFile) && numPages == old(numPages) && currentPage == old(currentPage)
      ensures selection == old(selection) && dragX == old(dragX) && dragY == old(dragY)
    {
      boxHeight := SideInput(parsed);
    }

    /** The previous-page button. */
    method PreviousPage()
      modifies this
      ensures currentPage == Paging.PreviousClamped(old(currentPage))
      ensures hasFile == old(hasFile) && numPages == old(numPages) && selection == old(selection)
      ensures dragX == old(dragX) && dragY == old(dragY)
      ensures boxWidth == old(boxWidth) && boxHeight == old(boxHeight)
    {
      currentPage := Paging.PreviousClamped(currentPage);
    }

    /** The next-page button. */
    method NextPage()
      modifies this
      ensures currentPage == Paging.NextClamped(old(currentPage), numPages)
      ensures hasFile == old(hasFile) && numPages == old(numPages) && selection == old(selection)
      ensures dragX == old(dragX) && dragY == old(dragY)
      ensures boxWidth == old(boxWidth) && boxHeight == old(boxHeight)
    {
      currentPage := Paging.NextClamped(currentPage, numPages);
    }

    /**
     * `updateSelection`, given the page size in points and the canvas's
     * displayed size; it does nothing before a document is loaded.
     */
    method UpdateSelection(view: Coordinates.View)
      requires Coordinates.Displayed(view)
      modifies this
      ensures numPages.Some? ==>
        selection == Some(Coordinates.RedactionRect(view, dragX, dragY, boxWidth, boxHeight))
      ensures numPages.None? ==> selection == old(selection)
      ensures hasFile == old(hasFile) && numPages == old(numPages) && currentPage == old(currentPage)
      ensures dragX == old(dragX) && dragY == old(dragY)
      ensures boxWidth == old(boxWidth) && boxHeight == old(boxHeight)
    {
      if numPages.None? {
        return;
      }
      selection := Some(Coordinates.RedactionRect(view, dragX, dragY, boxWidth, boxHeight));
    }

    /**
     * `handleApply`: nothing without a file and a selection; otherwise one
     * region per page when cleaning all pages of a loaded document, else one
     * for the page shown.
     */
    method Apply(applyToAll: bool) returns (regions: Option<seq<Documents.Region>>)
      ensures regions.None? <==> !hasFile || selection.None?
      ensures regions.Some? && applyToAll && numPages.Some? ==>
        regions.value == AllPageRegions(selection.value, numPages.value)
      ensures regions.Some? && !(applyToAll && numPages.Some?) ==>
        regions.value == [RegionOf(selection.value, currentPage - 1)]
    {
      if !hasFile || selection.None? {
        return None;
      }
      var sel := selection.value;
      var list := [];
      if applyToAll && numPages.Some? {
        var i := 0;
        while i < numPages.value
          invariant 0 <= i && (i <= numPages.value || i == 0)
          invariant list == AllPageRegions(sel, i)
        {
          list := list + [RegionOf(sel, i)];
          i := i + 1;
        }
      } else {
        list := list + [RegionOf(sel, currentPage - 1)];
      }
      return Some(list);
    }
  }
}
