/**
 * The reader page (src/app/tools/pdf-reader/client.tsx): the page shown, the
 * zoom factor and a quarter-turn display rotation, reset when a document is
 * loaded.
 */
module Viewer {
  import opened Wrappers
  import Paging

  /** The rotate button: `(r + 90) % 360`; `r` is never negative, so the remainder is the usual one. */
  function Turn(r: int): int
    requires r >= 0
  {
    (r + 90) % 360
  }

  predicate Upright(r: int) {
    r == 0 || r == 90 || r == 180 || r == 270
  }

  /** The display rotation stays on the four quarter turns, and four presses come back to the start. */
  lemma TurnCycle(r: int)
    requires Upright(r)
    ensures Upright(Turn(r))
    ensures Turn(Turn(Turn(Turn(r)))) == r
  {
  }

  class Reader {
    var hasFile: bool
    var numPages: Option<int>   // the loaded document's page count; `None` before one loads
    var currentPage: int
    var scale: real
    var rotation: int

    constructor ()
      ensures !hasFile && numPages.None? && currentPage == 1 && scale == 1.0 && rotation == 0
      ensures Valid()
    {
      hasFile, numPages, currentPage, scale, rotation := false, None, 1, 1.0, 0;
    }

    /** The shown page exists, the zoom is in range and the rotation is a quarter turn. */
    predicate Valid()
      reads this
    {
      1 <= currentPage && (numPages.Some? ==> currentPage <= numPages.value || currentPage == 1) &&
      Paging.MinScale <= scale <= Paging.MaxScale && Upright(rotation)
    }

    /**
     * `handleDrop`: the file is kept; when the document loads (`count` is its
     * page count) page, zoom and rotation are reset.
     */
    method Load(count: Option<int>)
      requires Valid()
      modifies this
      ensures hasFile
      ensures count.Some? ==> numPages == count && currentPage == 1 && scale == 1.0 && rotation == 0
      ensures count.None? ==>
        numPages == old(numPages) && currentPage == old(currentPage) &&
        scale == old(scale) && rotation == old(rotation)
      ensures Valid()
    {
      hasFile := true;
      if count.Some? {
        numPages := count;
        currentPage, scale, rotation := 1, 1.0, 0;
      }
    }

    /** The previous and next buttons. */
    method ChangePage(delta: int)
      requires Valid()
      modifies this
      ensures currentPage == Paging.Navigate(old(currentPage), delta, numPages)
      ensures hasFile == old(hasFile) && numPages == old(numPages) && scale == old(scale) && rotation == old(rotation)
      ensures Valid()
    {
      currentPage := Paging.Navigate(currentPage, delta, numPages);
    }

    /**
     * The page-number box; `typed` is `parseInt` of its text, `None` for NaN.
     * The box is shown only once a document is loaded.
     */
    method TypePage(typed: Option<int>)
      requires Valid() && numPages.Some?
      modifies this
      ensures hasFile == old(hasFile) && numPages == old(numPages) && scale == old(scale) && rotation == old(rotation)
      ensures typed.Some? && 1 <= typed.value <= numPages.value ==> currentPage == typed.value
      ensures !(typed.Some? && 1 <= typed.value <= numPages.value) ==> currentPage == old(currentPage)
      ensures Valid()
    {
      if typed.Some? && 1 <= typed.value <= numPages.value {
        currentPage := typed.value;
      }
    }

    /** `handleZoom`. */
    method Zoom(delta: real)
      requires Valid()
      modifies this
      ensures scale == Paging.Zoom(old(scale), delta)
      ensures hasFile == old(hasFile) && numPages == old(numPages) && currentPage == old(currentPage)
      ensures rotation == old(rotation)
      ensures Valid()
    {
      scale := Paging.Zoom(scale, delta);
    }

    /** The rotate button. */
    method Rotate()
      requires Valid()
      modifies this
      ensures rotation == Turn(old(rotation))
      ensures hasFile == old(hasFile) && numPages == old(numPages) && currentPage == old(currentPage)
      ensures scale == old(scale)
      ensures Valid()
    {
      TurnCycle(rotation);
      rotation := Turn(rotation);
    }
  }
}
