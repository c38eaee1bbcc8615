/**
 * The signing page (src/app/tools/sign-pdf/client.tsx): a list of placed
 * signatures kept in points with a top-left origin, so that they do not move
 * when the zoom changes; positions come from the screen divided by the zoom,
 * and on save each y is flipped to the lower-left origin of PDF user space.
 */
module SignEditor {
  import opened Wrappers
  import Paging
  import Coordinates

  datatype Signature = Signature(id: string, pageIndex: int, x: real, y: real,
                                 width: real, height: real, dataUrl: string)

  /** The drawing pad: missing, empty, or holding a drawing (its PNG data URL). */
  datatype Pad = NoPad | EmptyPad | Drawn(dataUrl: string)

  /** A new signature: 200 by 100 points at (50, 50) on the page shown. */
  function NewSignature(id: string, currentPage: int, dataUrl: string): (s: Signature)
    ensures s.pageIndex == currentPage - 1 && s.x == 50.0 && s.y == 50.0
    ensures s.width == 200.0 && s.height == 100.0 && s.id == id && s.dataUrl == dataUrl
  {
    Signature(id, currentPage - 1, 50.0, 50.0, 200.0, 100.0, dataUrl)
  }

  /** `updateSignaturePosition`: the signatures with that id take the screen point in points. */
  function Repositioned(sigs: seq<Signature>, id: string, x: real, y: real, scale: real): (r: seq<Signature>)
    requires scale > 0.0
    ensures |r| == |sigs|
    ensures forall k :: 0 <= k < |sigs| && sigs[k].id != id ==> r[k] == sigs[k]
  {
    seq(|sigs|, k requires 0 <= k < |sigs| =>
      if sigs[k].id == id
      then sigs[k].(x := Coordinates.PixelsToPoints(x, scale), y := Coordinates.PixelsToPoints(y, scale))
      else sigs[k])
  }

  /**
   * A moved signature keeps its page, size and picture, and is shown again
   * exactly where it was dropped, at the zoom it was dropped at.
   */
  lemma RepositionedShownAtDrop(sigs: seq<Signature>, id: string, x: real, y: real, scale: real, k: int)
    requires scale > 0.0 && 0 <= k < |sigs| && sigs[k].id == id
    ensures var s := Repositioned(sigs, id, x, y, scale)[k];
      s.pageIndex == sigs[k].pageIndex && s.width == sigs[k].width && s.height == sigs[k].height &&
      Coordinates.PointsToPixels(s.x, scale) == x && Coordinates.PointsToPixels(s.y, scale) == y
  {
    Coordinates.ZoomRoundTrip(x, scale);
    Coordinates.ZoomRoundTrip(y, scale);
  }

  /** `prev.filter(sig => sig.id !== id)`. */
  function WithoutId(sigs: seq<Signature>, id: string): (r: seq<Signature>)
    ensures |r| <= |sigs|
    ensures forall s :: s in r <==> s in sigs && s.id != id
  {
    if sigs == [] then []
    else
      var rest := WithoutId(sigs[1..], id);
      assert forall s :: s in sigs <==> s == sigs[0] || s in sigs[1..];
      if sigs[0].id == id then rest else [sigs[0]] + rest
  }

  /** Removal works piece by piece, so the kept signatures stay in their order. */
  lemma {:induction false} WithoutIdAppend(a: seq<Signature>, b: seq<Signature>, id: string)
    ensures WithoutId(a + b, id) == WithoutId(a, id) + WithoutId(b, id)
  {
    if a == [] {
      assert a + b == b;
    } else {
      assert (a + b)[1..] == a[1..] + b;
      WithoutIdAppend(a[1..], b, id);
    }
  }

  /** Removing an id no signature has changes nothing. */
  lemma {:induction false} WithoutAbsentId(sigs: seq<Signature>, id: string)
    requires forall k :: 0 <= k < |sigs| ==> sigs[k].id != id
    ensures WithoutId(sigs, id) == sigs
  {
    if sigs != [] {
      WithoutAbsentId(sigs[1..], id);
    }
  }

  /** The signatures drawn over the page shown. */
  function OnPage(sigs: seq<Signature>, pageIndex: int): (r: seq<Signature>)
    ensures forall s :: s in r <==> s in sigs && s.pageIndex == pageIndex
  {
    if sigs == [] then []
    else
      var rest := OnPage(sigs[1..], pageIndex);
      assert forall s :: s in sigs <==> s == sigs[0] || s in sigs[1..];
      if sigs[0].pageIndex == pageIndex then [sigs[0]] + rest else rest
  }

  /** A signature as `signPDF` receives it: y measured from the bottom of its page. */
  function ForPdf(s: Signature, pageHeight: real): (p: Signature)
    ensures p.x == s.x && p.width == s.width && p.height == s.height && p.pageIndex == s.pageIndex
    ensures p.y + p.height == pageHeight - s.y
  {
    s.(y := Coordinates.FlipY(s.y, s.height, pageHeight))
  }

  /** Flipping for the PDF and back gives the stored signature. */
  lemma ForPdfInvolution(s: Signature, pageHeight: real)
    ensures ForPdf(ForPdf(s, pageHeight), pageHeight) == s
  {
    Coordinates.FlipYInvolution(s.y, s.height, pageHeight);
  }

  class SignPage {
    var hasFile: bool
    var numPages: Option<int>
    var currentPage: int
    var scale: real
    var signatures: seq<Signature>

    constructor ()
      ensures !hasFile && numPages.None? && currentPage == 1 && scale == 1.0 && signatures == []
      ensures Valid()
    {
      hasFile, numPages, currentPage, scale, signatures := false, None, 1, 1.0, [];
    }

    /** The zoom stays in [0.5, 3]. */
    predicate Valid()
      reads this
    {
      Paging.MinScale <= scale <= Paging.MaxScale
    }

    /** `handleDrop`: when the document loads, page 1, zoom 1 and no signatures. */
    method Load(count: Option<int>)
      requires Valid()
      modifies this
      ensures hasFile
      ensures count.Some? ==> numPages == count && currentPage == 1 && scale == 1.0 && signatures == []
      ensures count.None? ==>
        numPages == old(numPages) && currentPage == old(currentPage) &&
        scale == old(scale) && signatures == old(signatures)
      ensures Valid()
    {
      hasFile := true;
      if count.Some? {
        numPages, currentPage, signatures, scale := count, 1, [], 1.0;
      }
    }

    method ChangePage(delta: int)
      requires Valid()
      modifies this
      ensures currentPage == Paging.Navigate(old(currentPage), delta, numPages)
      ensures hasFile == old(hasFile) && numPages == old(numPages) && scale == old(scale)
      ensures signatures == old(signatures)
      ensures Valid()
    {
      currentPage := Paging.Navigate(currentPage, delta, numPages);
    }

    /** `handleCreateSignature`: a drawn pad adds one signature on the page shown; otherwise nothing. */
    method CreateSignature(pad: Pad, id: string)
      requires Valid()
      modifies this
      ensures pad.Drawn? ==> signatures == old(signatures) + [NewSignature(id, currentPage, pad.dataUrl)]
      ensures !pad.Drawn? ==> signatures == old(signatures)
      ensures hasFile == old(hasFile) && numPages == old(numPages) && currentPage == old(currentPage)
      ensures scale == old(scale)
      ensures Valid()
    {
      if pad.Drawn? {
        signatures := signatures + [NewSignature(id, currentPage, pad.dataUrl)];
      }
    }

    /** The end of a drag: `x` and `y` are screen pixels at the current zoom. */
    method UpdatePosition(id: string, x: real, y: real)
      requires Valid()
      modifies this
      ensures scale == old(scale) && Valid()
      ensures signatures == Repositioned(old(signatures), id, x, y, scale)
      ensures hasFile == old(hasFile) && numPages == old(numPages) && currentPage == old(currentPage)
    {
      signatures := Repositioned(signatures, id, x, y, scale);
    }

    method RemoveSignature(id: string)
      requires Valid()
      modifies this
      ensures signatures == WithoutId(old(signatures), id)
      ensures hasFile == old(hasFile) && numPages == old(numPages) && currentPage == old(currentPage)
      ensures scale == old(scale)
      ensures Valid()
    {
      signatures := WithoutId(signatures, id);
    }

    method ZoomOut()
      requires Valid()
      modifies this
      ensures scale == Paging.ZoomOut(old(scale))
      ensures hasFile == old(hasFile) && numPages == old(numPages) && currentPage == old(currentPage)
      ensures signatures == old(signatures)
      ensures Valid()
    {
      scale := Paging.ZoomOut(scale);
    }

    method ZoomIn()
      requires Valid()
      modifies this
      ensures scale == Paging.ZoomIn(old(scale))
      ensures hasFile == old(hasFile) && numPages == old(numPages) && currentPage == old(currentPage)
      ensures signatures == old(signatures)
      ensures Valid()
    {
      scale := Paging.ZoomIn(scale);
    }

    /** The signatures laid over the page shown. */
    function Visible(): (r: seq<Signature>)
      reads this
      ensures forall s :: s in r <==> s in signatures && s.pageIndex == currentPage - 1
    {
      OnPage(signatures, currentPage - 1)
    }

    /**
     * `handleSave`: nothing without a file, a signature or a loaded document;
     * otherwise every signature, in order, with its y flipped against the
     * height in points of its own page.
     */
    method Save(pageHeight: int -> real) returns (request: Option<seq<Signature>>)
      ensures request.None? <==> !hasFile || signatures == [] || numPages.None?
      ensures request.Some? ==>
        |request.value| == |signatures| &&
        forall k :: 0 <= k < |signatures| ==>
          request.value[k] == ForPdf(signatures[k], pageHeight(signatures[k].pageIndex))
    {
      if !hasFile || |signatures| == 0 || numPages.None? {
        return None;
      }
      var pdfSignatures := [];
      for k := 0 to |signatures|
        invariant |pdfSignatures| == k
        invariant forall j :: 0 <= j < k ==>
          pdfSignatures[j] == ForPdf(signatures[j], pageHeight(signatures[j].pageIndex))
      {
        var sig := signatures[k];
        var pdfY := pageHeight(sig.pageIndex) - sig.y - sig.height;
        pdfSignatures := pdfSignatures + [sig.(y := pdfY)];
      }
      return Some(pdfSignatures);
    }
  }
}
