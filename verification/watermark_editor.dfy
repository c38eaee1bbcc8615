/**
 * The watermark page (src/app/tools/insert-watermark/client.tsx): the user
 * drags the text or image over the rendered page; on save the box's
 * bottom-left corner is converted to points and passed as the explicit
 * position, together with the content and the pages to mark.
 */
module WatermarkEditor {
  import opened Wrappers
  import Coordinates
  import Documents
  import Placement

  /** An uploaded image: its MIME type and the size it has once embedded. */
  datatype ImageUpload = ImageUpload(mime: string, width: real, height: real)

  /** What `handleSave` passes to `watermarkPDF`. */
  datatype Request = Request(content: Documents.Content, options: Documents.WatermarkOptions)

  /** The content: the image when the type is image and one is chosen, else the text. */
  function ContentOf(markType: Documents.MarkType, text: string, image: Option<ImageUpload>): (c: Documents.Content)
    ensures c.FileContent? <==> markType == Documents.ImageType && image.Some?
    ensures c.TextContent? ==> c.text == text
  {
    if markType == Documents.ImageType && image.Some? then
      Documents.FileContent(image.value.mime, image.value.width, image.value.height)
    else Documents.TextContent(text)
  }

  /** "Apply to all pages", or the page shown (0-based). */
  function TargetsOf(applyToAll: bool, currentPage: int): (t: Placement.Targets)
    ensures applyToAll ==> t == Placement.AllPages
    ensures !applyToAll ==> t == Placement.Only([currentPage - 1])
  {
    if applyToAll then Placement.AllPages else Placement.Only([currentPage - 1])
  }

  /** With "apply to all" unset, only the page shown is marked. */
  lemma TargetsOnlyShownPage(currentPage: int, i: int)
    ensures Placement.Targeted(TargetsOf(false, currentPage), i) <==> i == currentPage - 1
  {
  }

  class WatermarkPage {
    var hasFile: bool
    var numPages: Option<int>
    var currentPage: int
    var markType: Documents.MarkType
    var text: string
    var image: Option<ImageUpload>
    var color: string
    var opacity: real
    var rotation: real
    var size: real
    var applyToAll: bool
    var dragX: real
    var dragY: real

    constructor ()
      ensures !hasFile && numPages.None? && currentPage == 1
      ensures markType == Documents.TextType && text == "CONFIDENTIAL" && image.None?
      ensures color == "#ff0000" && opacity == 0.5 && rotation == 45.0 && size == 50.0 && applyToAll
      ensures dragX == 100.0 && dragY == 100.0
    {
      hasFile, numPages, currentPage := false, None, 1;
      markType, text, image := Documents.TextType, "CONFIDENTIAL", None;
      color, opacity, rotation, size, applyToAll := "#ff0000", 0.5, 45.0, 50.0, true;
      dragX, dragY := 100.0, 100.0;
    }

    /** `handleDrop`: when the document loads, page 1 and the box moved to (200, 300). */
    method Load(count: Option<int>)
      modifies this
      ensures hasFile
      ensures count.Some? ==> numPages == count && currentPage == 1 && dragX == 200.0 && dragY == 300.0
      ensures count.None? ==>
        numPages == old(numPages) && currentPage == old(currentPage) && dragX == old(dragX) && dragY == old(dragY)
      ensures markType == old(markType) && text == old(text) && image == old(image) && size == old(size)
      ensures color == old(color) && opacity == old(opacity) && rotation == old(rotation) && applyToAll == old(applyToAll)
    {
      hasFile := true;
      if count.Some? {
        numPages, currentPage := count, 1;
        dragX, dragY := 200.0, 300.0;
      }
    }

    /** `handleImageUpload`: the first chosen file becomes the image and the size is reset to 100. */
    method UploadImage(files: seq<ImageUpload>)
      modifies this
      ensures files != [] ==> image == Some(files[0]) && size == 100.0
      ensures files == [] ==> image == old(image) && size == old(size)
      ensures hasFile == old(hasFile) && numPages == old(numPages) && currentPage == old(currentPage)
      ensures markType == old(markType) && text == old(text) && dragX == old(dragX) && dragY == old(dragY)
      ensures color == old(color) && opacity == old(opacity) && rotation == old(rotation) && applyToAll == old(applyToAll)
    {
      if |files| > 0 {
        image := Some(files[0]);
        size := 100.0;
      }
    }

    /** A drag: the box's top-left corner moves to the reported position. */
    method Drag(x: real, y: real)
      modifies this
      ensures dragX == x && dragY == y
      ensures hasFile == old(hasFile) && numPages == old(numPages) && currentPage == old(currentPage)
      ensures markType == old(markType) && text == old(text) && image == old(image) && size == old(size)
      ensures color == old(color) && opacity == old(opacity) && rotation == old(rotation) && applyToAll == old(applyToAll)
    {
      dragX, dragY := x, y;
    }

    /**
     * `handleSave`. `view` is the page in points and the canvas as displayed,
     * `None` when the container or canvas is missing; `renderedHeight` is the
     * height of the image element on screen, `None` when it is not found.
     */
    method Save(view: Option<Coordinates.View>, renderedHeight: Option<real>) returns (request: Option<Request>)
      requires view.Some? ==> Coordinates.Displayed(view.value)
      ensures request.None? <==> !hasFile || numPages.None? || view.None?
      ensures request.Some? ==>
        var objectHeight := Coordinates.ObjectHeight(markType == Documents.ImageType, image.Some?, renderedHeight, size);
        var origin := Coordinates.WatermarkOrigin(view.value, dragX, dragY, objectHeight);
        request.value == Request(ContentOf(markType, text, image),
          Documents.WatermarkOptions(Some(markType), Some(color), Some(size), Some(opacity), Some(rotation),
            None, Some(origin.x), Some(origin.y), Some(TargetsOf(applyToAll, currentPage))))
    {
      if !hasFile || numPages.None? || view.None? {
        return None;
      }
      var v := view.value;
      var ratioX := v.pageWidth / v.displayedWidth;
      var ratioY := v.pageHeight / v.displayedHeight;
      var pdfX := dragX * ratioX;
      var objectHeight := size;
      if markType == Documents.ImageType && image.Some? && renderedHeight.Some? {
        objectHeight := renderedHeight.value;
      }
      var pivotHtmlY := dragY + objectHeight;
      var pdfY := v.pageHeight - pivotHtmlY * ratioY;
      assert objectHeight == Coordinates.ObjectHeight(markType == Documents.ImageType, image.Some?, renderedHeight, size);
      assert ratioX == Coordinates.RatioX(v) && ratioY == Coordinates.RatioY(v);
      assert Coordinates.WatermarkOrigin(v, dragX, dragY, objectHeight) == Coordinates.Point(pdfX, pdfY);
      var content := ContentOf(markType, text, image);
      var options := Documents.WatermarkOptions(Some(markType), Some(color), Some(size), Some(opacity),
        Some(rotation), None, Some(pdfX), Some(pdfY), Some(TargetsOf(applyToAll, currentPage)));
      return Some(Request(content, options));
    }
  }

  /**
   * The mark of a saved request lands at the bottom-left corner of the box
   * the user placed, mapped to points, on every page it is drawn on.
   */
  lemma SavedMarkAtPivot(r: Request, v: Coordinates.View, dragX: real, dragY: real, objectHeight: real,
                         width: real, height: real, textWidth: real, textHeight: real)
    requires Coordinates.Displayed(v)
    requires Documents.DrawsImage(r.content, r.options) ==> r.content.width > 0.0
    requires var o := Coordinates.WatermarkOrigin(v, dragX, dragY, objectHeight);
      r.options.x == Some(o.x) && r.options.y == Some(o.y)
    ensures var m := Documents.MarkFor(r.content, r.options, width, height, textWidth, textHeight);
      var p := Coordinates.ToPdf(v, Coordinates.Point(dragX, dragY + objectHeight));
      Documents.MarkOrigin(m) == Placement.Point(p.x, p.y)
  {
    Documents.WatermarkPlacement(r.content, r.options, width, height, textWidth, textHeight);
    Coordinates.WatermarkPivot(v, dragX, dragY, objectHeight);
  }
}
