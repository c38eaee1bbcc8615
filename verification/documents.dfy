/**
 * The page loops of src/lib/pdf-utils.ts over a document whose pages are
 * abstract records: a size, a `/Rotate` angle and the list of things drawn
 * on the page so far. The PDF library's loading, embedding and saving are
 * not modelled; what is modelled is which page each call touches, in which
 * order, and with what geometry.
 */
module Documents {
  import opened Wrappers
  import Placement
  import Colour
  import ImageImport

  /** The rectangle pdf-lib is asked to fill: lower-left corner, width and height. */
  datatype Box = Box(x: real, y: real, width: real, height: real)

  datatype Content = TextContent(text: string) | FileContent(mime: string, width: real, height: real)

  /** Something drawn on a page. */
  datatype Mark =
    | Cover(box: Box)   // an opaque white rectangle
    | TextMark(content: Content, at: Placement.Point, size: real, colour: Colour.Rgb, opacity: real, rotate: real)
    | ImageMark(png: bool, box: Box, opacity: real, rotate: real)

  datatype Page = Page(width: real, height: real, rotation: int, marks: seq<Mark>)

  /** A rectangle to paint over, on the page with 0-based index `pageIndex`. */
  datatype Region = Region(pageIndex: int, x: real, y: real, width: real, height: real)

  class Document {
    var pages: seq<Page>

    constructor (pages: seq<Page>)
      ensures this.pages == pages
    {
      this.pages := pages;
    }

    /** `addPage`: the page goes after the existing ones. */
    method AddPage(page: Page)
      modifies this
      ensures pages == old(pages) + [page]
    {
      pages := pages + [page];
    }

    /** `removeWatermark`: a white rectangle over each region whose page exists, in list order. */
    method RemoveWatermark(regions: seq<Region>)
      modifies this
      ensures pages == Cleaned(old(pages), regions)
    {
      var k := 0;
      while k < |regions|
        invariant 0 <= k <= |regions|
        invariant pages == Cleaned(old(pages), regions[..k])
      {
        assert regions[..k + 1][..k] == regions[..k];
        pages := CoverRegion(pages, regions[k]);
        k := k + 1;
      }
      assert regions[..k] == regions;
    }

    /** `rotatePDF`: each entry whose key is a page index adds its angle to that page's rotation. */
    method RotatePdf(rotations: map<int, int>)
      modifies this
      ensures pages == Rotated(old(pages), rotations)
    {
      var pending := rotations.Keys;
      while |pending| > 0
        invariant pending <= rotations.Keys
        invariant |pages| == |old(pages)|
        invariant forall i :: 0 <= i < |pages| ==>
          pages[i] == old(pages)[i].(rotation := old(pages)[i].rotation +
            (if i in rotations && i !in pending then rotations[i] else 0))
        decreases |pending|
      {
        HasMember(pending);
        var pageIndex :| pageIndex in pending;
        if 0 <= pageIndex < |pages| {
          var page := pages[pageIndex];
          pages := pages[pageIndex := page.(rotation := page.rotation + rotations[pageIndex])];
        }
        pending := pending - {pageIndex};
      }
    }

    /**
     * `watermarkPDF` on the pages of this document. The width and height the
     * font gives the text at the chosen size are parameters. The colour is
     * decoded and handed to `rgb` before any page is drawn, for image marks
     * too; when `rgb` throws, `ok` is false and no page has changed.
     */
    method WatermarkPdf(content: Content, options: WatermarkOptions, textWidth: real, textHeight: real)
      returns (ok: bool)
      requires DrawsImage(content, options) ==> content.width > 0.0
      modifies this
      ensures ok <==> Colour.Accepted(Colour.DecodeColour(options.color.GetOr("#cccccc")))
      ensures ok ==> pages == Watermarked(old(pages), content, options, textWidth, textHeight)
      ensures !ok ==> pages == old(pages)
    {
      if !Colour.Accepted(Colour.DecodeColour(options.color.GetOr("#cccccc"))) {
        return false;
      }
      ok := true;
      var targets := options.targetPages.GetOr(Placement.AllPages);
      var i := 0;
      while i < |pages|
        invariant 0 <= i <= |pages| && |pages| == |old(pages)|
        invariant forall j :: 0 <= j < |pages| ==>
          pages[j] == if j < i then Watermarked(old(pages), content, options, textWidth, textHeight)[j]
                      else old(pages)[j]
      {
        if Placement.Targeted(targets, i) {
          pages := pages[i := Stamp(pages[i], content, options, textWidth, textHeight)];
        }
        i := i + 1;
      }
    }
  }

  /** A set with elements has one to pick. */
  lemma HasMember(s: set<int>)
    requires |s| > 0
    ensures exists x :: x in s
  {
    assert (forall x :: x !in s) ==> s == {};
  }

  /** The white rectangle of one region, when its page exists. */
  function CoverRegion(pages: seq<Page>, region: Region): seq<Page> {
    if 0 <= region.pageIndex < |pages| then
      var page := pages[region.pageIndex];
      pages[region.pageIndex := page.(marks := page.marks + [CoverOf(region)])]
    else pages
  }

  function CoverOf(region: Region): Mark {
    Cover(Box(region.x, region.y, region.width, region.height))
  }

  /** The pages after every region has been painted, first region first. */
  function Cleaned(pages: seq<Page>, regions: seq<Region>): seq<Page> {
    if regions == [] then pages
    else CoverRegion(Cleaned(pages, regions[..|regions| - 1]), regions[|regions| - 1])
  }

  /** The rectangles, in order, of the regions that name page `i`. */
  function CoversFor(regions: seq<Region>, i: int): seq<Mark> {
    if regions == [] then []
    else
      var last := regions[|regions| - 1];
      CoversFor(regions[..|regions| - 1], i) + (if last.pageIndex == i then [CoverOf(last)] else [])
  }

  /**
   * Each page keeps its size and rotation and gains the rectangles of exactly
   * the regions that name it, in list order; regions naming no page are skipped.
   */
  lemma {:induction false} CleanedPages(pages: seq<Page>, regions: seq<Region>)
    ensures |Cleaned(pages, regions)| == |pages|
    ensures forall i :: 0 <= i < |pages| ==>
      Cleaned(pages, regions)[i] == pages[i].(marks := pages[i].marks + CoversFor(regions, i))
  {
    if regions != [] {
      var init := regions[..|regions| - 1];
      CleanedPages(pages, init);
      forall i | 0 <= i < |pages|
        ensures Cleaned(pages, regions)[i] == pages[i].(marks := pages[i].marks + CoversFor(regions, i))
      {
        var before := Cleaned(pages, init)[i];
        assert before.marks == pages[i].marks + CoversFor(init, i);
        if regions[|regions| - 1].pageIndex == i {
          assert pages[i].marks + CoversFor(init, i) + [CoverOf(regions[|regions| - 1])]
              == pages[i].marks + CoversFor(regions, i);
        } else {
          assert CoversFor(regions, i) == CoversFor(init, i) + [];
        }
      }
    }
  }

  /** A region list none of whose entries names an existing page leaves the document as it was. */
  lemma {:induction false} OutOfRangeRegionsIgnored(pages: seq<Page>, regions: seq<Region>)
    requires forall k :: 0 <= k < |regions| ==> !(0 <= regions[k].pageIndex < |pages|)
    ensures Cleaned(pages, regions) == pages
  {
    if regions != [] {
      var init := regions[..|regions| - 1];
      assert forall k :: 0 <= k < |init| ==> init[k] == regions[k];
      OutOfRangeRegionsIgnored(pages, init);
    }
  }

  function Delta(rotations: map<int, int>, i: int): int {
    if i in rotations then rotations[i] else 0
  }

  /** Every page's rotation after `rotatePDF`: its own angle plus its entry, if any. */
  function Rotated(pages: seq<Page>, rotations: map<int, int>): (r: seq<Page>)
    ensures |r| == |pages|
    ensures forall i :: 0 <= i < |pages| ==>
      r[i].rotation == pages[i].rotation + Delta(rotations, i) &&
      r[i].width == pages[i].width && r[i].height == pages[i].height && r[i].marks == pages[i].marks
  {
    seq(|pages|, i requires 0 <= i < |pages| => pages[i].(rotation := pages[i].rotation + Delta(rotations, i)))
  }

  /** The entries that name pages of the document; the others are skipped. */
  function InRange(rotations: map<int, int>, count: nat): map<int, int> {
    map i | i in rotations && 0 <= i < count :: rotations[i]
  }

  /** Entries for indices outside the document have no effect. */
  lemma OutOfRangeRotationsIgnored(pages: seq<Page>, rotations: map<int, int>)
    ensures Rotated(pages, rotations) == Rotated(pages, InRange(rotations, |pages|))
  {
    var a, b := Rotated(pages, rotations), Rotated(pages, InRange(rotations, |pages|));
    assert forall i :: 0 <= i < |pages| ==> a[i] == b[i];
  }

  /** The same angles negated. */
  function Negated(rotations: map<int, int>): map<int, int> {
    map i | i in rotations :: -rotations[i]
  }

  /** Rotation is additive and not reduced modulo 360, so the opposite angles undo it. */
  lemma RotationUndone(pages: seq<Page>, rotations: map<int, int>)
    ensures Rotated(Rotated(pages, rotations), Negated(rotations)) == pages
  {
    var r := Rotated(Rotated(pages, rotations), Negated(rotations));
    assert forall i :: 0 <= i < |pages| ==> r[i] == pages[i];
  }

  predicate QuarterTurn(angle: int) {
    angle % 90 == 0
  }

  /** Pages at multiples of 90 degrees stay there when every requested angle is one. */
  lemma RotationKeepsQuarterTurns(pages: seq<Page>, rotations: map<int, int>)
    requires forall i :: 0 <= i < |pages| ==> QuarterTurn(pages[i].rotation)
    requires forall i :: i in rotations ==> QuarterTurn(rotations[i])
    ensures forall i :: 0 <= i < |pages| ==> QuarterTurn(Rotated(pages, rotations)[i].rotation)
  {
    forall i | 0 <= i < |pages|
      ensures QuarterTurn(Rotated(pages, rotations)[i].rotation)
    {
      QuarterSum(pages[i].rotation, Delta(rotations, i));
    }
  }

  /** Two multiples of 90 add up to a multiple of 90. */
  lemma QuarterSum(a: int, d: int)
    requires QuarterTurn(a) && QuarterTurn(d)
    ensures QuarterTurn(a + d)
  {
    var p, q := a / 90, d / 90;
    assert a == 90 * p && d == 90 * q;
    assert a + d == 90 * (p + q);
  }

  datatype MarkType = TextType | ImageType

  /** The options of `watermarkPDF`; `None` is an option left undefined. */
  datatype WatermarkOptions = WatermarkOptions(
    kind: Option<MarkType>, color: Option<string>, size: Option<real>, opacity: Option<real>,
    rotation: Option<real>, position: Option<string>, x: Option<real>, y: Option<real>,
    targetPages: Option<Placement.Targets>)

  /** An image is drawn only when the type is "image" and the content is a file. */
  predicate DrawsImage(content: Content, options: WatermarkOptions) {
    options.kind.GetOr(TextType) == ImageType && content.FileContent?
  }

  /** The width and height the mark is placed by: the scaled image, or the text's extent. */
  function ObjectSize(content: Content, options: WatermarkOptions, textWidth: real, textHeight: real): Placement.Size
    requires DrawsImage(content, options) ==> content.width > 0.0
  {
    if DrawsImage(content, options) then
      Placement.ImageMarkSize(options.size.GetOr(50.0), Placement.Size(content.width, content.height))
    else Placement.Size(textWidth, textHeight)
  }

  /** The mark `watermarkPDF` draws on a page of the given size. */
  function MarkFor(content: Content, options: WatermarkOptions, width: real, height: real,
                   textWidth: real, textHeight: real): (m: Mark)
    requires DrawsImage(content, options) ==> content.width > 0.0
    ensures DrawsImage(content, options) <==> m.ImageMark?
    ensures m.ImageMark? ==>
      m.png == (content.mime == "image/png") && m.box.width == options.size.GetOr(50.0) &&
      m.box.height * content.width == content.height * options.size.GetOr(50.0)
    ensures m.TextMark? ==>
      m.content == content && m.size == options.size.GetOr(50.0) &&
      m.colour == Colour.DecodeColour(options.color.GetOr("#cccccc"))
    ensures m.ImageMark? || m.TextMark?
  {
    var size := ObjectSize(content, options, textWidth, textHeight);
    var anchor := Placement.AnchorOf(options.position.GetOr("center"));
    var p := Placement.Position(options.x, options.y, anchor, width, height, size.width, size.height);
    var opacity, rotate := options.opacity.GetOr(0.5), options.rotation.GetOr(0.0);
    if DrawsImage(content, options) then
      ImageMark(content.mime == "image/png", Box(p.x, p.y, size.width, size.height), opacity, rotate)
    else
      TextMark(content, p, options.size.GetOr(50.0), Colour.DecodeColour(options.color.GetOr("#cccccc")), opacity, rotate)
  }

  /** Where the mark lands on a page. */
  function MarkOrigin(m: Mark): Placement.Point
    requires m.ImageMark? || m.TextMark?
  {
    if m.ImageMark? then Placement.Point(m.box.x, m.box.y) else m.at
  }

  /** A page with the mark added. */
  function Stamp(page: Page, content: Content, options: WatermarkOptions, textWidth: real, textHeight: real): Page
    requires DrawsImage(content, options) ==> content.width > 0.0
  {
    page.(marks := page.marks + [MarkFor(content, options, page.width, page.height, textWidth, textHeight)])
  }

  /** Every page after `watermarkPDF`: stamped when targeted, untouched otherwise. */
  function Watermarked(pages: seq<Page>, content: Content, options: WatermarkOptions,
                       textWidth: real, textHeight: real): (r: seq<Page>)
    requires DrawsImage(content, options) ==> content.width > 0.0
    ensures |r| == |pages|
  {
    seq(|pages|, i requires 0 <= i < |pages| =>
      if Placement.Targeted(options.targetPages.GetOr(Placement.AllPages), i)
      then Stamp(pages[i], content, options, textWidth, textHeight) else pages[i])
  }

  /**
   * A targeted page gains exactly one mark, the one `MarkFor` gives at that
   * page's size, after its own; an untargeted page is unchanged. With
   * no `targetPages`, or "all", every page is targeted.
   */
  lemma WatermarkTargets(pages: seq<Page>, content: Content, options: WatermarkOptions,
                         textWidth: real, textHeight: real, i: int)
    requires DrawsImage(content, options) ==> content.width > 0.0
    requires 0 <= i < |pages|
    ensures var r := Watermarked(pages, content, options, textWidth, textHeight)[i];
      var t := options.targetPages.GetOr(Placement.AllPages);
      r.width == pages[i].width && r.height == pages[i].height && r.rotation == pages[i].rotation &&
      (t.AllPages? || i in t.indices ==>
        r.marks == pages[i].marks + [MarkFor(content, options, pages[i].width, pages[i].height, textWidth, textHeight)]) &&
      (t.Only? && i !in t.indices ==> r == pages[i])
  {
    var r := Watermarked(pages, content, options, textWidth, textHeight)[i];
    if Placement.Targeted(options.targetPages.GetOr(Placement.AllPages), i) {
      assert r.marks == pages[i].marks + [MarkFor(content, options, pages[i].width, pages[i].height, textWidth, textHeight)];
    }
  }

  /**
   * Without an explicit `x` and `y` the mark sits at the anchor of `position`
   * (the centre for an unknown name); with both it sits exactly there.
   */
  lemma WatermarkPlacement(content: Content, options: WatermarkOptions, width: real, height: real,
                           textWidth: real, textHeight: real)
    requires DrawsImage(content, options) ==> content.width > 0.0
    ensures var m := MarkFor(content, options, width, height, textWidth, textHeight);
      var s := ObjectSize(content, options, textWidth, textHeight);
      MarkOrigin(m) == if options.x.Some? && options.y.Some? then Placement.Point(options.x.value, options.y.value)
        else Placement.AnchorOrigin(Placement.AnchorOf(options.position.GetOr("center")), width, height, s.width, s.height)
  {
  }

  /** With every option left out, a text mark is 50 units, light grey, half opaque, upright and centred. */
  lemma WatermarkDefaults(text: string, width: real, height: real, textWidth: real, textHeight: real)
    ensures var none := WatermarkOptions(None, None, None, None, None, None, None, None, None);
      MarkFor(TextContent(text), none, width, height, textWidth, textHeight) ==
      TextMark(TextContent(text), Placement.Point((width - textWidth) / 2.0, (height - textHeight) / 2.0),
               50.0, Colour.Rgb(Some(0.8), Some(0.8), Some(0.8)), 0.5, 0.0)
  {
    Colour.DefaultColour();
    Placement.AnchorNameRoundTrip(Placement.Center);
  }

  datatype PageSizeMode = Fit | A4

  /** An input file with the size the image has once embedded. */
  datatype ImageFile = ImageFile(info: ImageImport.FileInfo, width: real, height: real)

  predicate Supported(f: ImageFile) {
    ImageImport.Classify(f.info) != ImageImport.Unsupported
  }

  /** What A4 mode needs to divide by: every supported image has a positive size. */
  predicate Measurable(files: seq<ImageFile>, mode: PageSizeMode) {
    mode == A4 ==> forall k :: 0 <= k < |files| && Supported(files[k]) ==> files[k].width > 0.0 && files[k].height > 0.0
  }

  /** The page made for one supported image. */
  function ImagePage(f: ImageFile, mode: PageSizeMode): (p: Page)
    requires Supported(f)
    requires mode == A4 ==> f.width > 0.0 && f.height > 0.0
  {
    var png := ImageImport.Classify(f.info) == ImageImport.Png;
    if mode == Fit then
      var b := ImageImport.FitBox(f.width, f.height);
      Page(f.width, f.height, 0, [ImageMark(png, Box(b.x, b.y, b.width, b.height), 1.0, 0.0)])
    else
      var b := ImageImport.A4Box(f.width, f.height);
      Page(ImageImport.A4Width, ImageImport.A4Height, 0, [ImageMark(png, Box(b.x, b.y, b.width, b.height), 1.0, 0.0)])
  }

  /** The pages of `imagesToPDF`: one per supported file, in file order. */
  function ImagePages(files: seq<ImageFile>, mode: PageSizeMode): seq<Page>
    requires Measurable(files, mode)
  {
    if files == [] then []
    else
      var init, last := files[..|files| - 1], files[|files| - 1];
      assert Measurable(init, mode) by {
        assert forall k :: 0 <= k < |init| ==> init[k] == files[k];
      }
      ImagePages(init, mode) + (if Supported(last) then [ImagePage(last, mode)] else [])
  }

  /** `imagesToPDF`: a new document with a page per supported image. */
  method ImagesToPdf(files: seq<ImageFile>, mode: PageSizeMode) returns (doc: Document)
    requires Measurable(files, mode)
    ensures fresh(doc)
    ensures doc.pages == ImagePages(files, mode)
  {
    doc := new Document([]);
    for k := 0 to |files|
      invariant Measurable(files[..k], mode)
      invariant doc.pages == ImagePages(files[..k], mode)
    {
      assert files[..k + 1][..k] == files[..k];
      assert Measurable(files[..k + 1], mode);
      if Supported(files[k]) {
        doc.AddPage(ImagePage(files[k], mode));
      }
    }
    assert files[..|files|] == files;
  }

  /** The supported files, in order. */
  function SupportedFiles(files: seq<ImageFile>): seq<ImageFile> {
    if files == [] then []
    else
      var last := files[|files| - 1];
      SupportedFiles(files[..|files| - 1]) + (if Supported(last) then [last] else [])
  }

  /**
   * Each page comes from the supported file in the same position: in fit mode
   * the page is the image's size and the image covers it; in A4 mode the page
   * is A4 and the image lies centred within the margins.
   */
  lemma {:induction false} ImagePagesMatch(files: seq<ImageFile>, mode: PageSizeMode)
    requires Measurable(files, mode)
    ensures var pages, kept := ImagePages(files, mode), SupportedFiles(files);
      |pages| == |kept| &&
      forall j :: 0 <= j < |pages| ==>
        Supported(kept[j]) && |pages[j].marks| == 1 && pages[j].marks[0].ImageMark? &&
        pages[j].rotation == 0 &&
        (mode == Fit ==>
          pages[j].width == kept[j].width && pages[j].height == kept[j].height &&
          pages[j].marks[0].box == Box(0.0, 0.0, kept[j].width, kept[j].height)) &&
        (mode == A4 ==>
          pages[j].width == ImageImport.A4Width && pages[j].height == ImageImport.A4Height &&
          InsideMargins(pages[j].marks[0].box))
  {
    if files != [] {
      var init := files[..|files| - 1];
      assert forall k :: 0 <= k < |init| ==> init[k] == files[k];
      ImagePagesMatch(init, mode);
    }
  }

  /** The A4 drawing area: 20 units in from every edge, centred. */
  predicate InsideMargins(b: Box) {
    ImageImport.Margin <= b.x && b.x + b.width <= ImageImport.A4Width - ImageImport.Margin &&
    ImageImport.Margin <= b.y && b.y + b.height <= ImageImport.A4Height - ImageImport.Margin &&
    b.x == ImageImport.A4Width - (b.x + b.width) && b.y == ImageImport.A4Height - (b.y + b.height)
  }
}
