/**
 * The per-file decisions of `imagesToPDF` (src/lib/pdf-utils.ts): which
 * embedder a file goes to, judged by its MIME type and then by its name's
 * extension without regard to case, and where the image lands on its page —
 * a page of the image's own size, or an A4 page with the image scaled to fit
 * inside 20-unit margins and centred.
 */
module ImageImport {
  import opened Strings

  datatype ImageKind = Jpeg | Png | Unsupported

  /** A file as the importer sees it: its MIME type and its name. */
  datatype FileInfo = FileInfo(mime: string, name: string)

  predicate JpegByName(name: string) {
    EndsWith(ToLower(name), ".jpg") || EndsWith(ToLower(name), ".jpeg")
  }

  predicate PngByName(name: string) {
    EndsWith(ToLower(name), ".png")
  }

  /** The `if`/`else if`/`continue` chain: JPEG is tried first, then PNG, else the file is skipped. */
  function Classify(f: FileInfo): (k: ImageKind)
    ensures k == Jpeg <==> f.mime == "image/jpeg" || JpegByName(f.name)
    ensures k == Png ==> f.mime == "image/png" || PngByName(f.name)
    ensures k == Unsupported <==>
      !(f.mime == "image/jpeg" || JpegByName(f.name) || f.mime == "image/png" || PngByName(f.name))
  {
    if f.mime == "image/jpeg" || JpegByName(f.name) then Jpeg
    else if f.mime == "image/png" || PngByName(f.name) then Png
    else Unsupported
  }

  /** Lower-casing the name first changes nothing: the extension test ignores case. */
  lemma ClassifyIgnoresNameCase(f: FileInfo)
    ensures Classify(FileInfo(f.mime, ToLower(f.name))) == Classify(f)
  {
    ToLowerIdempotent(f.name);
  }

  /** The lower-cased tail of a name is the tail of its lower-cased form. */
  lemma LowerSuffix(name: string, n: nat)
    requires n <= |name|
    ensures ToLower(name)[|name| - n..] == ToLower(name[|name| - n..])
  {
  }

  /** An upper-case `.JPG` or `.PNG` extension is recognised, whatever the MIME type says. */
  lemma UpperCaseExtensions(mime: string, name: string)
    ensures EndsWith(name, ".JPG") ==> Classify(FileInfo(mime, name)) == Jpeg
    ensures EndsWith(name, ".PNG") && mime != "image/jpeg" && !JpegByName(name) ==>
      Classify(FileInfo(mime, name)) == Png
  {
    if EndsWith(name, ".JPG") {
      LowerSuffix(name, 4);
      assert ToLower(".JPG") == ".jpg";
    }
    if EndsWith(name, ".PNG") {
      LowerSuffix(name, 4);
      assert ToLower(".PNG") == ".png";
    }
  }

  const Margin: real := 20.0
  /** pdf-lib's `PageSizes.A4`, in points. */
  const A4Width: real := 595.28
  const A4Height: real := 841.89

  /** Where and how large the image is drawn on its page. */
  datatype Box = Box(x: real, y: real, width: real, height: real)

  function Min(a: real, b: real): (m: real)
    ensures m <= a && m <= b && (m == a || m == b)
  {
    if a <= b then a else b
  }

  /** "fit" mode: the page is the image's size and the image covers it from the origin. */
  function FitBox(width: real, height: real): (b: Box)
    ensures b.x == 0.0 && b.y == 0.0 && b.width == width && b.height == height
  {
    Box(0.0, 0.0, width, height)
  }

  /** "a4" mode: scaled by the smaller of the two ratios that fill the margins, then centred. */
  function A4Box(width: real, height: real): (b: Box)
    requires width > 0.0 && height > 0.0
    ensures Margin <= b.x && b.x + b.width <= A4Width - Margin
    ensures Margin <= b.y && b.y + b.height <= A4Height - Margin
    ensures b.x == A4Width - (b.x + b.width) && b.y == A4Height - (b.y + b.height)
    ensures b.width * height == b.height * width
    ensures b.width == A4Width - 2.0 * Margin || b.height == A4Height - 2.0 * Margin
  {
    var scaleFactor := Min((A4Width - Margin * 2.0) / width, (A4Height - Margin * 2.0) / height);
    var scaledWidth := width * scaleFactor;
    var scaledHeight := height * scaleFactor;
    ScaledFits(width, height, scaleFactor);
    Box((A4Width - scaledWidth) / 2.0, (A4Height - scaledHeight) / 2.0, scaledWidth, scaledHeight)
  }

  /** Scaling by the smaller ratio fills one margin box dimension and stays within the other. */
  lemma ScaledFits(width: real, height: real, s: real)
    requires width > 0.0 && height > 0.0
    requires s == Min((A4Width - Margin * 2.0) / width, (A4Height - Margin * 2.0) / height)
    ensures 0.0 < width * s <= A4Width - 2.0 * Margin
    ensures 0.0 < height * s <= A4Height - 2.0 * Margin
    ensures width * s == A4Width - 2.0 * Margin || height * s == A4Height - 2.0 * Margin
  {
    var sw, sh := (A4Width - Margin * 2.0) / width, (A4Height - Margin * 2.0) / height;
    assert width * sw == A4Width - Margin * 2.0;
    assert height * sh == A4Height - Margin * 2.0;
    if sw <= sh {
      assert s == sw;
      assert height * s <= height * sh;
    } else {
      assert s == sh;
      assert width * s <= width * sw;
    }
  }
}
