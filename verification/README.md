# pdf-toolkit in Dafny

A model of the logic that the pdf-toolkit browser application writes itself, around the PDF libraries it calls. The application is a set of single-page tools: split, merge, rotate, watermark, remove a watermark, sign, images to PDF, PDF to form, a PDF reader and a speed reader. The model covers:

- **Page-range parser** (`RangeParser`, src/app/tools/split-pdf/page.tsx). Text such as `1, 3-5, 8` becomes the ascending, duplicate-free list of 0-based pages it names. Unparseable tokens and pages outside 1..max are dropped silently.
- **Document operations** (`Documents`, `Placement`, `Colour`, `ImageImport`, `FormFields`; all in src/lib/pdf-utils.ts). A document is a sequence of abstract page records: size, `/Rotate` angle and the marks drawn on the page. The model covers:
  - the page filters of `removeWatermark`, `rotatePDF` and `watermarkPDF`;
  - the nine-anchor watermark placement with its 20-unit margin and explicit override;
  - the `#rrggbb` colour decoding;
  - the image classification and A4 fit of `imagesToPDF`;
  - the kind mapping of `extractFormFields`.

  Coordinates are PDF default user space: origin at the lower-left corner, y upward, units of 1/72 inch (section 8.3.2.3 of ISO 32000-1).
- **Screen-to-PDF conversions** (`Coordinates`) of the redaction, watermark and signing editors. Each scales displayed pixels by page points over displayed pixels and flips y.
- **Editor state** (`FileLists`, `RotationEditor`, `SignEditor`, `RedactionEditor`, `WatermarkEditor`, `Viewer`, `Rsvp`, `Paging`). Each page's React state is a class whose fields its handlers reassign:
  - the reorderable file lists of the merge and image pages;
  - the per-page rotation record;
  - the signature list;
  - the redaction box and its region list;
  - the watermark box;
  - the reader's page, zoom and rotation;
  - the speed reader's word cursor.
- **Form-to-HTML serialiser** (`FormHtml`, src/app/tools/pdf-to-form/client.tsx).
- **Text normalisation and line grouping** (`TextExtraction`, src/lib/pdf-client.ts): the words of `extractTextFromPDF` and the paragraphs of `pdfToDocx`.

String primitives of JavaScript (`trim`, one-character `split`, `join`, ASCII `toLowerCase`) are in `Strings`. `Option` and `Result` are in `Wrappers`.

The merge page and the image page share the same list handlers, line for line. `FileLists.FileList` models both. The table cites the merge page; the image page repeats the same handlers at src/app/tools/jpg-to-pdf/page.tsx:18-43.

## Model

| member | source | states |
|---|---|---|
| RangeParser.ParseNumber | src/app/tools/split-pdf/page.tsx:43-51 | `Number(token)` on a token: a finite result is never negative; a string of digits parses to its decimal value; the words `Infinity` and `+Infinity` give Infinity |
| RangeParser.Contribution | src/app/tools/split-pdf/page.tsx:41-54 | the pages one comma-separated token adds; every one lies in [0, max); corrected: a range whose end is Infinity stops at the last page |
| RangeParser.RangeSetStep | src/app/tools/split-pdf/page.tsx:45-47 | one more turn of the inner loop adds page `i - 1` exactly when `1 <= i <= max` |
| RangeParser.RangeSetExit | src/app/tools/split-pdf/page.tsx:45 | when the inner loop exits, the pages added are the whole range, and none for a reversed range |
| RangeParser.AddRange | src/app/tools/split-pdf/page.tsx:45-47 | the inner loop adds exactly the pages of `[start, end]` that lie in 1..max |
| RangeParser.AddToken | src/app/tools/split-pdf/page.tsx:41-54 | one turn of the token loop adds exactly the token's contribution |
| RangeParser.ParseRange | src/app/tools/split-pdf/page.tsx:36-57 | the loop result equals the specification list; it is strictly increasing, in [0, max), and holds exactly the pages some token contributes |
| RangeParser.HandleExtract | src/app/tools/split-pdf/page.tsx:74-84 | an empty parse is reported as an invalid range, and extraction gets the non-empty list otherwise |
| RangeParser.AscendingSound | src/app/tools/split-pdf/page.tsx:56 | the sorted listing is strictly increasing and holds exactly the found pages below n |
| RangeParser.PageSetSnoc | src/app/tools/split-pdf/page.tsx:40-55 | each token adds its contribution to the pages found before it |
| RangeParser.PageSetBounded | src/app/tools/split-pdf/page.tsx:46-51 | every page found lies in [0, max) |
| RangeParser.PageSetIsUnion | src/app/tools/split-pdf/page.tsx:38-55 | a page is found iff some token contributes it |
| RangeParser.TokenOrderIrrelevant | src/app/tools/split-pdf/page.tsx:38-56 | any rearrangement of the tokens finds the same pages |
| RangeParser.PlainToken | src/app/tools/split-pdf/page.tsx:49-53 | a plain number n contributes exactly n - 1 when 1 <= n <= max, and nothing otherwise |
| RangeParser.RangeToken | src/app/tools/split-pdf/page.tsx:42-48 | `a-b` contributes i - 1 for each page i in [a, b] ∩ [1, max]; a reversed range contributes nothing |
| RangeParser.EndlessRange | src/app/tools/split-pdf/page.tsx:42-47 | as written: for `a-Infinity` with a a string of digits, both ends pass the NaN test and `i <= end` holds for every i, so the inner loop never ends |
| RangeParser.InfiniteEndToLastPage | src/app/tools/split-pdf/page.tsx:42-47 | corrected: `a-Infinity` contributes the pages from a to the last page, the same as the range `a-max` |
| RangeParser.RangeTokenReads | src/app/tools/split-pdf/page.tsx:42-43 | a token `a-b` splits into exactly the two parts a and b |
| RangeParser.RangeSetPastEnd | src/app/tools/split-pdf/page.tsx:45-46 | raising a range's end past max adds no page |
| RangeParser.GarbageToken | src/app/tools/split-pdf/page.tsx:44-51 | a token that is neither a number nor a range contributes nothing |
| RangeParser.IncreasingUnique | src/app/tools/split-pdf/page.tsx:56 | two strictly increasing lists with the same members are equal, so the sorted output is determined by the set |
| RangeParser.AscendingIs | src/app/tools/split-pdf/page.tsx:56 | the listing of a set is the one strictly increasing list of its members |
| RangeParser.PlaceholderExample | src/app/tools/split-pdf/page.tsx:160 | the placeholder `1, 3-5, 8` over ten pages gives [0, 2, 3, 4, 7] |
| RangeParser.RepeatedPageExample | src/app/tools/split-pdf/page.tsx:37-56 | `1,1,1` gives [0]: a repeated page appears once |
| RangeParser.DroppedTokensExample | src/app/tools/split-pdf/page.tsx:44-53 | `0, 99`, `abc` and the empty string all give [] over ten pages |
| Documents.Document.constructor | src/lib/pdf-utils.ts:326 | a document holds the given pages |
| Documents.Document.AddPage | src/lib/pdf-utils.ts:344-353 | `addPage` puts the page after the existing ones |
| Documents.Document.RemoveWatermark | src/lib/pdf-utils.ts:61-76 | the loop over regions leaves the pages that `Cleaned` specifies |
| Documents.CleanedPages | src/lib/pdf-utils.ts:61-76 | each page keeps its size and rotation and gains one white rectangle per region naming it, in list order |
| Documents.OutOfRangeRegionsIgnored | src/lib/pdf-utils.ts:61-62 | regions whose index is not a page leave the document unchanged |
| Documents.Document.RotatePdf | src/lib/pdf-utils.ts:133-140 | the loop over the entries, in any order, leaves the pages that `Rotated` specifies |
| Documents.Rotated | src/lib/pdf-utils.ts:133-140 | every page's angle becomes its own plus its entry; size and marks are kept |
| Documents.OutOfRangeRotationsIgnored | src/lib/pdf-utils.ts:134-135 | entries whose key is not a page index have no effect |
| Documents.RotationUndone | src/lib/pdf-utils.ts:137-138 | angles add without reduction mod 360, so the negated record restores every page |
| Documents.RotationKeepsQuarterTurns | src/lib/pdf-utils.ts:137-138 | pages at multiples of 90 stay there when every entry is a multiple of 90 |
| Documents.Document.WatermarkPdf | src/lib/pdf-utils.ts:193-287 | `ok` is false exactly when a decoded channel is NaN or lies outside [0, 1], where `rgb` throws, and the pages are then untouched; otherwise the loop over pages leaves the pages that `Watermarked` specifies |
| Documents.MarkFor | src/lib/pdf-utils.ts:178-286 | an image is drawn iff the type is image and the content is a file; it is `size` wide with the image's aspect ratio; text carries the size and the decoded colour, defaults 50 and `#cccccc` |
| Documents.Watermarked | src/lib/pdf-utils.ts:200-287 | the document keeps its page count |
| Documents.WatermarkTargets | src/lib/pdf-utils.ts:200-287 | a targeted page gains exactly one mark after its own, the one `MarkFor` places for that page's size; with "all" or no option every page is targeted; an untargeted page is unchanged |
| Documents.WatermarkPlacement | src/lib/pdf-utils.ts:218-265 | the mark sits at the explicit x, y when both are given, and at the anchor of `position` otherwise |
| Documents.WatermarkDefaults | src/lib/pdf-utils.ts:164-172 | with no options, text is 50 units, colour 0.8 grey, half opaque, unrotated and centred |
| Documents.ImagesToPdf | src/lib/pdf-utils.ts:324-372 | the loop over files builds exactly the pages `ImagePages` specifies |
| Documents.ImagePagesMatch | src/lib/pdf-utils.ts:328-368 | one page per supported file in order; fit pages are the image's size with the image at the origin; A4 pages hold the image centred within the margins |
| Placement.AnchorOf | src/lib/pdf-utils.ts:226-264 | a non-centre anchor is chosen only by its own name |
| Placement.AnchorNameRoundTrip | src/lib/pdf-utils.ts:154 | each of the nine position names selects its own anchor |
| Placement.AnchorOrigin | src/lib/pdf-utils.ts:218-264 | pinned edges are 20 units from the object; centred axes leave equal space on both sides |
| Placement.UnknownPositionCentres | src/lib/pdf-utils.ts:259-263 | an unrecognised position centres the object |
| Placement.AnchorInsideMargins | src/lib/pdf-utils.ts:220-258 | an object that fits inside the margins stays inside them at every anchor |
| Placement.AnchorsSymmetric | src/lib/pdf-utils.ts:226-258 | mirrored anchors give positions mirrored about the page's centre lines |
| Placement.Position | src/lib/pdf-utils.ts:222-225 | both coordinates given: the object goes exactly there |
| Placement.HalfOverrideIgnored | src/lib/pdf-utils.ts:222 | one coordinate alone does not override the anchor |
| Placement.ImageMarkSize | src/lib/pdf-utils.ts:185-187 | an image mark is `size` wide and keeps the image's aspect ratio |
| Colour.ParseHex | src/lib/pdf-utils.ts:193-195 | `parseInt(s, 16)` of a string of hex digits is its value |
| Colour.ParseMagnitude | src/lib/pdf-utils.ts:193-195 | the digits after an optional `0x` read as hex; an all-hex string gives its value |
| Colour.HexRun | src/lib/pdf-utils.ts:193-195 | the longest run of leading hex digits |
| Colour.Slice | src/lib/pdf-utils.ts:193-195 | `slice` within bounds is the subsequence; past the end it is empty |
| Colour.ChannelOfWellFormed | src/lib/pdf-utils.ts:193 | a channel of a well-formed colour is its two-digit byte over 255 |
| Colour.WellFormedDecodes | src/lib/pdf-utils.ts:193-195 | a well-formed `#rrggbb` decodes to its three bytes over 255 |
| Colour.WellFormedInRange | src/lib/pdf-utils.ts:193-195 | each channel of a well-formed colour lies in [0, 1] |
| Colour.WellFormedAccepted | src/lib/pdf-utils.ts:193-196 | a well-formed colour passes the range check of `rgb` |
| Colour.NegativeRedRejected | src/lib/pdf-utils.ts:193-196 | a minus sign in place of the red digits, as in `#-1ffff`, gives a negative red channel, so `rgb` throws |
| Colour.ShortColourRejected | src/lib/pdf-utils.ts:193-196 | a colour of five characters or fewer leaves the blue channel NaN, which `rgb` rejects |
| Colour.ShorthandWhiteRejected | src/lib/pdf-utils.ts:193-196 | the three-digit `#fff` is rejected by `rgb` |
| Colour.EncodeColour | src/lib/pdf-utils.ts:150 | three bytes written as `#rrggbb` form a well-formed colour |
| Colour.DecodeEncode | src/lib/pdf-utils.ts:193-195 | decoding an encoded colour gives each byte over 255 |
| Colour.DefaultColour | src/lib/pdf-utils.ts:166 | the default `#cccccc` is 0.8 in each channel |
| ImageImport.Classify | src/lib/pdf-utils.ts:333-339 | JPEG iff the MIME type or the lower-cased name says so; otherwise PNG when either says so; otherwise skipped |
| ImageImport.ClassifyIgnoresNameCase | src/lib/pdf-utils.ts:333-335 | the name's case does not affect the decision |
| ImageImport.UpperCaseExtensions | src/lib/pdf-utils.ts:333-335 | `.JPG` is JPEG whatever the MIME type; `.PNG` is PNG unless it is JPEG by type or name |
| ImageImport.FitBox | src/lib/pdf-utils.ts:343-350 | in fit mode the image covers its page from the origin |
| ImageImport.A4Box | src/lib/pdf-utils.ts:351-367 | in A4 mode the image keeps its aspect ratio, fills one margin dimension, lies within the 20-unit margins and is centred |
| ImageImport.ScaledFits | src/lib/pdf-utils.ts:357-360 | scaling by the smaller ratio fits both dimensions and fills one |
| FormFields.ExtractField | src/lib/pdf-utils.ts:18-48 | each library field class maps to its own kind (both directions), keeps its name and options, and carries its getter's value: the text or undefined, the checked state, the chosen option or undefined, the selection list; signature and button fields are unknown with no value |
| FormFields.ExtractFormFields | src/lib/pdf-utils.ts:10-50 | one well-typed record per field, in order: record i is field i's mapping |
| FormFields.ExtractRestores | src/lib/pdf-utils.ts:18-48 | a record gives back the field it was read from exactly when that field is neither a signature nor a button field |
| FormHtml.TextValue | src/app/tools/pdf-to-form/client.tsx:62 | `value \|\| ''`: a falsy value gives the empty string, and a string gives itself |
| FormHtml.AppendField | src/app/tools/pdf-to-form/client.tsx:57-81 | one field appends exactly its block, including the loops over radio and dropdown options; with `AsWritten` the block is the source's, with `Corrected` a dropdown's selection is marked |
| FormHtml.GenerateHtml | src/app/tools/pdf-to-form/client.tsx:54-87 | the accumulator equals `Form(fields, test)`: with `AsWritten` the source's output, with `Corrected` the same with dropdown selections marked; it starts with `<form>\n` and ends with the submit line and `</form>` |
| FormHtml.FormFrame | src/app/tools/pdf-to-form/client.tsx:54-87 | the form opens with `<form>\n` and closes with the submit line and `</form>` |
| FormHtml.OnlyDropdownsDiffer | src/app/tools/pdf-to-form/client.tsx:72-78 | without dropdown fields the corrected form is the source's form |
| FormHtml.DropdownControl | src/app/tools/pdf-to-form/client.tsx:72-78 | a dropdown with options is a select element holding one option line per option, in order |
| FormHtml.BlocksAppend | src/app/tools/pdf-to-form/client.tsx:57-81 | the blocks of two field lists run on, so the output holds one block per field in order |
| FormHtml.BlockAt | src/app/tools/pdf-to-form/client.tsx:55-84 | field k's block sits between the blocks of the fields before and after it |
| FormHtml.RadioMarksChoice | src/app/tools/pdf-to-form/client.tsx:65-71 | option k of a radio group is checked exactly when it is the chosen option |
| FormHtml.DropdownMarksSelection | src/app/tools/pdf-to-form/client.tsx:72-78 | corrected: entry k of a dropdown is selected exactly when the PDF's selection holds it |
| FormHtml.DropdownNeverSelected | src/app/tools/pdf-to-form/client.tsx:75 | as written: a dropdown's control is the corrected control of the same dropdown with nothing selected, whatever is selected |
| FormHtml.DropdownSelectionLost | src/app/tools/pdf-to-form/client.tsx:75 | with options a, b and b selected, the code as written marks neither line; the corrected lines mark b |
| FormHtml.TextCarriesValue | src/app/tools/pdf-to-form/client.tsx:61-62 | a text field's input carries the PDF's text, or '' when there is none |
| FormHtml.CheckboxMarksState | src/app/tools/pdf-to-form/client.tsx:63-64 | a checkbox carries `checked` exactly when the PDF's box is checked |
| FormHtml.LabelOnly | src/app/tools/pdf-to-form/client.tsx:59-78 | option lists, unknown fields and choice fields without options get only a label |
| FormHtml.NameVerbatim | src/app/tools/pdf-to-form/client.tsx:59 | the name appears unescaped in the label |
| Coordinates.ScreenRoundTrip | src/app/tools/remove-watermark/client.tsx:109-133 | screen-to-PDF and PDF-to-screen are inverse on a page of positive size |
| Coordinates.Max0 | src/app/tools/remove-watermark/client.tsx:116-117 | `Math.max(0, v)` is v when non-negative and 0 otherwise |
| Coordinates.RedactionRect | src/app/tools/remove-watermark/client.tsx:109-133 | the box's width and height scale by the axis ratios |
| Coordinates.RedactionCorners | src/app/tools/remove-watermark/client.tsx:129-133 | the PDF box has the clamped screen box's corners, mapped; its top edge is pageH - y·ratioY |
| Coordinates.RedactionInsidePage | src/app/tools/remove-watermark/client.tsx:109-133 | a box inside the displayed page covers part of the page in points |
| Coordinates.RedactionClamped | src/app/tools/remove-watermark/client.tsx:116-117 | negative drag coordinates act as 0 |
| Coordinates.ObjectHeight | src/app/tools/insert-watermark/client.tsx:92-103 | the pivot height is `size`, except for an image whose rendered height is found |
| Coordinates.WatermarkPivot | src/app/tools/insert-watermark/client.tsx:86-106 | the mark's origin is the screen point at the box's bottom-left, mapped to points |
| Coordinates.ZoomRoundTrip | src/app/tools/sign-pdf/client.tsx:57-65 | pixels to points and back, or the reverse, is the identity at any positive zoom |
| Coordinates.FlipYInvolution | src/app/tools/sign-pdf/client.tsx:181 | the y flip is its own inverse, and the box's top lands y below the page top |
| Paging.Navigate | src/app/tools/pdf-reader/client.tsx:49-55 | `changePage` moves only to a page in [1, numPages], and not before a document loads |
| Paging.NavigateStaysInRange | src/app/tools/pdf-reader/client.tsx:49-55 | a page in range stays in range |
| Paging.NavigateForwardBack | src/app/tools/pdf-reader/client.tsx:49-55 | forward then back returns to the page |
| Paging.PreviousClamped | src/app/tools/remove-watermark/client.tsx:281 | previous page, never below 1 |
| Paging.NextClamped | src/app/tools/remove-watermark/client.tsx:290 | next page, never past the last (1 with no document) |
| Paging.ClampedStaysInRange | src/app/tools/remove-watermark/client.tsx:281-290 | both buttons keep the page in [1, numPages] |
| Paging.Zoom | src/app/tools/pdf-reader/client.tsx:57-59 | the zoom stays in [0.5, 3] and moves by delta when that stays inside |
| Paging.ZoomOut | src/app/tools/sign-pdf/client.tsx:263 | zooming out never goes below 0.5 |
| Paging.ZoomIn | src/app/tools/sign-pdf/client.tsx:269 | zooming in never goes above 3 |
| Paging.ZoomInOut | src/app/tools/sign-pdf/client.tsx:263-269 | in then out away from the bounds returns to the start |
| FileLists.Without | src/app/tools/merge-pdf/page.tsx:19-21 | the filter removes exactly the element at the index and keeps the rest in order |
| FileLists.Swap | src/app/tools/merge-pdf/page.tsx:34 | the destructuring swap exchanges two positions and leaves the others |
| FileLists.MovedPermutes | src/app/tools/merge-pdf/page.tsx:23-36 | a move is a permutation |
| FileLists.UpThenDown | src/app/tools/merge-pdf/page.tsx:31-36 | moving up, then down from the new index, restores the list |
| FileLists.FileList.constructor | src/app/tools/merge-pdf/page.tsx:12 | the list starts empty |
| FileLists.FileList.Drop | src/app/tools/merge-pdf/page.tsx:15-17 | dropped files go after the existing ones, both in order |
| FileLists.FileList.Remove | src/app/tools/merge-pdf/page.tsx:19-21 | the list loses exactly the element at the index |
| FileLists.FileList.Move | src/app/tools/merge-pdf/page.tsx:23-37 | up at 0 and down at the end change nothing; otherwise the element swaps with its neighbour |
| FileLists.FileList.Submit | src/app/tools/merge-pdf/page.tsx:39-40 | the list is handed on iff it is non-empty |
| RotationEditor.PageTurned | src/app/tools/rotate-pdf/client.tsx:34-39 | the page's entry, 0 when missing, gains the angle; every other entry is unchanged |
| RotationEditor.Pages | src/app/tools/rotate-pdf/client.tsx:43 | the page indices 0..count-1 |
| RotationEditor.AllTurned | src/app/tools/rotate-pdf/client.tsx:41-47 | every page 0..count-1 gains the angle; other entries are kept |
| RotationEditor.AllTurnedStep | src/app/tools/rotate-pdf/client.tsx:43-45 | one loop turn extends the all-pages update by one page |
| RotationEditor.TurnBackRestores | src/app/tools/rotate-pdf/client.tsx:37 | -d then +d on a page gives the document the same rotation as before |
| RotationEditor.TurnsKeepQuarterTurns | src/app/tools/rotate-pdf/client.tsx:34-47 | turning by a multiple of 90 keeps every entry a multiple of 90 |
| RotationEditor.RotationPage.constructor | src/app/tools/rotate-pdf/client.tsx:14-17 | no file, no pages, empty record |
| RotationEditor.RotationPage.Load | src/app/tools/rotate-pdf/client.tsx:19-32 | the record is cleared; the page count changes only if the document loads |
| RotationEditor.RotationPage.Clear | src/app/tools/rotate-pdf/client.tsx:112-116 | no file, no pages, empty record |
| RotationEditor.RotationPage.RotatePage | src/app/tools/rotate-pdf/client.tsx:34-39 | the record becomes `PageTurned`, and entries stay multiples of 90 |
| RotationEditor.RotationPage.RotateAll | src/app/tools/rotate-pdf/client.tsx:41-47 | the copy-and-loop gives `AllTurned`, and entries stay multiples of 90 |
| RotationEditor.RotationPage.Save | src/app/tools/rotate-pdf/client.tsx:49-53 | the record is handed to `rotatePDF` iff a file is loaded |
| SignEditor.NewSignature | src/app/tools/sign-pdf/client.tsx:134-145 | a new signature is 200 by 100 points at (50, 50) on the current page |
| SignEditor.Repositioned | src/app/tools/sign-pdf/client.tsx:153-157 | signatures with other ids are unchanged, and the count is kept |
| SignEditor.RepositionedShownAtDrop | src/app/tools/sign-pdf/client.tsx:156 | a moved signature keeps its page and size, and is shown again exactly where it was dropped |
| SignEditor.WithoutId | src/app/tools/sign-pdf/client.tsx:160-162 | exactly the signatures with other ids remain |
| SignEditor.WithoutIdAppend | src/app/tools/sign-pdf/client.tsx:161 | removal works piece by piece, so the order of the rest is kept |
| SignEditor.WithoutAbsentId | src/app/tools/sign-pdf/client.tsx:161 | removing an id no signature has changes nothing |
| SignEditor.OnPage | src/app/tools/sign-pdf/client.tsx:298-299 | exactly the signatures of the page |
| SignEditor.ForPdf | src/app/tools/sign-pdf/client.tsx:179-188 | y becomes pageHeight - y - height; x, width, height and page are kept |
| SignEditor.ForPdfInvolution | src/app/tools/sign-pdf/client.tsx:181 | flipping twice gives the stored signature back |
| SignEditor.SignPage.constructor | src/app/tools/sign-pdf/client.tsx:86-90 | page 1, zoom 1, no signatures |
| SignEditor.SignPage.Load | src/app/tools/sign-pdf/client.tsx:97-113 | when the document loads: page 1, zoom 1 and no signatures |
| SignEditor.SignPage.ChangePage | src/app/tools/sign-pdf/client.tsx:115-121 | moves only to an existing page |
| SignEditor.SignPage.CreateSignature | src/app/tools/sign-pdf/client.tsx:123-151 | a drawn pad appends one new signature; an empty or missing pad adds nothing |
| SignEditor.SignPage.UpdatePosition | src/app/tools/sign-pdf/client.tsx:153-158 | the list becomes `Repositioned` at the current zoom |
| SignEditor.SignPage.RemoveSignature | src/app/tools/sign-pdf/client.tsx:160-162 | the list becomes `WithoutId` |
| SignEditor.SignPage.ZoomOut | src/app/tools/sign-pdf/client.tsx:263 | zoom out, staying in [0.5, 3] |
| SignEditor.SignPage.ZoomIn | src/app/tools/sign-pdf/client.tsx:269 | zoom in, staying in [0.5, 3] |
| SignEditor.SignPage.Visible | src/app/tools/sign-pdf/client.tsx:298-299 | only the signatures of the current page are shown |
| SignEditor.SignPage.Save | src/app/tools/sign-pdf/client.tsx:164-189 | nothing without a file, a signature or a document; otherwise every signature in order, flipped against its own page's height |
| RedactionEditor.Resized | src/app/tools/remove-watermark/client.tsx:249-250 | the handle never leaves a side below 20 |
| RedactionEditor.SideInput | src/app/tools/remove-watermark/client.tsx:305-313 | a number box takes any integer, and 0 for a non-number |
| RedactionEditor.AllPageRegions | src/app/tools/remove-watermark/client.tsx:58-61 | one copy of the selection for each page 0..n-1, in order |
| RedactionEditor.CleanAllCoversEachPage | src/app/tools/remove-watermark/client.tsx:58-66 | cleaning all pages covers each page exactly once with the selection |
| RedactionEditor.RedactionPage.constructor | src/app/tools/remove-watermark/client.tsx:20-29 | page 1, no selection, box 200 by 100 at (100, 100) |
| RedactionEditor.RedactionPage.Load | src/app/tools/remove-watermark/client.tsx:32-47 | when the document loads: page 1 and no selection |
| RedactionEditor.RedactionPage.Drag | src/app/tools/remove-watermark/client.tsx:225 | the box moves to the reported point |
| RedactionEditor.RedactionPage.ResizeBy | src/app/tools/remove-watermark/client.tsx:249-250 | the box is resized, never below 20 by 20 |
| RedactionEditor.RedactionPage.TypeWidth | src/app/tools/remove-watermark/client.tsx:305 | the typed width is taken, a non-number as 0, and the height, possibly fractional after a resize, is kept |
| RedactionEditor.RedactionPage.TypeHeight | src/app/tools/remove-watermark/client.tsx:313 | the typed height is taken, a non-number as 0, and the width is kept |
| RedactionEditor.RedactionPage.PreviousPage | src/app/tools/remove-watermark/client.tsx:281 | previous page, clamped at 1 |
| RedactionEditor.RedactionPage.NextPage | src/app/tools/remove-watermark/client.tsx:290 | next page, clamped at the last |
| RedactionEditor.RedactionPage.UpdateSelection | src/app/tools/remove-watermark/client.tsx:78-142 | with a document, the selection is the box converted to points; without one, nothing changes |
| RedactionEditor.RedactionPage.Apply | src/app/tools/remove-watermark/client.tsx:49-64 | nothing without a file and a selection; one region per page for all pages, else one for the page shown |
| WatermarkEditor.ContentOf | src/app/tools/insert-watermark/client.tsx:108 | the image only when the type is image and one is chosen, else the text |
| WatermarkEditor.TargetsOf | src/app/tools/insert-watermark/client.tsx:118 | "all", or the page shown as a 0-based index |
| WatermarkEditor.TargetsOnlyShownPage | src/app/tools/insert-watermark/client.tsx:118 | without "apply to all", exactly the page shown is targeted |
| WatermarkEditor.WatermarkPage.constructor | src/app/tools/insert-watermark/client.tsx:15-29 | the initial text, colour, opacity, rotation, size and box position |
| WatermarkEditor.WatermarkPage.Load | src/app/tools/insert-watermark/client.tsx:44-60 | when the document loads: page 1 and the box at (200, 300) |
| WatermarkEditor.WatermarkPage.UploadImage | src/app/tools/insert-watermark/client.tsx:62-68 | the first file becomes the image and size resets to 100; no file changes nothing |
| WatermarkEditor.WatermarkPage.Drag | src/app/tools/insert-watermark/client.tsx:160 | the box moves to the reported point |
| WatermarkEditor.WatermarkPage.Save | src/app/tools/insert-watermark/client.tsx:70-119 | nothing without a file, a document or a canvas; otherwise the request with the content, the options and the pivot in points |
| WatermarkEditor.SavedMarkAtPivot | src/app/tools/insert-watermark/client.tsx:86-119 | the saved mark lands at the box's bottom-left corner mapped to points |
| Viewer.TurnCycle | src/app/tools/pdf-reader/client.tsx:150 | the rotation stays in {0, 90, 180, 270}, and four presses return to the start |
| Viewer.Reader.constructor | src/app/tools/pdf-reader/client.tsx:21-25 | page 1, zoom 1, rotation 0 |
| Viewer.Reader.Load | src/app/tools/pdf-reader/client.tsx:28-47 | when the document loads: page 1, zoom 1 and rotation 0 |
| Viewer.Reader.ChangePage | src/app/tools/pdf-reader/client.tsx:49-55 | moves only to an existing page |
| Viewer.Reader.TypePage | src/app/tools/pdf-reader/client.tsx:119-124 | a typed page is accepted only in [1, numPages] |
| Viewer.Reader.Zoom | src/app/tools/pdf-reader/client.tsx:57-59 | the zoom stays in [0.5, 3] |
| Viewer.Reader.Rotate | src/app/tools/pdf-reader/client.tsx:150 | a quarter turn, modulo 360 |
| Rsvp.RenderWord | src/app/tools/rsvp-reader/client.tsx:71-76 | nothing for the empty word; otherwise left + middle + right is the word and the middle is at ⌊len/2⌋ |
| Rsvp.RenderWordBalanced | src/app/tools/rsvp-reader/client.tsx:73-76 | the right part is never longer than the left, and at most one shorter |
| Rsvp.CurrentWord | src/app/tools/rsvp-reader/client.tsx:68 | the word at the cursor, or "" off the list |
| Rsvp.Reader.constructor | src/app/tools/rsvp-reader/client.tsx:13-16 | no words, index 0, paused, 300 wpm |
| Rsvp.Reader.Load | src/app/tools/rsvp-reader/client.tsx:29-36 | an empty list is rejected; otherwise the words load at index 0, paused |
| Rsvp.Reader.HandleDrop | src/app/tools/rsvp-reader/client.tsx:19-36 | as written: a dropped document is always accepted, since extraction never returns an empty list; a document without text loads the single empty word |
| Rsvp.Reader.HandleDropChecked | src/app/tools/rsvp-reader/client.tsx:19-36 | corrected: a document is accepted exactly when its text is not blank, and then no loaded word is empty; a rejected drop changes nothing |
| Rsvp.Reader.Unload | src/app/tools/rsvp-reader/client.tsx:191 | the word list is emptied |
| Rsvp.Reader.Tick | src/app/tools/rsvp-reader/client.tsx:45-60 | only while running: the next word, or at the last word stop there |
| Rsvp.Reader.TogglePlay | src/app/tools/rsvp-reader/client.tsx:62 | playing flips |
| Rsvp.Reader.Reset | src/app/tools/rsvp-reader/client.tsx:63-66 | paused at index 0 |
| Rsvp.Reader.Rewind | src/app/tools/rsvp-reader/client.tsx:157 | max(0, i - 10) |
| Rsvp.Reader.FastForward | src/app/tools/rsvp-reader/client.tsx:167 | min(len - 1, i + 10) |
| Rsvp.Reader.Scrub | src/app/tools/rsvp-reader/client.tsx:140-146 | pauses and jumps to the slider position |
| Rsvp.Reader.SetWpm | src/app/tools/rsvp-reader/client.tsx:181 | the speed is set |
| Rsvp.PlayToEnd | src/app/tools/rsvp-reader/client.tsx:45-60 | ticking from any word while playing ends paused on the last word |
| TextExtraction.Collapse | src/lib/pdf-client.ts:32 | `\s+` to one space: empty iff the input is; only single plain spaces remain; blank iff the input is |
| TextExtraction.Normalise | src/lib/pdf-client.ts:30-34 | the chain always gives at least one word |
| TextExtraction.PageTexts | src/lib/pdf-client.ts:20-27 | one text per page, its items joined with single spaces |
| TextExtraction.ExtractText | src/lib/pdf-client.ts:17-35 | the loop gives the normalised text: never empty, no word with white space, and every non-space character kept in order |
| TextExtraction.NormaliseJoin | src/lib/pdf-client.ts:30-34 | the words joined with spaces are the collapsed, trimmed text |
| TextExtraction.NormaliseWords | src/lib/pdf-client.ts:30-34 | blank text gives exactly [""]; other text gives non-empty words; no word holds white space |
| TextExtraction.NormaliseKeepsText | src/lib/pdf-client.ts:30-34 | the words run together are the text without its white space |
| TextExtraction.CollapseNoSpace | src/lib/pdf-client.ts:32 | a word without white space is left as it is |
| TextExtraction.CollapseBlank | src/lib/pdf-client.ts:32 | a non-empty run of white space becomes exactly one space |
| TextExtraction.CollapseAppend | src/lib/pdf-client.ts:32 | collapsing a concatenation is collapsing each part, when the cut is not inside a run of white space; with the two rows above this fixes where every single space goes |
| TextExtraction.SpaceBetweenWords | src/lib/pdf-client.ts:32 | two words with one space between them are left as they are |
| TextExtraction.CollapseKeepsText | src/lib/pdf-client.ts:32 | collapsing removes white space only |
| TextExtraction.TrimKeepsText | src/lib/pdf-client.ts:33 | trimming removes white space only |
| TextExtraction.TrimClean | src/lib/pdf-client.ts:32-33 | a collapsed string, trimmed, neither starts nor ends with a space |
| TextExtraction.SplitClean | src/lib/pdf-client.ts:34 | splitting a clean string on spaces gives non-empty words without white space |
| TextExtraction.SplitFlatten | src/lib/pdf-client.ts:34 | splitting on spaces drops just the spaces |
| TextExtraction.Lines | src/lib/pdf-client.ts:66-79 | no items, no lines |
| TextExtraction.LinesJoined | src/lib/pdf-client.ts:66-79 | the lines run together are the items: nothing lost, added or reordered |
| TextExtraction.LinesNonEmpty | src/lib/pdf-client.ts:66-79 | no line is empty, and the last line ends with the last item |
| TextExtraction.LinesStep | src/lib/pdf-client.ts:68-78 | one more item opens its own line iff it breaks after the previous item |
| TextExtraction.LinesUnbroken | src/lib/pdf-client.ts:68 | within a line no item is more than 10 units away from the one before |
| TextExtraction.LinesBroken | src/lib/pdf-client.ts:68-75 | each line after the first opens with an item more than 10 units away from the last of the line before |
| TextExtraction.ParagraphFor | src/lib/pdf-client.ts:69-73 | a line's paragraph exists iff its text is not blank |
| TextExtraction.KeptNotBlank | src/lib/pdf-client.ts:82-86 | kept paragraphs are non-blank lines, no more than the lines |
| TextExtraction.KeptSnoc | src/lib/pdf-client.ts:69-86 | each closed line adds its paragraph after those before it |
| TextExtraction.LineTextSnoc | src/lib/pdf-client.ts:77 | each item adds its text followed by exactly one space |
| TextExtraction.ClosesLine | src/lib/pdf-client.ts:68-78 | an item that breaks closes the open line and opens its own |
| TextExtraction.ExtendsLine | src/lib/pdf-client.ts:77-78 | any other item joins the open line |
| TextExtraction.AddItem | src/lib/pdf-client.ts:66-79 | the callback keeps the grouping invariant for one more item |
| TextExtraction.GroupPage | src/lib/pdf-client.ts:50-86 | one page's paragraphs are the non-blank lines, in order |
| TextExtraction.PdfToDocx | src/lib/pdf-client.ts:45-94 | the loop over pages gives `DocxParagraphs` |
| TextExtraction.DocxPageBreaks | src/lib/pdf-client.ts:89-93 | an n-page document holds exactly n - 1 page breaks |
| TextExtraction.DocxLinesNotBlank | src/lib/pdf-client.ts:69-86 | every paragraph but the breaks is a non-blank line |
| Strings.Trim | src/lib/pdf-client.ts:33 | `trim` is the string with its leading and trailing white space cut off: a white prefix and a white suffix are removed, neither end of the result is white, and it is "" iff the string is blank |
| Strings.Split | src/app/tools/split-pdf/page.tsx:38 | at least one part, none holding the separator; one part iff there is no separator |
| Strings.SplitJoin | src/app/tools/split-pdf/page.tsx:38 | joining the parts with the separator gives the string back |
| Strings.ToLower | src/lib/pdf-utils.ts:333 | same length; ASCII capitals lower-cased, everything else kept |
| Strings.ToLowerIdempotent | src/lib/pdf-utils.ts:333-335 | lower-casing twice is lower-casing once |

## Left out

- PDF library calls are not modelled: loading, saving, copying pages, embedding images and fonts, drawing, encryption, and rendering. A page is an abstract record, and the drawing calls become marks appended to it.
- Browser I/O is not modelled: downloads, object URLs, the clipboard and DOM lookups. Sizes measured in the DOM (canvas size, rendered image height, the font's text extent, image pixel sizes) are parameters. A missing container or canvas is a `None` parameter where the source tests for it.
- Async, effects and timing are not modelled. This covers the 100 ms debounce of the redaction box and the 60000/wpm interval delay; one RSVP tick is one `Tick` call.
- Floating point is not modelled: arithmetic is over exact reals. Display-only rounding is left out.
- RangeParser.ParseNumber models `Number` on integer tokens and the words `Infinity` and `+Infinity` only. It accepts surrounding white space, an optional `+`, digits, and the empty string as 0. Decimals (`2.5` would add index 1.5), hex and exponent forms (`1e999` also gives Infinity) read as NaN in the model. In the source, `-3` reads as the range 0 to 3 and `a-b-c` uses only its first two parts; in the model these follow from `Split` and `ParseNumber`.
- The item sort of `pdfToDocx` (src/lib/pdf-client.ts:61-64) is not modelled. It has a 5-unit tolerance, so it is not a strict weak order. Grouping is modelled on items already in order. The filter that keeps only text items is not modelled either.
- Signature ids come from `Math.random` and are parameters. They are not assumed unique.
- The Word document packing at src/lib/pdf-client.ts:96-103 is not modelled. The model stops at the paragraph list, with a break paragraph standing for the break run.
- `\s` and `trim` cover the ASCII white space and U+00A0, not the other Unicode space characters.
- Strings.ToLower: lower-cases ASCII letters only, while `toLowerCase` also maps other scripts. Only the ASCII extensions `.jpg`, `.jpeg` and `.png` are compared.
- Documents.Document.RotatePdf: visits entries in an arbitrary order, while `Object.entries` uses key order. Each entry touches a different page, so the result is the same.
- FileLists.FileList.Move: requires an index of an existing file, since the buttons only exist for listed files. The source's out-of-range swap, which would grow the array, is not modelled.
- Rsvp.Reader.FastForward: requires a loaded word list, since the button is shown only then.
- Rsvp.Reader.Scrub: requires a position on the slider's range. The value `parseInt` would give for other text is not modelled.
- Viewer.Reader.TypePage: requires a loaded document, since the box is shown only then.
- RedactionEditor.RedactionPage.UpdateSelection: requires a displayed canvas of positive size. The early returns for a missing container or canvas are not modelled.
- Documents.Watermarked: its own ensures states only the page count; what each page receives is stated by `Documents.WatermarkTargets` and `Documents.WatermarkPlacement`.
- The protect, unprotect, compress, OCR, PDF-to-Word and split-all tools and the UI-only components are not part of this model: their logic is the library's.

## Findings

| source | as written | input that shows it | evidently intended | confidence | as-written member | corrected member |
|---|---|---|---|---|---|---|
| src/app/tools/pdf-to-form/client.tsx:75 | `field.value === opt` marks the selected option, but a dropdown's value is the `string[]` of `getSelected()` (src/lib/pdf-utils.ts:35), so the strict comparison with a string is always false | a dropdown with options `a`, `b` and selection `[b]` | the option whose text is in the selection carries `selected` | not executed; follows from the types | FormHtml.DropdownNeverSelected, FormHtml.DropdownSelectionLost | FormHtml.DropdownMarksSelection |
| src/app/tools/split-pdf/page.tsx:43-45 | `Number` reads `Infinity` as Infinity, which passes the `isNaN` test, so `for (let i = start; i <= end; i++)` never ends | the range `1-Infinity` (or `-Infinity`, whose start is `Number("")`, 0); also `Infinity-Infinity`, where `i` starts at Infinity and `i++` leaves it there, a case the model's integer counter does not reach and for which the corrected `Contribution` gives no page | the range stops at the last page | not executed; follows from the semantics of `Number` | RangeParser.EndlessRange | RangeParser.InfiniteEndToLastPage, RangeParser.Contribution |
| src/app/tools/rsvp-reader/client.tsx:29 | the check `extractedWords.length === 0` never fires, because `extractTextFromPDF` (src/lib/pdf-client.ts:30-34) splits the trimmed empty text into `[""]` | a PDF whose pages hold no text, such as a scan | a document without text is rejected with the "No text found" message | not executed; follows from the semantics of `split` | Rsvp.Reader.HandleDrop | Rsvp.Reader.HandleDropChecked |
