# Word/PDF question sheets to Excel — a verified model of the converter core

The converter reads a question paper (a `.docx` rendered to HTML, or a PDF
whose text and images are regrouped into HTML paragraphs). It cuts the
paragraphs into multiple-choice questions with options `(A)`..`(D)` and
images, and lays the questions out one per row in an Excel sheet. The row
holds the question body, four alternatives and the images placed inside
the cells.

This Dafny project models the logic of `src/lib/converter.ts` that does this
work:

- `wrappers.dfy` (`Wrappers`): `Option` and `Result`.
- `text.dfy` (`Text`): the JavaScript string operations the code relies on:
  - `trim`, with the ECMAScript white-space set;
  - `split` on one character, including its part count and join-back property;
  - `includes`, `startsWith` and `indexOf` (which gives -1 when absent).
- `segmenter.dfy` (`Segmenter`): `parseHtmlToQuestions`.
  - A paragraph is a sequence of inline items, text runs or images. It is
    read as character/picture tokens.
  - `Segment` is the specification: a fold of `Step` over the paragraphs,
    built from `Walk` over the marker-split parts and `Continue` for
    unmarked text.
  - The methods `ParseQuestions`, `ParseParagraph`, `WalkParts`,
    `MarkerContent` and `ContinueParagraph` are the imperative pass,
    including its `while (partIndex < …)` loop. Each is proved equal to its
    specification.
- `segmenter_props.dfy` (`SegmenterProps`): what the segmenter guarantees:
  - question count;
  - question seeds;
  - option keys and image targets;
  - document order of images;
  - routing of option and continuation text;
  - the adjacent-marker and lower-case-marker behaviours;
  - soundness and completeness of the question-start pattern.
- `layout.dfy` (`Layout`): the row layout of `generateExcel`:
  - the empty-input error;
  - the row mapping;
  - greedy word wrap and text height;
  - image stacking and centring;
  - cell heights in points;
  - row height.

  Text measurement and image decoding are function parameters. The imperative
  loops (`WrapLine`, `CountLines`, `StackImages`, `LayoutOptions`,
  `GenerateRows`) are proved equal to the functions `Cell`, `Row` and
  `Sheet`.
- `raster.dfy` (`Raster`): the pixel loops that turn a PDF image into an
  RGBA buffer. There is one path each for 1-bit grayscale (row stride
  `(w+7)>>3`, set bit black) and for 24-bit RGB, and any other data passes
  through. The loops fill arrays through a `k` cursor. They are proved
  against `GrayRows`/`RgbImage`, and the per-pixel formulas are proved
  about those functions.
- `data_url.dfy` (`DataUrl`): `getBase64Image` and its round trip with the
  data URL it splits.
- `pdf_lines.dfy` (`PdfLines`):
  - the per-page height offset;
  - the sort comparator, proved antisymmetric and shown not transitive;
  - the loop that groups positioned items into lines and emits `<p>` paragraphs.

  The loop is proved equal to a reference definition of the lines as runs
  of items without a height jump of more than 10.

Arithmetic on lengths and pixels uses unbounded integers. Sizes, heights and
offsets are exact reals.

Two behaviours of the code are worth stating plainly, and the model keeps
them:

- Every numbered paragraph opens a question that is emitted, even when it
  stays empty (question text only a number and nothing after it). No filter
  drops empty questions.
- The option-marker pattern `\(([A-D])\)` has no case-insensitive flag, so
  `(b)` is ordinary text, not a marker.

## Model

| member | source | states |
|---|---|---|
| Segmenter.ParseQuestions | src/lib/converter.ts:21-157 | the imperative pass over all paragraphs returns exactly `Segment(paragraphs)`, the fold of `Step` from no questions and no open question |
| Segmenter.ParseParagraph | src/lib/converter.ts:41-152 | one turn of the `for (const p of paragraphs)` loop takes the state `(questions, currentQuestion, lastOptionMarker)` to `Step` of it; no open question implies no last marker |
| Segmenter.StartQuestion | src/lib/converter.ts:49-61 | a numbered paragraph pushes the open question (if any) and opens its seed question with no last marker |
| Segmenter.ReadParagraph | src/lib/converter.ts:67-151 | a paragraph with a marker goes through `Walk` over its filtered split parts, one without through `Continue` |
| Segmenter.WalkParts | src/lib/converter.ts:73-122 | the `while (partIndex < contentParts.length)` loop ends in `Walk` of the parts |
| Segmenter.MarkerContent | src/lib/converter.ts:88-105 | the part after a marker is added as `OptionContent` |
| Segmenter.ContinueParagraph | src/lib/converter.ts:125-150 | a marker-free paragraph is added as `Continue` |
| Segmenter.Segment | src/lib/converter.ts:21-157 | every emitted question has option keys in `A`..`D` only and every image shown in the body or in an option key that exists |
| Segmenter.QuestionPrefix | src/lib/converter.ts:46-49 | the length matched by the question-start pattern (optional `Q` or `Question`, digits, `.` or `)`, any case) never runs past the text |
| Segmenter.OpenOption | src/lib/converter.ts:79-84 | after a marker `(L)` the key `L` exists; it is added as `''` when new and the question is unchanged when it exists |
| Segmenter.OptionContent | src/lib/converter.ts:88-105 | the part after a marker joins its option after a `' '` (only when the option has text), its images go to that option, the keys and body are unchanged |
| Segmenter.Continue | src/lib/converter.ts:107-119 | unmarked text keeps the last marker and the option keys and keeps the question well formed |
| Segmenter.Walk | src/lib/converter.ts:77-122 | the walk keeps option keys within `A`..`D`, the last marker an existing key and every image target valid |
| Segmenter.StepStarts | src/lib/converter.ts:31-37 | a numbered paragraph finalizes the open question and opens the seed with `lastOptionMarker` reset |
| Segmenter.StepReads | src/lib/converter.ts:67-151 | a paragraph that is not numbered changes only the open question, through the walk or the continuation |
| SegmenterProps.QuestionPrefixSound | src/lib/converter.ts:46 | a match means the text starts with an optional `Q`/`Question` in any case, white space, digits, `.` or `)`, and all the white space after it |
| SegmenterProps.QuestionPrefixComplete | src/lib/converter.ts:46 | every text of that shape matches |
| SegmenterProps.RunCount | src/lib/converter.ts:41-155 | from any state, the finalized question count grows by exactly the number of numbered paragraphs |
| SegmenterProps.QuestionCount | src/lib/converter.ts:31-37 | the number of questions equals the number of numbered paragraphs; paragraphs before the first one open nothing and none is dropped for being empty |
| SegmenterProps.PreambleIgnored | src/lib/converter.ts:67 | paragraphs before the first numbered one contribute nothing: the questions are those of the document with them removed |
| SegmenterProps.QuestionsExtendSeeds | src/lib/converter.ts:49-61 | question `k` extends the seed of the `k`-th numbered paragraph: its text, images and option keys only grow |
| SegmenterProps.SeedContents | src/lib/converter.ts:53-61 | a seed's text is the trimmed remainder after the matched prefix, it has no options, and all of the paragraph's images target `'question'` in order |
| SegmenterProps.ImagesInDocumentOrder | src/lib/converter.ts:58-61 | the images of all questions, in order, are exactly the images of the paragraphs from the first numbered one on, in document order |
| SegmenterProps.NumberedLineBeforeNextIsKept | src/lib/converter.ts:62-66 | a numbered paragraph directly followed by another is emitted, as its seed, even when its text is empty |
| SegmenterProps.SplitMarkersRejoins | src/lib/converter.ts:73 | the capture split drops nothing: the parts, rejoined with each captured letter back in its parentheses, give the paragraph's markup |
| SegmenterProps.SplitMarkersShape | src/lib/converter.ts:73 | the split alternates text and captured letters: an odd number of parts, the even-placed ones holding no `(A)`..`(D)` marker and each odd-placed one a single letter `A`..`D` |
| SegmenterProps.OptionLineRouting | src/lib/converter.ts:79-105 | a paragraph `(L) body` opens `L`, joins the trimmed body to it after `' '`, shows the body's images in it, makes `L` the last marker and changes nothing else |
| SegmenterProps.TwoOptionsOneLine | src/lib/converter.ts:73-106 | `(L1) x (L2) y` puts `x` in option `L1` and `y` in option `L2`, each with its images, with `L2` the last marker |
| SegmenterProps.ContinuationRouting | src/lib/converter.ts:125-150 | a paragraph with no marker joins the last option after `'\n'` (only when it has text), or the body as `'\n' + text` even when the body is empty; its images follow the same choice |
| SegmenterProps.LowercaseMarkerIsText | src/lib/converter.ts:47 | `(a)`..`(d)` are not markers: such a paragraph before any marker joins the body, marker and all |
| SegmenterProps.AdjacentMarkersHeuristic | src/lib/converter.ts:76-106 | in `(L1)(L2) y` the part after `(L1)` is consumed as its content, so the letter `L2` becomes option `L1`'s text, `y` continues `L1` after `'\n'` and `L2` is never opened |
| Text.Trim | src/lib/converter.ts:44 | the trimmed text is empty or has no white space at either end |
| Text.TrimIsInfix | src/lib/converter.ts:44 | `trim` keeps a contiguous piece and drops only white space on either side |
| Text.TrimEmptyIffAllWs | src/lib/converter.ts:44 | `trim` gives `''` exactly for all-white-space text |
| Text.Split | src/lib/converter.ts:226 | `split` gives at least one part, no part holds the separator, and the parts joined with it give the text back |
| Text.SplitCount | src/lib/converter.ts:238 | `split` gives one more part than there are separators |
| Text.IndexOf | src/lib/converter.ts:161 | `indexOf` gives -1 exactly when the character is absent, and otherwise its first position |
| Text.Contains | src/lib/converter.ts:423 | `includes` holds exactly when the substring occurs at some position |
| Layout.WrapLine | src/lib/converter.ts:237-247 | the greedy word loop over one line counts `LineRows`: the rows the line wraps into |
| Layout.LineRows | src/lib/converter.ts:237-247 | one line wraps into at least one and at most (words + 1) rows |
| Layout.CountLines | src/lib/converter.ts:235-248 | the `lines.forEach` loop counts `LineCount` |
| Layout.LineCountBounds | src/lib/converter.ts:235-248 | the line count is at least the number of `'\n'`-separated lines and at most the sum over lines of (words + 1) |
| Layout.TextHeightBounds | src/lib/converter.ts:224-250 | empty text has height 0; otherwise the height is 20 × line count, between 20 × (newlines + 1) and 20 × Σ(words + 1) |
| Layout.StackImages | src/lib/converter.ts:252-285 | the image loop accumulates `StackHeight` of the decodable images and places them as `Placements` |
| Layout.PlacementAt | src/lib/converter.ts:261-274 | the `k`-th decoded image is 120 wide, `h/w × 120` high, anchored at the cell, with top offset `textHeight + Σ_{j<k}(h_j + 15) + 15` and the centring left offset |
| Layout.ColOffset | src/lib/converter.ts:268-269 | the left offset is `max(0, (cellWidth − 120)/2)`: at least both, and equal to one of them |
| Layout.ColumnsCentre | src/lib/converter.ts:188-192 | the question column (110.57) and the alternative columns (35.71) are wider than an image, so images in them get the positive centring offset |
| Layout.FailedImageIgnored | src/lib/converter.ts:256-283 | an image that fails to decode is skipped and changes nothing |
| Layout.LoadedImageAdds | src/lib/converter.ts:262-265 | a decodable image adds its scaled height plus the 15-px margin to the stack, wherever it sits in the list |
| Layout.CellClosedForm | src/lib/converter.ts:223-288 | with a drawing context, a cell's height in points is `(textHeight + Σ(h_j + 15)) × 3/4`, never negative, with one placement per decodable image |
| Layout.CellHeightAndPlaceImages | src/lib/converter.ts:223-289 | the cell routine gives the `Cell` layout, including height 0 and no images when text needs measuring and there is no context |
| Layout.CellGrowsWithImage | src/lib/converter.ts:252-288 | adding an image to a cell never lowers its height |
| Layout.SheetFailsIffEmpty | src/lib/converter.ts:179-181 | generation fails exactly on an empty question list, with the fixed message |
| Layout.SheetRows | src/lib/converter.ts:205-213 | row `i` gets Sr. No `i + 1`, the question text, and `options['A'..'D']` defaulting to `''` |
| Layout.MaxOptionHeightBounds | src/lib/converter.ts:295-302 | the option maximum is at least every option cell's height and equals 0 or one of them |
| Layout.LayoutOptions | src/lib/converter.ts:295-302 | the loop over the letters A..D gives the largest of the four option cell heights, starting from 0, and the placements of all four option cells, in letter order, as `MaxOptionHeight` and `OptionPlacements` define them |
| Layout.RowHeightBounds | src/lib/converter.ts:291-305 | the row height is at least 21.75 and every cell's height, and equals 21.75 or one of the five cells' heights |
| Layout.RowGrowsWithImage | src/lib/converter.ts:291-305 | adding an image to a question never lowers its row height |
| Layout.ImagesPartition | src/lib/converter.ts:291-298 | with targets `'question'` or `'option'+A..D`, the five cells' image filters together take every image exactly as often as it occurs: none is missed or measured twice |
| Layout.WellFormedPartition | src/lib/converter.ts:291-298 | for a segmented question the five cells' image filters together cover all of its images |
| Layout.LayoutRow | src/lib/converter.ts:205-305 | the row code gives `Row`: the mapped fields, the placements of the five cells and the row height |
| Layout.GenerateRows | src/lib/converter.ts:178-306 | the sheet loop gives `Sheet`: the error for no questions, else one row per question in order |
| Raster.ConvertPixels | src/lib/converter.ts:359-382 | the conversion gives `ImageData`: no image for a zero width or height (`createImageData` throws), otherwise the expanded or passed-through data written into a zeroed `4·w·h` buffer, or no image when it does not fit |
| Raster.EmptyImageDropped | src/lib/converter.ts:359 | an image with no pixels is dropped whatever its kind and data |
| Raster.ExpandGray | src/lib/converter.ts:361-371 | the nested 1-bit loops fill a fresh array with `GrayRows`, row after row |
| Raster.ExpandRow | src/lib/converter.ts:367-370 | one row of the 1-bit loop writes that row's pixels at the cursor and leaves every byte before and after them unchanged |
| Raster.WritePixel | src/lib/converter.ts:375-378 | four consecutive writes put one RGBA pixel at the cursor, as also at line 369, leaving the bytes before and after it unchanged |
| Raster.ExpandRgb | src/lib/converter.ts:372-380 | the RGB loop fills a fresh array with `RgbImage` |
| Raster.SetData | src/lib/converter.ts:359 | `imgData.data.set(data)` on a zeroed buffer leaves the data followed by zeros |
| Raster.Gray1PixelAt | src/lib/converter.ts:363-369 | the 1-bit image has `4·w·h` bytes, and pixel `(j, bit)` at byte `4·(w·j + bit)` is `[v, v, v, 255]` for its bit's shade `v` |
| Raster.Gray1ValueFormula | src/lib/converter.ts:363-368 | the shade is 0 when bit `7 − bit%8` of byte `j·((w+7)/8) + bit/8` is set and 255 otherwise; a byte past the end reads as 0 |
| Raster.Gray1Converted | src/lib/converter.ts:361-382 | a 1-bit image always converts to a full `4·w·h` buffer with those pixels |
| Raster.RgbPixelAt | src/lib/converter.ts:374-379 | RGB pixel `i` is copied to bytes `4i..4i+2` with 255 at `4i+3` |
| Raster.RgbConverted | src/lib/converter.ts:372-382 | data of exactly `w·h·3` bytes converts to a full buffer with those pixels |
| Raster.OtherPassedThrough | src/lib/converter.ts:359-382 | other data is copied as it is, zero-padded to `4·w·h`, and converts exactly when the image has pixels and the data fits |
| DataUrl.GetBase64Image | src/lib/converter.ts:159-163 | the type is `jpeg` exactly when the URL starts with `data:image/jpeg`, else `png`; the payload is everything after the first comma, or the whole string without one |
| DataUrl.RoundTrip | src/lib/converter.ts:159-163 | splitting `data:image/<type>;base64,<payload>` gives back the type and the payload, commas and all |
| PdfLines.Shifted | src/lib/converter.ts:403-404 | each item of a page moves up by the page offset, nothing else changes |
| PdfLines.PagesInBands | src/lib/converter.ts:403 | with on-page heights in `[0, 1000)`, every item of an earlier page lies above every item of a later page; heights outside that range are not covered |
| PdfLines.CompareAntisymmetric | src/lib/converter.ts:408-413 | swapping the two items negates the comparison |
| PdfLines.CompareNotTransitive | src/lib/converter.ts:408-413 | three items 4 apart in height form a cycle under the comparator |
| PdfLines.GroupLines | src/lib/converter.ts:415-426 | the grouping loop emits `Html(items)`: one paragraph per line of the reference definition |
| PdfLines.GroupItem | src/lib/converter.ts:418-425 | one turn of the loop closes the line on a jump of more than 10 against the previous item and appends the item's piece |
| PdfLines.RunsFlatten | src/lib/converter.ts:418-425 | the lines hold every item once, in order |
| PdfLines.RunsAreLines | src/lib/converter.ts:419 | no line is empty, no two consecutive items in a line are more than 10 apart, and consecutive lines are |
| PdfLines.ImageVerbatim | src/lib/converter.ts:399 | an image item's tag enters its line verbatim |
| PdfLines.TextPadded | src/lib/converter.ts:423 | a text item enters its line with a space on either side |
| PdfLines.EmitShape | src/lib/converter.ts:420 | a line is emitted only when not all white space, as `<p>` around its trimmed text |

## Left out

- HTML and the DOM: a paragraph is an abstract sequence of text runs and
  images. `innerHTML`, `textContent`, `querySelectorAll` and the `tempDiv`
  re-parsing are not modelled, and neither are formatting tags, or markers
  found inside tag attributes, that a split of real markup would see.
  These belong to a foreign library.
- mammoth (`convertToHtml`), pdfjs (`getDocument`, `getOperatorList`,
  `getTextContent`, `page.transform`) and ExcelJS (`addImage`, cell styles,
  borders, `writeBuffer`, `Blob`): external libraries and I/O.
  - The image ids in the workbook are not modelled. So the registration by
    `workbook.addImage` of an image whose dimensions then fail to load is
    not modelled either.
- The writing of EMU offsets through the worksheet's `media` list (×9525):
  the model gives the offsets in pixels.
- Canvas and `Image`: `measureText` is a width function parameter. Image
  dimensions come from a decode function parameter that may fail. Whether a
  2-D context exists is a boolean. `toDataURL` is left out. These are
  asynchronous, browser-only capabilities.
- `async`/`await` and the concurrent image promises of a PDF page: the model
  is sequential.
- The `imageYCoords` object of a PDF page, which keys images by data URL
  (identical images collapse into one entry): the model starts from the
  positioned items.
- The mapping of pdfjs text items to `{str, y, x}`: the model starts from
  the positioned items.
- The global `sort` of the PDF items: its comparator is not transitive
  (`PdfLines.CompareNotTransitive`), so the order depends on the engine's
  sort algorithm. Grouping is proved for any order it is given.
- PdfLines.Shifted: `forEach` moves each item object in place; the model
  gives the moved items as a new sequence.
- `formatTextForExcel`: it is the identity function.
- The header row (titles, font, fill, height 43.5), the column titles and
  widths other than the question (110.57) and alternative (35.71) columns,
  the cell alignment and fonts, and the borders: styling only.
- The file-type dispatch of `parseFile` and its "Unsupported file type"
  error: I/O plumbing.
- The React UI in `src/app/page.tsx` and `src/components/file-uploader.tsx`: it is not part of this model.
- Floating point: every size is an exact real and JavaScript number rounding
  is not modelled. A decoded image has a positive width; JavaScript would
  give an infinite or NaN height for width 0.
- The 32-bit `>>` and `&` in the 1-bit loop: the model uses unbounded
  integers. This agrees for widths below 2^31 − 7.
- The checks of `typeof window` and `instanceof HTMLElement` in the
  segmenter: every paragraph is an element.
- The resets `options[L] = options[L] || ''`: the methods `Segmenter.MarkerContent` and
  `Segmenter.ContinueParagraph` perform them, and the reference functions
  `OptionContent` and `Continue` leave them out because the key already
  exists, so they change nothing.
- PdfLines.PagesInBands: pages stay in separate height bands only for
  on-page heights in `[0, 1000)`. Image heights come from the viewport at
  scale 1.5 and can exceed 1000, since a 842-point A4 page is about 1263 high.
  Items of neighbouring pages can then interleave.
