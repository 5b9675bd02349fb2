/** Cell and row layout of `generateExcel` in `src/lib/converter.ts`: how tall
    each cell of a question's row must be for its wrapped text and its stacked
    images, where each image is anchored, and how the row height follows from
    its five cells.

    Browser capabilities are parameters: `measure` is the canvas's
    `measureText(..).width` for the 11pt Calibri font, `decode` gives an
    image's natural size or `None` when it does not load, and `hasCanvas` says
    whether a 2D context could be created. Numbers are exact reals. */
module Layout {
  import opened Wrappers
  import opened Text
  import opened Segmenter

  const DefaultRowHeight: real := 21.75
  const PointsToPixels: real := 4.0 / 3.0
  const ImageMargin: real := 15.0
  const ImageWidth: real := 120.0
  const LineHeight: real := 20.0
  /** Pixels per character of column width, the code's approximation. */
  const CharWidth: real := 7.5
  /** Column widths in characters: question content, and each alternative. */
  const QuestionColumnWidth: real := 110.57
  const AltColumnWidth: real := 35.71
  /** One-based column numbers of the question cell and of alternative `k`. */
  const QuestionColumn: nat := 2
  const NoQuestionsMessage: string :=
    "No questions found. Check document format. Questions should be numbered (e.g., '1.') and options labeled (e.g., '(A)')."

  /** An image's natural size in pixels. */
  datatype Dims = Dims(width: nat, height: nat)

  type Decoded = d: Dims | d.width > 0 witness Dims(1, 0)

  /** An anchored image: the zero-based top-left cell, the pixel offsets
      inside it, and the displayed size. */
  datatype Placement = Placement(col: nat, row: nat, rowOff: real, colOff: real, width: real, height: real)

  function Max(a: real, b: real): real {
    if a >= b then a else b
  }

  // ---------------------------------------------------------------------
  // Greedy word wrap

  /** The line breaks the greedy wrap makes over `words`, with `cur` the text
      already on the current line. */
  function Breaks(measure: string -> real, avail: real, cur: string, words: seq<string>): nat
    decreases |words|
  {
    if words == [] then 0
    else if measure(cur + " " + words[0]) > avail then 1 + Breaks(measure, avail, words[0], words[1..])
    else Breaks(measure, avail, cur + (if cur != "" then " " else "") + words[0], words[1..])
  }

  lemma {:induction false} BreaksBound(measure: string -> real, avail: real, cur: string, words: seq<string>)
    ensures Breaks(measure, avail, cur, words) <= |words|
    decreases |words|
  {
    if words != [] {
      var w := words[0];
      BreaksBound(measure, avail, w, words[1..]);
      BreaksBound(measure, avail, cur + (if cur != "" then " " else "") + w, words[1..]);
    }
  }

  /** The rows one `\n`-separated line takes: one, plus one per break. */
  function LineRows(measure: string -> real, avail: real, line: string): (n: nat)
    ensures 1 <= n <= |Split(line, ' ')| + 1
  {
    BreaksBound(measure, avail, "", Split(line, ' '));
    Breaks(measure, avail, "", Split(line, ' ')) + 1
  }

  function LineCount(measure: string -> real, avail: real, lines: seq<string>): nat {
    if lines == [] then 0
    else LineCount(measure, avail, lines[..|lines| - 1]) + LineRows(measure, avail, lines[|lines| - 1])
  }

  /** Words plus one, summed over the lines. */
  function WordBound(lines: seq<string>): nat {
    if lines == [] then 0 else WordBound(lines[..|lines| - 1]) + |Split(lines[|lines| - 1], ' ')| + 1
  }

  /** Every line takes at least one row, and never more rows than it has
      words plus one. */
  lemma {:induction false} LineCountBounds(measure: string -> real, avail: real, lines: seq<string>)
    ensures |lines| <= LineCount(measure, avail, lines) <= WordBound(lines)
    decreases |lines|
  {
    if lines != [] {
      LineCountBounds(measure, avail, lines[..|lines| - 1]);
    }
  }

  /** `(column.width || 20) * 7.5`. */
  function AvailableWidth(w: real): real {
    (if w == 0.0 then 20.0 else w) * CharWidth
  }

  /** `lineCount * 20` over the `\n`-separated lines; nothing for empty text. */
  function TextHeight(measure: string -> real, w: real, text: string): real {
    if text == "" then 0.0
    else LineHeight * LineCount(measure, AvailableWidth(w), Split(text, '\n')) as real
  }

  /** Empty text has height 0; otherwise the height lies between 20 pixels per
      `\n`-separated line and 20 pixels per word-plus-one. */
  lemma TextHeightBounds(measure: string -> real, w: real, text: string)
    ensures text == "" ==> TextHeight(measure, w, text) == 0.0
    ensures text != "" ==>
              var lines := Split(text, '\n');
              && |lines| == Occurrences(text, '\n') + 1
              && LineHeight * |lines| as real <= TextHeight(measure, w, text)
              && TextHeight(measure, w, text) <= LineHeight * WordBound(lines) as real
  {
    if text != "" {
      SplitCount(text, '\n');
      LineCountBounds(measure, AvailableWidth(w), Split(text, '\n'));
    }
  }

  // ---------------------------------------------------------------------
  // Image stacking

  /** The sizes of the images that load, in order. */
  function Decodable(decode: string -> Option<Decoded>, srcs: seq<string>): seq<Decoded> {
    if srcs == [] then []
    else
      var d := decode(srcs[|srcs| - 1]);
      Decodable(decode, srcs[..|srcs| - 1]) + (if d.Some? then [d.value] else [])
  }

  /** Displayed height: the image is scaled to width 120, keeping its aspect. */
  function ScaledHeight(d: Decoded): (h: real)
    ensures h >= 0.0
  {
    d.height as real / d.width as real * ImageWidth
  }

  /** The height a stack of images takes: each image plus its margin. */
  function StackHeight(ds: seq<Decoded>): real {
    if ds == [] then 0.0 else StackHeight(ds[..|ds| - 1]) + ScaledHeight(ds[|ds| - 1]) + ImageMargin
  }

  /** `column.width ? column.width * 7.5 : 100`. */
  function CellWidthPx(w: real): real {
    if w == 0.0 then 100.0 else w * CharWidth
  }

  /** The horizontal offset that centres a 120-pixel image, never negative. */
  function ColOffset(w: real): (off: real)
    ensures off >= 0.0
    ensures off >= (CellWidthPx(w) - ImageWidth) / 2.0
    ensures off == 0.0 || off == (CellWidthPx(w) - ImageWidth) / 2.0
  {
    Max(0.0, (CellWidthPx(w) - ImageWidth) / 2.0)
  }

  /** Both kinds of column are wider than an image, so images in them are
      centred with a positive left offset. */
  lemma ColumnsCentre()
    ensures ColOffset(QuestionColumnWidth) == (QuestionColumnWidth * CharWidth - ImageWidth) / 2.0 > 0.0
    ensures ColOffset(AltColumnWidth) == (AltColumnWidth * CharWidth - ImageWidth) / 2.0 > 0.0
  {
  }

  /** The anchors of a stack of images under text of height `textH`. */
  function Placements(ds: seq<Decoded>, textH: real, col: nat, row: nat, colOff: real): seq<Placement> {
    if ds == [] then []
    else
      var init := ds[..|ds| - 1];
      Placements(init, textH, col, row, colOff)
        + [Placement(col, row, textH + StackHeight(init) + ImageMargin, colOff, ImageWidth, ScaledHeight(ds[|ds| - 1]))]
  }

  /** Image `k` sits below the text and the `k` images before it, each with
      its margin, plus one margin of its own; it is 120 pixels wide and scaled
      to keep its aspect ratio. */
  lemma {:induction false} PlacementAt(ds: seq<Decoded>, textH: real, col: nat, row: nat, colOff: real, k: nat)
    requires k < |ds|
    ensures |Placements(ds, textH, col, row, colOff)| == |ds|
    ensures Placements(ds, textH, col, row, colOff)[k]
            == Placement(col, row, textH + StackHeight(ds[..k]) + ImageMargin, colOff, ImageWidth, ScaledHeight(ds[k]))
    decreases |ds|
  {
    var init := ds[..|ds| - 1];
    PlacementsLength(init, textH, col, row, colOff);
    if k < |ds| - 1 {
      PlacementAt(init, textH, col, row, colOff, k);
      assert init[..k] == ds[..k];
    }
  }

  lemma {:induction false} PlacementsLength(ds: seq<Decoded>, textH: real, col: nat, row: nat, colOff: real)
    ensures |Placements(ds, textH, col, row, colOff)| == |ds|
    decreases |ds|
  {
    if ds != [] {
      PlacementsLength(ds[..|ds| - 1], textH, col, row, colOff);
    }
  }

  lemma {:induction false} StackHeightAppend(a: seq<Decoded>, b: seq<Decoded>)
    ensures StackHeight(a + b) == StackHeight(a) + StackHeight(b)
    decreases |b|
  {
    if b == [] {
      assert a + b == a;
    } else {
      var b' := b[..|b| - 1];
      assert (a + b)[..|a + b| - 1] == a + b';
      StackHeightAppend(a, b');
    }
  }

  lemma {:induction false} StackHeightNonNegative(ds: seq<Decoded>)
    ensures StackHeight(ds) >= 0.0
    decreases |ds|
  {
    if ds != [] {
      StackHeightNonNegative(ds[..|ds| - 1]);
    }
  }

  lemma {:induction false} DecodableAppend(decode: string -> Option<Decoded>, a: seq<string>, b: seq<string>)
    ensures Decodable(decode, a + b) == Decodable(decode, a) + Decodable(decode, b)
    decreases |b|
  {
    if b == [] {
      assert a + b == a;
    } else {
      var b' := b[..|b| - 1];
      assert (a + b)[..|a + b| - 1] == a + b';
      DecodableAppend(decode, a, b');
    }
  }

  /** One more image: it is kept exactly when it loads. */
  lemma DecodableSnoc(decode: string -> Option<Decoded>, srcs: seq<string>, i: nat)
    requires i < |srcs|
    ensures Decodable(decode, srcs[..i + 1])
            == Decodable(decode, srcs[..i]) + (if decode(srcs[i]).Some? then [decode(srcs[i]).value] else [])
  {
    assert srcs[..i + 1][..i] == srcs[..i];
  }

  /** One more loaded image goes below the stack and adds to its height. */
  lemma StackSnoc(ds: seq<Decoded>, d: Decoded, textH: real, col: nat, row: nat, colOff: real)
    ensures StackHeight(ds + [d]) == StackHeight(ds) + ScaledHeight(d) + ImageMargin
    ensures Placements(ds + [d], textH, col, row, colOff)
            == Placements(ds, textH, col, row, colOff)
               + [Placement(col, row, textH + StackHeight(ds) + ImageMargin, colOff, ImageWidth, ScaledHeight(d))]
  {
    assert (ds + [d])[..|ds|] == ds;
  }

  /** The image loop's step: a loaded image is stacked below the others, one
      that fails to load leaves the stack as it was. */
  lemma ImageStep(decode: string -> Option<Decoded>, srcs: seq<string>, i: nat, textH: real, col: nat, row: nat, colOff: real)
    requires i < |srcs|
    ensures var before, after := Decodable(decode, srcs[..i]), Decodable(decode, srcs[..i + 1]);
            var d := decode(srcs[i]);
            && (d.None? ==> after == before)
            && (d.Some? ==>
                  && StackHeight(after) == StackHeight(before) + ScaledHeight(d.value) + ImageMargin
                  && Placements(after, textH, col, row, colOff)
                     == Placements(before, textH, col, row, colOff)
                        + [Placement(col, row, textH + StackHeight(before) + ImageMargin, colOff, ImageWidth, ScaledHeight(d.value))])
  {
    DecodableSnoc(decode, srcs, i);
    var before := Decodable(decode, srcs[..i]);
    if decode(srcs[i]).Some? {
      StackSnoc(before, decode(srcs[i]).value, textH, col, row, colOff);
    } else {
      assert before + [] == before;
    }
  }

  /** The layout of one cell: `calculateCellHeightAndPlaceImages`. Without a
      canvas a cell with text is abandoned before any image is placed. */
  datatype CellLayout = CellLayout(height: real, placements: seq<Placement>)

  function Cell(measure: string -> real, decode: string -> Option<Decoded>, hasCanvas: bool,
                w: real, col: nat, row: nat, text: string, srcs: seq<string>): CellLayout
    requires col >= 1 && row >= 1
  {
    if text != "" && !hasCanvas then CellLayout(0.0, [])
    else
      var textH := TextHeight(measure, w, text);
      var ds := Decodable(decode, srcs);
      CellLayout((textH + StackHeight(ds)) / PointsToPixels,
                 Placements(ds, textH, col - 1, row - 1, ColOffset(w)))
  }

  /** The cell height in points is three quarters of its pixel height: the
      text plus every loaded image with its margin; one anchor per loaded
      image. */
  lemma CellClosedForm(measure: string -> real, decode: string -> Option<Decoded>, hasCanvas: bool,
                       w: real, col: nat, row: nat, text: string, srcs: seq<string>)
    requires col >= 1 && row >= 1
    requires text == "" || hasCanvas
    ensures var c := Cell(measure, decode, hasCanvas, w, col, row, text, srcs);
            var ds := Decodable(decode, srcs);
            && c.height == (TextHeight(measure, w, text) + StackHeight(ds)) * 3.0 / 4.0
            && c.height >= 0.0
            && |c.placements| == |ds|
  {
    var ds := Decodable(decode, srcs);
    TextHeightBounds(measure, w, text);
    StackHeightNonNegative(ds);
    PlacementsLength(ds, TextHeight(measure, w, text), col - 1, row - 1, ColOffset(w));
  }

  /** An image that does not load changes nothing. */
  lemma FailedImageIgnored(decode: string -> Option<Decoded>, a: seq<string>, s: string, b: seq<string>)
    requires decode(s).None?
    ensures Decodable(decode, a + [s] + b) == Decodable(decode, a + b)
  {
    DecodableAppend(decode, a + [s], b);
    DecodableAppend(decode, a, [s]);
    DecodableAppend(decode, a, b);
    var e: seq<string> := [];
    assert [s][..0] == e;
    assert Decodable(decode, [s]) == [];
    assert Decodable(decode, a) + [] == Decodable(decode, a);
  }

  /** An image that loads, inserted anywhere among a cell's images, adds its
      scaled height and a margin to the stack. */
  lemma LoadedImageAdds(decode: string -> Option<Decoded>, a: seq<string>, s: string, b: seq<string>)
    requires decode(s).Some?
    ensures StackHeight(Decodable(decode, a + [s] + b))
            == StackHeight(Decodable(decode, a + b)) + ScaledHeight(decode(s).value) + ImageMargin
  {
    var da, db := Decodable(decode, a), Decodable(decode, b);
    DecodableAppend(decode, a + [s], b);
    DecodableAppend(decode, a, [s]);
    DecodableAppend(decode, a, b);
    var e: seq<string> := [];
    assert [s][..0] == e;
    var d := decode(s).value;
    assert Decodable(decode, [s]) == [d];
    StackHeightAppend(da + [d], db);
    StackHeightAppend(da, [d]);
    StackHeightAppend(da, db);
    assert [d][..0] == [];
  }

  /** Adding an image to a cell never makes it shorter. */
  lemma CellGrowsWithImage(measure: string -> real, decode: string -> Option<Decoded>, hasCanvas: bool,
                           w: real, col: nat, row: nat, text: string,
                           a: seq<string>, s: string, b: seq<string>)
    requires col >= 1 && row >= 1
    ensures Cell(measure, decode, hasCanvas, w, col, row, text, a + [s] + b).height
            >= Cell(measure, decode, hasCanvas, w, col, row, text, a + b).height
  {
    if decode(s).Some? {
      LoadedImageAdds(decode, a, s, b);
    } else {
      FailedImageIgnored(decode, a, s, b);
    }
  }

  // ---------------------------------------------------------------------
  // Rows

  /** `q.images.filter(img => img.in === t)`, as sources. */
  function ImagesAt(imgs: seq<ImageRef>, t: Target): seq<string> {
    if imgs == [] then []
    else (if imgs[0].target == t then [imgs[0].src] else []) + ImagesAt(imgs[1..], t)
  }

  const Letters: seq<char> := ['A', 'B', 'C', 'D']

  /** A row of the sheet: Sr. No, question content, the four alternatives,
      the row height in points, and the anchored images in the order they are
      added. */
  datatype RowLayout = RowLayout(sr: nat, question: string, alts: seq<string>, height: real, placements: seq<Placement>)

  /** The capabilities the layout asks of the browser. */
  datatype Env = Env(measure: string -> real, decode: string -> Option<Decoded>, hasCanvas: bool)

  /** The question cell of the question at index `i` (sheet row `i + 2`). */
  function QuestionCell(env: Env, q: Question, i: nat): CellLayout {
    Cell(env.measure, env.decode, env.hasCanvas, QuestionColumnWidth, QuestionColumn, i + 2,
         q.text, ImagesAt(q.images, InQuestion))
  }

  /** The cell of alternative `k` (letter `Letters[k]`, sheet column `k + 3`). */
  function OptionCell(env: Env, q: Question, i: nat, k: nat): CellLayout
    requires k < 4
  {
    Cell(env.measure, env.decode, env.hasCanvas, AltColumnWidth, k + 3, i + 2,
         OptionText(q, Letters[k]), ImagesAt(q.images, InOption(Letters[k])))
  }

  /** The tallest of the first `n` alternative cells, 0 when there are none. */
  function MaxOptionHeight(env: Env, q: Question, i: nat, n: nat): real
    requires n <= 4
  {
    if n == 0 then 0.0 else Max(MaxOptionHeight(env, q, i, n - 1), OptionCell(env, q, i, n - 1).height)
  }

  /** The anchors of the first `n` alternative cells, in order. */
  function OptionPlacements(env: Env, q: Question, i: nat, n: nat): seq<Placement>
    requires n <= 4
  {
    if n == 0 then [] else OptionPlacements(env, q, i, n - 1) + OptionCell(env, q, i, n - 1).placements
  }

  /** `maxRowHeightInPoints > 21.75 ? maxRowHeightInPoints : 21.75`. */
  function RowHeight(questionH: real, optionsH: real): real {
    var m := Max(Max(0.0, questionH), optionsH);
    if m > DefaultRowHeight then m else DefaultRowHeight
  }

  function Row(env: Env, q: Question, i: nat): RowLayout {
    RowLayout(i + 1, q.text, seq(4, k requires 0 <= k < 4 => OptionText(q, Letters[k])),
              RowHeight(QuestionCell(env, q, i).height, MaxOptionHeight(env, q, i, 4)),
              QuestionCell(env, q, i).placements + OptionPlacements(env, q, i, 4))
  }

  /** `generateExcel` up to the workbook: an error on no questions, else one
      row per question. */
  function Sheet(env: Env, questions: seq<Question>): Result<seq<RowLayout>, string> {
    if |questions| == 0 then Failure(NoQuestionsMessage)
    else Success(seq(|questions|, i requires 0 <= i < |questions| => Row(env, questions[i], i)))
  }

  /** The sheet fails exactly on an empty question list, with the message
      telling how questions and options should look. */
  lemma SheetFailsIffEmpty(env: Env, questions: seq<Question>)
    ensures Sheet(env, questions).Failure? <==> questions == []
    ensures Sheet(env, questions).Failure? ==> Sheet(env, questions).error == NoQuestionsMessage
  {
  }

  /** Row `i` holds Sr. No `i + 1`, the question text, and options A..D,
      missing ones as empty text. */
  lemma SheetRows(env: Env, questions: seq<Question>, i: nat)
    requires i < |questions|
    ensures Sheet(env, questions).Success?
    ensures var rows := Sheet(env, questions).value;
            && |rows| == |questions|
            && rows[i].sr == i + 1
            && rows[i].question == questions[i].text
            && rows[i].alts == [OptionText(questions[i], 'A'), OptionText(questions[i], 'B'),
                                OptionText(questions[i], 'C'), OptionText(questions[i], 'D')]
  {
    var a := Sheet(env, questions).value[i].alts;
    assert a[0] == OptionText(questions[i], 'A');
  }

  lemma {:induction false} MaxOptionHeightBounds(env: Env, q: Question, i: nat, n: nat)
    requires n <= 4
    ensures MaxOptionHeight(env, q, i, n) >= 0.0
    ensures forall k :: 0 <= k < n ==> MaxOptionHeight(env, q, i, n) >= OptionCell(env, q, i, k).height
    ensures MaxOptionHeight(env, q, i, n) == 0.0
            || exists k :: 0 <= k < n && MaxOptionHeight(env, q, i, n) == OptionCell(env, q, i, k).height
  {
    if n > 0 {
      MaxOptionHeightBounds(env, q, i, n - 1);
    }
  }

  /** The row is at least the default height and at least as tall as each of
      its five cells, and it is exactly one of them or the default. */
  lemma RowHeightBounds(env: Env, q: Question, i: nat)
    ensures var h := Row(env, q, i).height;
            && h >= DefaultRowHeight
            && h >= QuestionCell(env, q, i).height
            && (forall k :: 0 <= k < 4 ==> h >= OptionCell(env, q, i, k).height)
            && (|| h == DefaultRowHeight
                || h == QuestionCell(env, q, i).height
                || exists k :: 0 <= k < 4 && h == OptionCell(env, q, i, k).height)
  {
    MaxOptionHeightBounds(env, q, i, 4);
  }

  lemma {:induction false} ImagesAtAppend(a: seq<ImageRef>, b: seq<ImageRef>, t: Target)
    ensures ImagesAt(a + b, t) == ImagesAt(a, t) + ImagesAt(b, t)
    decreases |a|
  {
    if a == [] {
      assert a + b == b;
    } else {
      assert (a + b)[1..] == a[1..] + b;
      ImagesAtAppend(a[1..], b, t);
    }
  }

  /** Inserting image `x` among a question's images inserts its source in the
      cell of its target and nowhere else. */
  lemma ImagesAtInsert(a: seq<ImageRef>, x: ImageRef, b: seq<ImageRef>, t: Target)
    ensures ImagesAt(a + [x] + b, t)
            == ImagesAt(a, t) + (if x.target == t then [x.src] else []) + ImagesAt(b, t)
  {
    ImagesAtAppend(a + [x], b, t);
    ImagesAtAppend(a, [x], t);
    assert [x][1..] == [];
  }

  lemma CellAfterInsert(env: Env, w: real, col: nat, row: nat, text: string, a: seq<ImageRef>, x: ImageRef, b: seq<ImageRef>, t: Target)
    requires col >= 1 && row >= 1
    ensures Cell(env.measure, env.decode, env.hasCanvas, w, col, row, text, ImagesAt(a + [x] + b, t)).height
            >= Cell(env.measure, env.decode, env.hasCanvas, w, col, row, text, ImagesAt(a + b, t)).height
  {
    ImagesAtInsert(a, x, b, t);
    ImagesAtAppend(a, b, t);
    if x.target == t {
      CellGrowsWithImage(env.measure, env.decode, env.hasCanvas, w, col, row, text, ImagesAt(a, t), x.src, ImagesAt(b, t));
    } else {
      assert ImagesAt(a, t) + [] == ImagesAt(a, t);
    }
  }

  lemma {:induction false} MaxOptionHeightMonotone(env: Env, q: Question, q': Question, i: nat, n: nat)
    requires n <= 4
    requires forall k :: 0 <= k < 4 ==> OptionCell(env, q', i, k).height >= OptionCell(env, q, i, k).height
    ensures MaxOptionHeight(env, q', i, n) >= MaxOptionHeight(env, q, i, n)
  {
    if n > 0 {
      MaxOptionHeightMonotone(env, q, q', i, n - 1);
    }
  }

  /** Adding an image anywhere in a question's image list never lowers its
      row: the image's own cell can only grow and no other cell changes. */
  lemma RowGrowsWithImage(env: Env, q: Question, i: nat, a: seq<ImageRef>, x: ImageRef, b: seq<ImageRef>)
    requires q.images == a + b
    ensures Row(env, q.(images := a + [x] + b), i).height >= Row(env, q, i).height
  {
    var q' := q.(images := a + [x] + b);
    CellAfterInsert(env, QuestionColumnWidth, QuestionColumn, i + 2, q.text, a, x, b, InQuestion);
    forall k | 0 <= k < 4 ensures OptionCell(env, q', i, k).height >= OptionCell(env, q, i, k).height {
      CellAfterInsert(env, AltColumnWidth, k + 3, i + 2, OptionText(q, Letters[k]), a, x, b, InOption(Letters[k]));
    }
    MaxOptionHeightMonotone(env, q, q', i, 4);
  }

  /** The images of the five cells, counted together. */
  function CellImageCount(imgs: seq<ImageRef>): nat {
    |ImagesAt(imgs, InQuestion)| + |ImagesAt(imgs, InOption('A'))| + |ImagesAt(imgs, InOption('B'))|
      + |ImagesAt(imgs, InOption('C'))| + |ImagesAt(imgs, InOption('D'))|
  }

  /** Every image of a well-formed question is measured in exactly one cell:
      the five cells' image lists together have as many entries as the
      question has images. */
  lemma {:induction false} ImagesPartition(imgs: seq<ImageRef>)
    requires forall k :: 0 <= k < |imgs| ==>
               imgs[k].target == InQuestion || (imgs[k].target.InOption? && IsLetter(imgs[k].target.letter))
    ensures CellImageCount(imgs) == |imgs|
    decreases |imgs|
  {
    if imgs != [] {
      ImagesPartition(imgs[1..]);
    }
  }

  lemma WellFormedPartition(q: Question)
    requires WellFormed(q)
    ensures CellImageCount(q.images) == |q.images|
  {
    forall k | 0 <= k < |q.images|
      ensures q.images[k].target == InQuestion || (q.images[k].target.InOption? && IsLetter(q.images[k].target.letter))
    {
      assert TargetOk(q, q.images[k].target);
    }
    ImagesPartition(q.images);
  }

  // ---------------------------------------------------------------------
  // The imperative code

  /** One `\n`-separated line: the greedy loop over its words. */
  method WrapLine(measure: string -> real, availableWidth: real, line: string) returns (rows: nat)
    ensures rows == LineRows(measure, availableWidth, line)
  {
    var words := Split(line, ' ');
    var currentLine := "";
    var breaks := 0;
    for j := 0 to |words|
      invariant breaks + Breaks(measure, availableWidth, currentLine, words[j..])
                == Breaks(measure, availableWidth, "", words)
    {
      var word := words[j];
      assert words[j..][1..] == words[j + 1..];
      if measure(currentLine + " " + word) > availableWidth {
        breaks := breaks + 1;
        currentLine := word;
      } else {
        currentLine := currentLine + (if currentLine != "" then " " else "") + word;
      }
    }
    rows := breaks + 1;
  }

  /** The `lines.forEach` loop: rows over all `\n`-separated lines. */
  method CountLines(measure: string -> real, availableWidth: real, lines: seq<string>) returns (lineCount: nat)
    ensures lineCount == LineCount(measure, availableWidth, lines)
  {
    lineCount := 0;
    for i := 0 to |lines|
      invariant lineCount == LineCount(measure, availableWidth, lines[..i])
    {
      var rows := WrapLine(measure, availableWidth, lines[i]);
      lineCount := lineCount + rows;
      assert lines[..i + 1][..i] == lines[..i];
    }
    assert lines[..|lines|] == lines;
  }

  /** The image loop: each image that loads is anchored in the cell's zero-based
      `col0`, `row0` below the text and the images before it. */
  method StackImages(decode: string -> Option<Decoded>, w: real, col0: nat, row0: nat,
                     textHeightInPixels: real, srcs: seq<string>)
    returns (cumulativeImageHeight: real, placements: seq<Placement>)
    ensures cumulativeImageHeight == StackHeight(Decodable(decode, srcs))
    ensures placements == Placements(Decodable(decode, srcs), textHeightInPixels, col0, row0, ColOffset(w))
  {
    cumulativeImageHeight := 0.0;
    placements := [];
    for i := 0 to |srcs|
      invariant cumulativeImageHeight == StackHeight(Decodable(decode, srcs[..i]))
      invariant placements == Placements(Decodable(decode, srcs[..i]), textHeightInPixels, col0, row0, ColOffset(w))
    {
      ImageStep(decode, srcs, i, textHeightInPixels, col0, row0, ColOffset(w));
      var dims := decode(srcs[i]);
      if dims.Some? {
        var imageHeightInPixels := dims.value.height as real / dims.value.width as real * ImageWidth;
        var rowOffsetInPixels := textHeightInPixels + cumulativeImageHeight + ImageMargin;
        cumulativeImageHeight := cumulativeImageHeight + imageHeightInPixels + ImageMargin;
        var cellWidthInPixels := if w != 0.0 then w * CharWidth else 100.0;
        var colOffsetInPixels := Max(0.0, (cellWidthInPixels - ImageWidth) / 2.0);
        assert imageHeightInPixels == ScaledHeight(dims.value);
        assert colOffsetInPixels == ColOffset(w);
        placements := placements + [Placement(col0, row0, rowOffsetInPixels, colOffsetInPixels, ImageWidth, imageHeightInPixels)];
      }
    }
    assert srcs[..|srcs|] == srcs;
  }

  /** `calculateCellHeightAndPlaceImages` for the cell at one-based column
      `col` and row `row`, of width `w` characters. */
  method CellHeightAndPlaceImages(measure: string -> real, decode: string -> Option<Decoded>, hasCanvas: bool,
                                  w: real, col: nat, row: nat, text: string, srcs: seq<string>)
    returns (totalHeight: real, placements: seq<Placement>)
    requires col >= 1 && row >= 1
    ensures CellLayout(totalHeight, placements) == Cell(measure, decode, hasCanvas, w, col, row, text, srcs)
  {
    var textHeightInPixels := 0.0;
    if text != "" {
      var lines := Split(text, '\n');
      if !hasCanvas {
        return 0.0, [];
      }
      var lineCount := CountLines(measure, AvailableWidth(w), lines);
      textHeightInPixels := lineCount as real * LineHeight;
    }
    assert textHeightInPixels == TextHeight(measure, w, text);
    var cumulativeImageHeight;
    cumulativeImageHeight, placements := StackImages(decode, w, col - 1, row - 1, textHeightInPixels, srcs);
    totalHeight := (textHeightInPixels + cumulativeImageHeight) / PointsToPixels;
  }

  /** One more alternative cell folded into the row. */
  lemma OptionStep(env: Env, q: Question, i: nat, k: nat)
    requires k < 4
    ensures OptionCell(env, q, i, k) == Cell(env.measure, env.decode, env.hasCanvas, AltColumnWidth, k + 3, i + 2,
                                             OptionText(q, Letters[k]), ImagesAt(q.images, InOption(Letters[k])))
    ensures MaxOptionHeight(env, q, i, k + 1) == Max(MaxOptionHeight(env, q, i, k), OptionCell(env, q, i, k).height)
    ensures OptionPlacements(env, q, i, k + 1) == OptionPlacements(env, q, i, k) + OptionCell(env, q, i, k).placements
  {
  }

  /** The fields of a row, one by one. */
  lemma RowFields(env: Env, q: Question, i: nat)
    ensures Row(env, q, i)
            == RowLayout(i + 1, q.text, [OptionText(q, 'A'), OptionText(q, 'B'), OptionText(q, 'C'), OptionText(q, 'D')],
                         RowHeight(QuestionCell(env, q, i).height, MaxOptionHeight(env, q, i, 4)),
                         QuestionCell(env, q, i).placements + OptionPlacements(env, q, i, 4))
  {
    var alts := seq(4, k requires 0 <= k < 4 => OptionText(q, Letters[k]));
    assert alts == [OptionText(q, 'A'), OptionText(q, 'B'), OptionText(q, 'C'), OptionText(q, 'D')];
  }

  /** The loop over the four alternatives of one row. */
  method LayoutOptions(env: Env, q: Question, index: nat) returns (maxOptionHeight: real, placements: seq<Placement>)
    ensures maxOptionHeight == MaxOptionHeight(env, q, index, 4)
    ensures placements == OptionPlacements(env, q, index, 4)
  {
    maxOptionHeight := 0.0;
    placements := [];
    for k := 0 to 4
      invariant maxOptionHeight == MaxOptionHeight(env, q, index, k)
      invariant placements == OptionPlacements(env, q, index, k)
    {
      OptionStep(env, q, index, k);
      var letter := Letters[k];
      var optionText := OptionText(q, letter);
      var optionCellHeight, optionPlacements := CellHeightAndPlaceImages(env.measure, env.decode, env.hasCanvas,
        AltColumnWidth, k + 3, index + 2, optionText, ImagesAt(q.images, InOption(letter)));
      maxOptionHeight := Max(maxOptionHeight, optionCellHeight);
      placements := placements + optionPlacements;
    }
  }

  /** The question row: the question cell, then the four alternatives. */
  method LayoutRow(env: Env, q: Question, index: nat) returns (row: RowLayout)
    ensures row == Row(env, q, index)
  {
    var questionCellHeight, placements := CellHeightAndPlaceImages(env.measure, env.decode, env.hasCanvas,
      QuestionColumnWidth, QuestionColumn, index + 2, q.text, ImagesAt(q.images, InQuestion));
    var maxRowHeightInPoints := Max(0.0, questionCellHeight);
    var maxOptionHeight, optionPlacements := LayoutOptions(env, q, index);
    placements := placements + optionPlacements;
    maxRowHeightInPoints := Max(maxRowHeightInPoints, maxOptionHeight);
    var height := if maxRowHeightInPoints > DefaultRowHeight then maxRowHeightInPoints else DefaultRowHeight;
    RowFields(env, q, index);
    row := RowLayout(index + 1, q.text, [OptionText(q, 'A'), OptionText(q, 'B'), OptionText(q, 'C'), OptionText(q, 'D')],
                     height, placements);
  }

  /** The row loop of `generateExcel`, after its empty-input check. */
  method GenerateRows(env: Env, questions: seq<Question>) returns (r: Result<seq<RowLayout>, string>)
    ensures r == Sheet(env, questions)
  {
    if |questions| == 0 {
      return Failure(NoQuestionsMessage);
    }
    var rows: seq<RowLayout> := [];
    for index := 0 to |questions|
      invariant |rows| == index
      invariant forall i :: 0 <= i < index ==> rows[i] == Row(env, questions[i], i)
    {
      var row := LayoutRow(env, questions[index], index);
      rows := rows + [row];
    }
    assert rows == seq(|questions|, i requires 0 <= i < |questions| => Row(env, questions[i], i));
    return Success(rows);
  }
}
