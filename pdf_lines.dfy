/** How the PDF path of `parseFile` in `src/lib/converter.ts` turns positioned
    text and image items into paragraphs: the per-page vertical offset, the
    ordering comparator, and the loop that groups items into lines and emits a
    `<p>` for each line that is not blank. Coordinates are exact reals. */
module PdfLines {
  import opened Wrappers
  import opened Text

  /** A positioned item: text, or an `<img>` tag for a painted image. */
  datatype Item = Item(str: string, y: real, x: real)

  function Abs(r: real): real {
    if r < 0.0 then -r else r
  }

  const PageHeight: real := 1000.0
  const LineBand: real := 5.0
  const NewLineGap: real := 10.0

  /** `(pdf.numPages - pageNum) * 1000`. */
  function PageOffset(numPages: nat, pageNum: nat): real {
    (numPages as real - pageNum as real) * PageHeight
  }

  /** Every item of a page moved up by that page's offset. */
  function Shifted(items: seq<Item>, offset: real): (r: seq<Item>)
    ensures |r| == |items|
    ensures forall k :: 0 <= k < |r| ==> r[k] == items[k].(y := items[k].y + offset)
  {
    if items == [] then [] else [items[0].(y := items[0].y + offset)] + Shifted(items[1..], offset)
  }

  /** With on-page heights in `[0, 1000)`, the offsets stack the pages in
      bands, an earlier page entirely above a later one. */
  lemma PagesInBands(numPages: nat, p1: nat, p2: nat, y1: real, y2: real)
    requires 1 <= p1 < p2 <= numPages
    requires 0.0 <= y1 < PageHeight && 0.0 <= y2 < PageHeight
    ensures y1 + PageOffset(numPages, p1) > y2 + PageOffset(numPages, p2)
  {
    assert PageOffset(numPages, p1) - PageOffset(numPages, p2) == (p2 as real - p1 as real) * PageHeight;
  }

  /** The comparator handed to `sort`: within 5 units of height, left to
      right; otherwise top to bottom. Negative puts `a` first. */
  function Compare(a: Item, b: Item): real {
    if Abs(b.y - a.y) < LineBand then a.x - b.x else b.y - a.y
  }

  /** Swapping the arguments negates the comparison. */
  lemma CompareAntisymmetric(a: Item, b: Item)
    ensures Compare(a, b) == -Compare(b, a)
  {
    assert Abs(b.y - a.y) == Abs(a.y - b.y);
  }

  /** The comparator is not transitive: three items 4 units apart in height
      and left to right form a cycle, so the order `sort` produces depends on
      the engine's algorithm. */
  lemma CompareNotTransitive() returns (a: Item, b: Item, c: Item)
    ensures Compare(a, b) < 0.0 && Compare(b, c) < 0.0 && Compare(c, a) < 0.0
  {
    a, b, c := Item("a", 0.0, 0.0), Item("b", 4.0, 1.0), Item("c", 8.0, 2.0);
  }

  /** ``<img src="${imgData}" />``: the item for a painted image. */
  function ImageItem(src: string, y: real, x: real): Item {
    Item("<img src=\"" + src + "\" />", y, x)
  }

  /** What an item adds to its line: an image tag verbatim, any other text
      with a space on either side. */
  function Piece(it: Item): string {
    if Contains(it.str, "<img") then it.str else " " + it.str + " "
  }

  /** A new line starts when the height moves by more than 10 from the
      previous item. */
  predicate Breaks(prev: Item, next: Item) {
    Abs(next.y - prev.y) > NewLineGap
  }

  /** A line is emitted as a paragraph of its trimmed text, or not at all
      when that is empty. */
  function Emit(line: string): string {
    if Trim(line) != "" then "<p>" + Trim(line) + "</p>" else ""
  }

  /** The items cut into lines: a new line at every break. */
  function Runs(items: seq<Item>): seq<seq<Item>> {
    if items == [] then []
    else
      var init := items[..|items| - 1];
      var it := items[|items| - 1];
      var rs := Runs(init);
      if rs == [] then [[it]]
      else if Breaks(init[|init| - 1], it) then rs + [[it]]
      else rs[..|rs| - 1] + [rs[|rs| - 1] + [it]]
  }

  /** The text of a line: its items' pieces in order. */
  function Pieces(run: seq<Item>): string {
    if run == [] then "" else Pieces(run[..|run| - 1]) + Piece(run[|run| - 1])
  }

  function EmitAll(runs: seq<seq<Item>>): string {
    if runs == [] then "" else EmitAll(runs[..|runs| - 1]) + Emit(Pieces(runs[|runs| - 1]))
  }

  /** The HTML the grouping produces. */
  function Html(items: seq<Item>): string {
    EmitAll(Runs(items))
  }

  function Flatten(runs: seq<seq<Item>>): seq<Item> {
    if runs == [] then [] else Flatten(runs[..|runs| - 1]) + runs[|runs| - 1]
  }

  /** Runs are empty exactly for no items, and the last run ends with the
      last item. */
  lemma {:induction false} RunsShape(items: seq<Item>)
    ensures Runs(items) == [] <==> items == []
    ensures items != [] ==> |Runs(items)[|Runs(items)| - 1]| > 0
                            && Runs(items)[|Runs(items)| - 1][|Runs(items)[|Runs(items)| - 1]| - 1] == items[|items| - 1]
  {
    if items != [] {
      var init := items[..|items| - 1];
      RunsShape(init);
    }
  }

  /** The lines hold all the items, in order, none left out. */
  lemma {:induction false} RunsFlatten(items: seq<Item>)
    ensures Flatten(Runs(items)) == items
    decreases |items|
  {
    if items != [] {
      var init := items[..|items| - 1];
      var it := items[|items| - 1];
      var rs := Runs(init);
      RunsFlatten(init);
      RunsShape(init);
      if rs == [] {
        assert Flatten([[it]]) == Flatten([]) + [it];
        assert [it] == items;
      } else if Breaks(init[|init| - 1], it) {
        assert (rs + [[it]])[..|rs|] == rs;
        assert items == init + [it];
      } else {
        var front := rs[..|rs| - 1];
        var last := rs[|rs| - 1];
        assert (front + [last + [it]])[..|front|] == front;
        assert Flatten(rs) == Flatten(front) + last;
        assert Flatten(front) + (last + [it]) == Flatten(front) + last + [it];
        assert items == init + [it];
      }
    }
  }

  /** Every line is non-empty, consecutive items inside a line never break,
      and consecutive lines are separated by a break. */
  predicate RunsOk(runs: seq<seq<Item>>) {
    NonEmptyRuns(runs) && NoBreakInside(runs) && BreakBetween(runs)
  }

  predicate NonEmptyRuns(runs: seq<seq<Item>>) {
    forall r :: 0 <= r < |runs| ==> |runs[r]| > 0
  }

  predicate NoBreakInside(runs: seq<seq<Item>>) {
    forall r, k :: 0 <= r < |runs| && 0 <= k < |runs[r]| - 1 ==> !Breaks(runs[r][k], runs[r][k + 1])
  }

  predicate BreakBetween(runs: seq<seq<Item>>)
    requires NonEmptyRuns(runs)
  {
    forall r :: 0 <= r < |runs| - 1 ==> Breaks(runs[r][|runs[r]| - 1], runs[r + 1][0])
  }

  /** Closing the current line at a break keeps the lines well formed. */
  lemma NewRunOk(rs: seq<seq<Item>>, it: Item)
    requires RunsOk(rs) && rs != [] && Breaks(rs[|rs| - 1][|rs[|rs| - 1]| - 1], it)
    ensures RunsOk(rs + [[it]])
  {
    var out := rs + [[it]];
    assert forall r :: 0 <= r < |rs| ==> out[r] == rs[r];
  }

  /** An item that does not break the line joins it, keeping the lines well
      formed. */
  lemma JoinRunOk(rs: seq<seq<Item>>, it: Item)
    requires RunsOk(rs) && rs != [] && !Breaks(rs[|rs| - 1][|rs[|rs| - 1]| - 1], it)
    ensures RunsOk(rs[..|rs| - 1] + [rs[|rs| - 1] + [it]])
  {
    var front := rs[..|rs| - 1];
    var last := rs[|rs| - 1];
    var grown := last + [it];
    var out := front + [grown];
    assert forall r :: 0 <= r < |front| ==> out[r] == rs[r];
    assert NonEmptyRuns(out);
    JoinInside(rs, it);
    forall r | 0 <= r < |out| - 1
      ensures Breaks(out[r][|out[r]| - 1], out[r + 1][0])
    {
      assert out[r] == rs[r];
      if r + 1 < |front| {
        assert out[r + 1] == rs[r + 1];
      } else {
        assert out[r + 1][0] == last[0];
      }
    }
  }

  lemma JoinInside(rs: seq<seq<Item>>, it: Item)
    requires NonEmptyRuns(rs) && NoBreakInside(rs) && rs != [] && !Breaks(rs[|rs| - 1][|rs[|rs| - 1]| - 1], it)
    ensures NoBreakInside(rs[..|rs| - 1] + [rs[|rs| - 1] + [it]])
  {
    var front := rs[..|rs| - 1];
    var last := rs[|rs| - 1];
    var grown := last + [it];
    var out := front + [grown];
    forall r, k | 0 <= r < |out| && 0 <= k < |out[r]| - 1
      ensures !Breaks(out[r][k], out[r][k + 1])
    {
      if r < |front| {
        assert out[r] == rs[r];
      } else if k < |grown| - 2 {
        assert grown[k] == last[k] && grown[k + 1] == last[k + 1];
        assert !Breaks(last[k], last[k + 1]);
      } else {
        assert grown[k] == last[|last| - 1] && grown[k + 1] == it;
      }
    }
  }

  /** The lines of any item sequence are well formed. */
  lemma {:induction false} RunsAreLines(items: seq<Item>)
    ensures RunsOk(Runs(items))
    decreases |items|
  {
    if items != [] {
      var init := items[..|items| - 1];
      var it := items[|items| - 1];
      var rs := Runs(init);
      RunsAreLines(init);
      RunsShape(init);
      if rs == [] {
        assert Runs(items) == [[it]];
      } else if Breaks(init[|init| - 1], it) {
        NewRunOk(rs, it);
      } else {
        JoinRunOk(rs, it);
      }
    }
  }

  /** An image item's piece is its tag, verbatim. */
  lemma ImageVerbatim(src: string, y: real, x: real)
    ensures Piece(ImageItem(src, y, x)) == "<img src=\"" + src + "\" />"
  {
    var s := ImageItem(src, y, x).str;
    assert OccursAt(s, "<img", 0) by {
      assert s[..4] == "<img";
    }
  }

  /** A text item that holds no `<img` gets a space on either side. */
  lemma TextPadded(it: Item)
    requires !Contains(it.str, "<img")
    ensures Piece(it) == " " + it.str + " "
  {
  }

  /** Nothing blank is emitted: the output is empty or one paragraph of
      non-blank text trimmed at both ends. */
  lemma EmitShape(line: string)
    ensures Emit(line) == "" <==> AllWs(line)
    ensures Emit(line) != "" ==>
              exists t :: Emit(line) == "<p>" + t + "</p>" && t != "" && !IsWs(t[0]) && !IsWs(t[|t| - 1])
  {
    TrimEmptyIffAllWs(line);
    if Trim(line) != "" {
      var t := Trim(line);
      assert Emit(line) == "<p>" + t + "</p>";
    }
  }

  /** One item of the loop, after a break: the current line is closed. */
  lemma StepBreak(items: seq<Item>, i: nat)
    requires 0 < i < |items| && Breaks(items[i - 1], items[i])
    ensures Runs(items[..i + 1]) == Runs(items[..i]) + [[items[i]]]
    ensures Runs(items[..i]) != []
  {
    assert items[..i + 1][..i] == items[..i];
    RunsShape(items[..i]);
  }

  /** One item of the loop, without a break: it joins the current line. */
  lemma StepJoin(items: seq<Item>, i: nat)
    requires 0 < i < |items| && !Breaks(items[i - 1], items[i])
    ensures var rs := Runs(items[..i]);
            && rs != []
            && Runs(items[..i + 1]) == rs[..|rs| - 1] + [rs[|rs| - 1] + [items[i]]]
  {
    assert items[..i + 1][..i] == items[..i];
    RunsShape(items[..i]);
  }

  lemma EmitAllSnoc(runs: seq<seq<Item>>, r: seq<Item>)
    ensures EmitAll(runs + [r]) == EmitAll(runs) + Emit(Pieces(r))
  {
    assert (runs + [r])[..|runs|] == runs;
  }

  lemma PiecesSnoc(run: seq<Item>, it: Item)
    ensures Pieces(run + [it]) == Pieces(run) + Piece(it)
  {
    assert (run + [it])[..|run|] == run;
  }

  lemma Front<T>(s: seq<T>)
    requires s != []
    ensures s[..|s| - 1] + [s[|s| - 1]] == s
  {
  }

  /** The loop's state after `i` items: the finished lines are emitted and
      the current line holds the pieces of the last one. */
  predicate GroupInv(items: seq<Item>, i: nat, html: string, line: string)
    requires i <= |items|
  {
    if i == 0 then html == "" && line == ""
    else
      var rs := Runs(items[..i]);
      && rs != []
      && html == EmitAll(rs[..|rs| - 1])
      && line == Pieces(rs[|rs| - 1])
  }

  /** One turn of the loop: on a break the current line is emitted and
      restarted, and the item's piece is appended. */
  lemma GroupStep(items: seq<Item>, i: nat, html: string, line: string)
    requires i < |items| && GroupInv(items, i, html, line)
    ensures var brk := i > 0 && Breaks(items[i - 1], items[i]);
            GroupInv(items, i + 1, if brk then html + Emit(line) else html, (if brk then "" else line) + Piece(items[i]))
  {
    if i == 0 {
      GroupStart(items);
      assert "" + Piece(items[0]) == Piece(items[0]);
    } else if Breaks(items[i - 1], items[i]) {
      GroupBreak(items, i, html, line);
      assert "" + Piece(items[i]) == Piece(items[i]);
    } else {
      GroupJoin(items, i, html, line);
    }
  }

  lemma GroupStart(items: seq<Item>)
    requires |items| > 0
    ensures GroupInv(items, 1, "", Piece(items[0]))
  {
    assert items[..1] == [items[0]];
    assert Runs(items[..1]) == [[items[0]]];
    assert Pieces([items[0]]) == "" + Piece(items[0]);
  }

  lemma GroupBreak(items: seq<Item>, i: nat, html: string, line: string)
    requires 0 < i < |items| && GroupInv(items, i, html, line) && Breaks(items[i - 1], items[i])
    ensures GroupInv(items, i + 1, html + Emit(line), Piece(items[i]))
  {
    StepBreak(items, i);
    var rs := Runs(items[..i]);
    Front(rs);
    EmitAllSnoc(rs[..|rs| - 1], rs[|rs| - 1]);
    assert (rs + [[items[i]]])[..|rs|] == rs;
    assert Pieces([items[i]]) == "" + Piece(items[i]);
  }

  lemma GroupJoin(items: seq<Item>, i: nat, html: string, line: string)
    requires 0 < i < |items| && GroupInv(items, i, html, line) && !Breaks(items[i - 1], items[i])
    ensures GroupInv(items, i + 1, html, line + Piece(items[i]))
  {
    StepJoin(items, i);
    var rs := Runs(items[..i]);
    PiecesSnoc(rs[|rs| - 1], items[i]);
    assert (rs[..|rs| - 1] + [rs[|rs| - 1] + [items[i]]])[..|rs| - 1] == rs[..|rs| - 1];
  }

  lemma GroupEnd(items: seq<Item>, html: string, line: string)
    requires GroupInv(items, |items|, html, line)
    ensures html + Emit(line) == Html(items)
  {
    if items == [] {
      assert Trim("") == "";
      return;
    }
    assert items[..|items|] == items;
    var rs := Runs(items);
    Front(rs);
    EmitAllSnoc(rs[..|rs| - 1], rs[|rs| - 1]);
  }

  /** The grouping loop over the sorted items. */
  method GroupLines(items: seq<Item>) returns (htmlContent: string)
    ensures htmlContent == Html(items)
  {
    htmlContent := "";
    var currentLine := "";
    var lastY: Option<real> := if |items| > 0 then Some(items[0].y) else None;
    for i := 0 to |items|
      invariant GroupInv(items, i, htmlContent, currentLine)
      invariant lastY == LastY(items, i)
    {
      htmlContent, currentLine, lastY := GroupItem(items, i, htmlContent, currentLine, lastY);
    }
    GroupEnd(items, htmlContent, currentLine);
    htmlContent := htmlContent + Emit(currentLine);
  }

  /** `lastY` after `i` items: the height of the previous item, or of the
      first item before the loop starts. */
  function LastY(items: seq<Item>, i: nat): Option<real>
    requires i <= |items|
  {
    if i == 0 then (if |items| > 0 then Some(items[0].y) else None) else Some(items[i - 1].y)
  }

  /** One item of the grouping loop. */
  method GroupItem(items: seq<Item>, i: nat, html0: string, line0: string, lastY0: Option<real>)
    returns (htmlContent: string, currentLine: string, lastY: Option<real>)
    requires i < |items| && GroupInv(items, i, html0, line0) && lastY0 == LastY(items, i)
    ensures GroupInv(items, i + 1, htmlContent, currentLine) && lastY == LastY(items, i + 1)
  {
    htmlContent, currentLine := html0, line0;
    var item := items[i];
    GroupStep(items, i, htmlContent, currentLine);
    if lastY0.Some? && Abs(item.y - lastY0.value) > NewLineGap {
      htmlContent := htmlContent + Emit(currentLine);
      currentLine := "";
    }
    currentLine := currentLine + Piece(item);
    lastY := Some(item.y);
  }
}
