/** The question segmenter of `src/lib/converter.ts` (`parseHtmlToQuestions`):
    a left-to-right pass over the block-level paragraphs of a document that
    opens a question at every numbered paragraph, files `(A)`..`(D)` option
    text under its letter, and attaches every image either to the question body
    or to the most recently opened option.

    The markup tree is abstracted: a paragraph is a sequence of text runs and
    images, read as a sequence of tokens (one per character, one per image).
    `Segment` and the functions it is built from are the specification; the
    method `ParseQuestions` is the imperative pass, proved equal to it. */
module Segmenter {
  import opened Wrappers
  import opened Text

  /** One inline item of a paragraph: a run of text, or an image given by its `src`. */
  datatype Inline = Txt(text: string) | Img(src: string)

  type Paragraph = seq<Inline>

  /** A paragraph's markup one unit at a time: a character of text or an image. */
  datatype Tok = Ch(c: char) | Pic(src: string)

  /** Where an image is shown: `'question'`, or `'option' + letter`. */
  datatype Target = InQuestion | InOption(letter: char)

  datatype ImageRef = ImageRef(src: string, target: Target)

  /** The `Question` record: body text, option text per letter, images in order. */
  datatype Question = Question(text: string, options: map<char, string>, images: seq<ImageRef>)

  /** `q.options[l] || ''`: the option's text, or the empty string when the
      letter was never opened. */
  function OptionText(q: Question, l: char): string {
    if l in q.options then q.options[l] else ""
  }

  function InlineTokens(x: Inline): seq<Tok> {
    match x
    case Txt(s) => seq(|s|, i requires 0 <= i < |s| => Ch(s[i]))
    case Img(src) => [Pic(src)]
  }

  function Tokens(p: Paragraph): seq<Tok> {
    if p == [] then [] else InlineTokens(p[0]) + Tokens(p[1..])
  }

  /** `textContent`: the characters, images contributing nothing. */
  function TextOf(ts: seq<Tok>): string {
    if ts == [] then [] else (if ts[0].Ch? then [ts[0].c] else []) + TextOf(ts[1..])
  }

  /** The `src` of every `img`, in document order. */
  function ImagesOf(ts: seq<Tok>): seq<string> {
    if ts == [] then [] else (if ts[0].Pic? then [ts[0].src] else []) + ImagesOf(ts[1..])
  }

  /** A paragraph's trimmed `textContent` (`pText`). */
  function ParagraphText(p: Paragraph): string {
    Trim(TextOf(Tokens(p)))
  }

  // ---------------------------------------------------------------------
  // The question-start pattern  ^(?:Q|Question)?\s*(\d+)[.)]\s*  (flag i)

  /** End of the longest run of white space starting at `i`. */
  function WsEnd(t: string, i: nat): (e: nat)
    requires i <= |t|
    ensures i <= e <= |t| && AllWs(t[i..e]) && (e == |t| || !IsWs(t[e]))
    decreases |t| - i
  {
    if i < |t| && IsWs(t[i]) then WsEnd(t, i + 1) else i
  }

  /** End of the longest run of ASCII digits starting at `i`. */
  function DigitsEnd(t: string, i: nat): (e: nat)
    requires i <= |t|
    ensures i <= e <= |t| && (forall k :: i <= k < e ==> IsDigit(t[k]))
    ensures e == |t| || !IsDigit(t[e])
    decreases |t| - i
  {
    if i < |t| && IsDigit(t[i]) then DigitsEnd(t, i + 1) else i
  }

  /** `\s*(\d+)[.)]\s*` tried at position `p`: the end of the match. Both
      greedy runs are the only way the pattern can match, so no backtracking
      is needed. */
  function NumberEnd(t: string, p: nat): Option<nat>
    requires p <= |t|
  {
    var k := WsEnd(t, p);
    var d := DigitsEnd(t, k);
    if k < d < |t| && (t[d] == '.' || t[d] == ')') then Some(WsEnd(t, d + 1)) else None
  }

  /** ASCII lower case: the case-insensitive flag without `u` folds no
      non-ASCII character onto an ASCII letter. */
  function LowerAscii(c: char): char {
    if 'A' <= c <= 'Z' then (c as int + 32) as char else c
  }

  /** `t` begins with the lower-case word `w`, ignoring case. */
  predicate StartsWordCi(t: string, w: string) {
    |w| <= |t| && forall i :: 0 <= i < |w| ==> LowerAscii(t[i]) == w[i]
  }

  /** The length of the question-start match at the head of `t`, trying the
      regular expression's alternatives in its order: "Q", "Question", none. */
  function QuestionPrefix(t: string): (r: Option<nat>)
    ensures r.Some? ==> r.value <= |t|
  {
    if StartsWordCi(t, "q") && NumberEnd(t, 1).Some? then NumberEnd(t, 1)
    else if StartsWordCi(t, "question") && NumberEnd(t, 8).Some? then NumberEnd(t, 8)
    else NumberEnd(t, 0)
  }

  predicate IsQuestionStart(p: Paragraph) {
    QuestionPrefix(ParagraphText(p)).Some?
  }

  // ---------------------------------------------------------------------
  // The option-marker pattern  \(([A-D])\)  (no i flag) and the split

  predicate MarkerAt(ts: seq<Tok>, i: nat) {
    i + 3 <= |ts| && ts[i] == Ch('(') && ts[i + 1].Ch? && 'A' <= ts[i + 1].c <= 'D' && ts[i + 2] == Ch(')')
  }

  /** `pHTML.match(optionMarkerRegex)` is not null. */
  predicate HasMarker(ts: seq<Tok>) {
    exists i :: 0 <= i < |ts| && MarkerAt(ts, i)
  }

  /** `split` with the capturing marker pattern, scanning left to right:
      the text before each marker, then the captured letter, and finally the
      text after the last marker. `acc` is the part being collected. */
  function SplitFrom(ts: seq<Tok>, acc: seq<Tok>): seq<seq<Tok>>
    decreases |ts|
  {
    if ts == [] then [acc]
    else if MarkerAt(ts, 0) then [acc, [ts[1]]] + SplitFrom(ts[3..], [])
    else SplitFrom(ts[1..], acc + [ts[0]])
  }

  function SplitMarkers(ts: seq<Tok>): seq<seq<Tok>> {
    SplitFrom(ts, [])
  }

  /** `contentParts.filter(part => part !== '')`. */
  function DropEmpty(parts: seq<seq<Tok>>): (r: seq<seq<Tok>>)
    ensures forall k :: 0 <= k < |r| ==> r[k] != []
  {
    if parts == [] then []
    else (if parts[0] != [] then [parts[0]] else []) + DropEmpty(parts[1..])
  }

  /** The walk's marker test: a part of length one that is one of A, B, C, D,
      whether or not it came from a capture. */
  predicate IsMarkerPart(part: seq<Tok>) {
    |part| == 1 && part[0].Ch? && IsLetter(part[0].c)
  }

  /** `'ABCD'.includes(c)` for a single character. */
  predicate IsLetter(c: char) {
    c == 'A' || c == 'B' || c == 'C' || c == 'D'
  }

  // ---------------------------------------------------------------------
  // Routing text and images

  /** Images of `srcs`, all shown at `t`. */
  function Targeted(srcs: seq<string>, t: Target): (r: seq<ImageRef>)
    ensures |r| == |srcs|
    ensures forall k :: 0 <= k < |r| ==> r[k] == ImageRef(srcs[k], t)
  {
    if srcs == [] then [] else [ImageRef(srcs[0], t)] + Targeted(srcs[1..], t)
  }

  /** `prev += (prev ? sep : '') + text`, done only when `text` is non-empty. */
  function Appended(prev: string, sep: string, text: string): string {
    if text == "" then prev else prev + (if prev != "" then sep else "") + text
  }

  /** A question's option keys are letters A..D, and every image is shown
      in the body or in an option that exists. */
  predicate WellFormed(q: Question) {
    && (forall l :: l in q.options ==> IsLetter(l))
    && (forall k :: 0 <= k < |q.images| ==> TargetOk(q, q.images[k].target))
  }

  predicate TargetOk(q: Question, t: Target) {
    t == InQuestion || (t.InOption? && t.letter in q.options)
  }

  /** The question under construction and `lastOptionMarker`. */
  datatype Cursor = Cursor(q: Question, last: Option<char>)

  predicate CursorOk(cur: Cursor) {
    WellFormed(cur.q) && (cur.last.Some? ==> cur.last.value in cur.q.options)
  }

  /** Registers option `l` at its marker (`options[l] ??= ''`). */
  function OpenOption(q: Question, l: char): (r: Question)
    requires IsLetter(l) && WellFormed(q)
    ensures WellFormed(r) && l in r.options
    ensures l in q.options ==> r == q
    ensures l !in q.options ==> r == q.(options := q.options[l := ""])
  {
    if l in q.options then q else WithOption(q, l, "")
  }

  /** Option `l` set to `v`; keys only grow, so the question stays well formed. */
  function WithOption(q: Question, l: char, v: string): (r: Question)
    requires IsLetter(l) && WellFormed(q)
    ensures WellFormed(r) && r.options.Keys == q.options.Keys + {l}
    ensures r == q.(options := q.options[l := v])
  {
    var r := q.(options := q.options[l := v]);
    assert forall k :: 0 <= k < |r.images| ==> r.images[k] == q.images[k];
    r
  }

  /** Images `srcs` appended, shown at `t`. */
  function WithImages(q: Question, srcs: seq<string>, t: Target): (r: Question)
    requires WellFormed(q) && TargetOk(q, t)
    ensures WellFormed(r)
    ensures r == q.(images := q.images + Targeted(srcs, t))
  {
    var r := q.(images := q.images + Targeted(srcs, t));
    forall k | 0 <= k < |r.images|
      ensures TargetOk(r, r.images[k].target)
    {
      if k < |q.images| {
        assert r.images[k] == q.images[k];
      } else {
        assert r.images[k] == Targeted(srcs, t)[k - |q.images|];
      }
    }
    r
  }

  /** The part after a marker: its text joins option `l` with a space, its
      images are shown in option `l`. */
  function OptionContent(q: Question, l: char, part: seq<Tok>): (r: Question)
    requires WellFormed(q) && l in q.options
    ensures WellFormed(r) && r.options.Keys == q.options.Keys
    ensures r.text == q.text && r.images == q.images + Targeted(ImagesOf(part), InOption(l))
    ensures r.options == q.options[l := Appended(q.options[l], " ", Trim(TextOf(part)))]
  {
    var v := Appended(q.options[l], " ", Trim(TextOf(part)));
    UpdateKeys(q.options, l, v);
    WithImages(WithOption(q, l, v), ImagesOf(part), InOption(l))
  }

  /** Writing back a key's own value changes nothing. */
  lemma MapSelfUpdate(m: map<char, string>, k: char)
    requires k in m
    ensures m[k := m[k]] == m
  {
  }

  /** Updating a present key keeps the key set. */
  lemma UpdateKeys(m: map<char, string>, k: char, v: string)
    requires k in m
    ensures m[k := v].Keys == m.Keys
  {
  }

  /** Text with no marker in front of it: it continues the last option
      (joined by a newline) or, before any marker, the question body
      (always preceded by a newline). */
  function Continue(cur: Cursor, part: seq<Tok>): (r: Cursor)
    requires CursorOk(cur)
    ensures CursorOk(r) && r.last == cur.last && r.q.options.Keys == cur.q.options.Keys
  {
    var text := Trim(TextOf(part));
    var srcs := ImagesOf(part);
    match cur.last
    case Some(l) =>
      var q1 := WithOption(cur.q, l, Appended(cur.q.options[l], "\n", text));
      Cursor(WithImages(q1, srcs, InOption(l)), cur.last)
    case None =>
      var q1 := if text != "" then cur.q.(text := cur.q.text + "\n" + text) else cur.q;
      Cursor(WithImages(q1, srcs, InQuestion), None)
  }

  /** The `while (partIndex < contentParts.length)` walk, as a tail recursion. */
  function Walk(cur: Cursor, parts: seq<seq<Tok>>): (r: Cursor)
    requires CursorOk(cur)
    ensures CursorOk(r)
    decreases |parts|
  {
    if parts == [] then cur
    else if IsMarkerPart(parts[0]) then
      var l := parts[0][0].c;
      var q1 := OpenOption(cur.q, l);
      if |parts| == 1 then Cursor(q1, Some(l))
      else Walk(Cursor(OptionContent(q1, l, parts[1]), Some(l)), parts[2..])
    else Walk(Continue(cur, parts[0]), parts[1..])
  }

  // ---------------------------------------------------------------------
  // Paragraph by paragraph

  /** The questions pushed so far and the open one, if any. */
  datatype State = State(done: seq<Question>, open: Option<Cursor>)

  predicate StateOk(st: State) {
    (forall k :: 0 <= k < |st.done| ==> WellFormed(st.done[k]))
    && (st.open.Some? ==> CursorOk(st.open.value))
  }

  /** The question a numbered paragraph opens: the trimmed text after the
      number, no options, and the paragraph's images in the body. */
  function Seed(p: Paragraph): (r: Question)
    requires IsQuestionStart(p)
    ensures WellFormed(r)
  {
    var t := ParagraphText(p);
    var body := Question(Trim(t[QuestionPrefix(t).value..]), map[], []);
    WithImages(body, ImagesOf(Tokens(p)), InQuestion)
  }

  /** Every question of `Finalized(st)` is well formed. */
  lemma FinalizedOk(st: State)
    requires StateOk(st)
    ensures forall k :: 0 <= k < |Finalized(st)| ==> WellFormed(Finalized(st)[k])
  {
  }

  /** `finalizeQuestion`: the pushed questions with the open one appended. */
  function Finalized(st: State): seq<Question> {
    st.done + (if st.open.Some? then [st.open.value.q] else [])
  }

  function Step(st: State, p: Paragraph): (r: State)
    requires StateOk(st)
    ensures StateOk(r)
  {
    if IsQuestionStart(p) then
      FinalizedOk(st);
      State(Finalized(st), Some(Cursor(Seed(p), None)))
    else if st.open.None? then st
    else
      var ts := Tokens(p);
      if HasMarker(ts) then st.(open := Some(Walk(st.open.value, DropEmpty(SplitMarkers(ts)))))
      else st.(open := Some(Continue(st.open.value, ts)))
  }

  function Run(st: State, ps: seq<Paragraph>): (r: State)
    requires StateOk(st)
    ensures StateOk(r)
    decreases |ps|
  {
    if ps == [] then st else Run(Step(st, ps[0]), ps[1..])
  }

  /** `parseHtmlToQuestions` as a function: every opened question, in order,
      each well formed. */
  function Segment(ps: seq<Paragraph>): (qs: seq<Question>)
    ensures forall k :: 0 <= k < |qs| ==> WellFormed(qs[k])
  {
    Finalized(Run(State([], None), ps))
  }

  /** `Step` on a numbered paragraph. */
  lemma StepStarts(st: State, p: Paragraph)
    requires StateOk(st) && IsQuestionStart(p)
    ensures Step(st, p) == State(Finalized(st), Some(Cursor(Seed(p), None)))
  {
  }

  /** `Step` on a paragraph read into the open question. */
  lemma StepReads(st: State, p: Paragraph)
    requires StateOk(st) && st.open.Some? && !IsQuestionStart(p)
    ensures var ts := Tokens(p);
            Step(st, p) == st.(open := Some(if HasMarker(ts) then Walk(st.open.value, DropEmpty(SplitMarkers(ts)))
                                            else Continue(st.open.value, ts)))
  {
  }

  lemma RunStep(st: State, ps: seq<Paragraph>)
    requires StateOk(st) && ps != []
    ensures Run(st, ps) == Run(Step(st, ps[0]), ps[1..])
  {
  }

  // ---------------------------------------------------------------------
  // The imperative pass

  function Snapshot(questions: seq<Question>, current: Option<Question>, last: Option<char>): State {
    State(questions, if current.Some? then Some(Cursor(current.value, last)) else None)
  }

  /** The parts from `i` on; nothing once `i` has run past the end. */
  function From(parts: seq<seq<Tok>>, i: nat): seq<seq<Tok>> {
    if i <= |parts| then parts[i..] else []
  }

  /** One turn of the walk at a marker part `parts[i]`. */
  lemma WalkFromMarker(cur: Cursor, parts: seq<seq<Tok>>, i: nat)
    requires CursorOk(cur) && i < |parts| && IsMarkerPart(parts[i])
    ensures var l := parts[i][0].c;
            var q1 := OpenOption(cur.q, l);
            Walk(cur, From(parts, i))
            == if i + 1 < |parts| then Walk(Cursor(OptionContent(q1, l, parts[i + 1]), Some(l)), From(parts, i + 2))
               else Walk(Cursor(q1, Some(l)), From(parts, i + 2))
  {
    assert From(parts, i)[0] == parts[i];
    if i + 1 < |parts| {
      assert From(parts, i)[1] == parts[i + 1];
      assert From(parts, i)[2..] == From(parts, i + 2);
    }
  }

  /** One turn of the walk at a part `parts[i]` that is not a marker. */
  lemma WalkFromText(cur: Cursor, parts: seq<seq<Tok>>, i: nat)
    requires CursorOk(cur) && i < |parts| && !IsMarkerPart(parts[i])
    ensures Walk(cur, From(parts, i)) == Walk(Continue(cur, parts[i]), From(parts, i + 1))
  {
    assert From(parts, i)[0] == parts[i];
    assert From(parts, i)[1..] == From(parts, i + 1);
  }

  method ParseQuestions(paragraphs: seq<Paragraph>) returns (questions: seq<Question>)
    ensures questions == Segment(paragraphs)
  {
    questions := [];
    var currentQuestion: Option<Question> := None;
    var lastOptionMarker: Option<char> := None;
    for i := 0 to |paragraphs|
      invariant currentQuestion.None? ==> lastOptionMarker.None?
      invariant StateOk(Snapshot(questions, currentQuestion, lastOptionMarker))
      invariant Run(Snapshot(questions, currentQuestion, lastOptionMarker), paragraphs[i..])
                == Run(State([], None), paragraphs)
    {
      ghost var before := Snapshot(questions, currentQuestion, lastOptionMarker);
      questions, currentQuestion, lastOptionMarker :=
        ParseParagraph(questions, currentQuestion, lastOptionMarker, paragraphs[i]);
      RunStep(before, paragraphs[i..]);
      assert paragraphs[i..][1..] == paragraphs[i + 1..];
    }
    // finalizeQuestion()
    if currentQuestion.Some? {
      questions := questions + [currentQuestion.value];
    }
  }

  /** One iteration of the loop over paragraphs (lines 42-152). */
  method ParseParagraph(questions0: seq<Question>, current0: Option<Question>, last0: Option<char>, p: Paragraph)
    returns (questions: seq<Question>, currentQuestion: Option<Question>, lastOptionMarker: Option<char>)
    requires current0.None? ==> last0.None?
    requires StateOk(Snapshot(questions0, current0, last0))
    ensures currentQuestion.None? ==> lastOptionMarker.None?
    ensures Snapshot(questions, currentQuestion, lastOptionMarker) == Step(Snapshot(questions0, current0, last0), p)
  {
    questions, currentQuestion, lastOptionMarker := questions0, current0, last0;
    var ts := Tokens(p);
    var pText := Trim(TextOf(ts));
    var questionMatch := QuestionPrefix(pText);
    if questionMatch.Some? {
      questions, currentQuestion := StartQuestion(questions0, current0, last0, p, questionMatch.value);
      lastOptionMarker := None;
    } else if currentQuestion.Some? {
      StepReads(Snapshot(questions0, current0, last0), p);
      var q;
      q, lastOptionMarker := ReadParagraph(currentQuestion.value, lastOptionMarker, ts);
      currentQuestion := Some(q);
    }
  }

  /** A numbered paragraph: the open question is finalized and a new one
      opened (lines 46-58). */
  method StartQuestion(questions0: seq<Question>, current0: Option<Question>, last0: Option<char>, p: Paragraph, prefix: nat)
    returns (questions: seq<Question>, currentQuestion: Option<Question>)
    requires current0.None? ==> last0.None?
    requires StateOk(Snapshot(questions0, current0, last0))
    requires QuestionPrefix(ParagraphText(p)) == Some(prefix)
    ensures Snapshot(questions, currentQuestion, None) == Step(Snapshot(questions0, current0, last0), p)
  {
    questions := questions0;
    currentQuestion := current0;
    // finalizeQuestion()
    if currentQuestion.Some? {
      questions := questions + [currentQuestion.value];
      currentQuestion := None;
    }
    var ts := Tokens(p);
    var pText := Trim(TextOf(ts));
    var q := Question(Trim(pText[prefix..]), map[], []);
    q := q.(images := q.images + Targeted(ImagesOf(ts), InQuestion));
    currentQuestion := Some(q);
    SeedIs(p, prefix);
    StepStarts(Snapshot(questions0, current0, last0), p);
  }

  /** The question a numbered paragraph opens, spelled out. */
  lemma SeedIs(p: Paragraph, prefix: nat)
    requires QuestionPrefix(ParagraphText(p)) == Some(prefix)
    ensures Seed(p) == Question(Trim(ParagraphText(p)[prefix..]), map[], [] + Targeted(ImagesOf(Tokens(p)), InQuestion))
  {
  }

  /** A paragraph read into the open question: split at option markers when
      it has one (lines 66-124), taken whole otherwise (lines 125-150). */
  method ReadParagraph(q0: Question, last0: Option<char>, ts: seq<Tok>)
    returns (q: Question, lastOptionMarker: Option<char>)
    requires CursorOk(Cursor(q0, last0))
    ensures Cursor(q, lastOptionMarker)
            == if HasMarker(ts) then Walk(Cursor(q0, last0), DropEmpty(SplitMarkers(ts))) else Continue(Cursor(q0, last0), ts)
  {
    if HasMarker(ts) {
      q, lastOptionMarker := WalkParts(q0, last0, DropEmpty(SplitMarkers(ts)));
    } else {
      q := ContinueParagraph(q0, last0, ts);
      lastOptionMarker := last0;
    }
  }

  /** The `while (partIndex < contentParts.length)` loop over a paragraph's
      parts, starting from question `q` and `lastOptionMarker` `last`. */
  method WalkParts(q0: Question, last0: Option<char>, contentParts: seq<seq<Tok>>)
    returns (q: Question, lastOptionMarker: Option<char>)
    requires CursorOk(Cursor(q0, last0))
    ensures Cursor(q, lastOptionMarker) == Walk(Cursor(q0, last0), contentParts)
  {
    q, lastOptionMarker := q0, last0;
    var partIndex := 0;
    while partIndex < |contentParts|
      invariant 0 <= partIndex <= |contentParts| + 1
      invariant CursorOk(Cursor(q, lastOptionMarker))
      invariant Walk(Cursor(q, lastOptionMarker), From(contentParts, partIndex))
                == Walk(Cursor(q0, last0), contentParts)
      decreases |contentParts| + 1 - partIndex
    {
      var currentPart := contentParts[partIndex];
      if IsMarkerPart(currentPart) {
        WalkFromMarker(Cursor(q, lastOptionMarker), contentParts, partIndex);
        var optionLetter := currentPart[0].c;
        lastOptionMarker := Some(optionLetter);
        if optionLetter !in q.options {
          q := q.(options := q.options[optionLetter := ""]);
        }
        partIndex := partIndex + 1;
        if partIndex < |contentParts| {
          q := MarkerContent(q, optionLetter, contentParts[partIndex]);
        }
        partIndex := partIndex + 1;
      } else {
        WalkFromText(Cursor(q, lastOptionMarker), contentParts, partIndex);
        q := ContinueParagraph(q, lastOptionMarker, currentPart);
        partIndex := partIndex + 1;
      }
    }
  }

  /** The part right after a marker: lines 88-105. */
  method MarkerContent(q0: Question, optionLetter: char, part: seq<Tok>) returns (q: Question)
    requires WellFormed(q0) && optionLetter in q0.options
    ensures q == OptionContent(q0, optionLetter, part)
  {
    q := q0;
    var textContent := Trim(TextOf(part));
    var imagesInPart := ImagesOf(part);
    if textContent != "" {
      var o := q.options[optionLetter];
      q := q.(options := q.options[optionLetter := o + (if o != "" then " " else "") + textContent]);
    } else {
      MapSelfUpdate(q0.options, optionLetter);
    }
    q := q.(images := q.images + Targeted(imagesInPart, InOption(optionLetter)));
    if |imagesInPart| > 0 && textContent == "" {
      var o := q.options[optionLetter];
      MapSelfUpdate(q.options, optionLetter);
      q := q.(options := q.options[optionLetter := if o != "" then o else ""]);
    }
  }

  /** Text and images with no marker in front of them, from a part of a
      marked paragraph (lines 108-120) or from a whole unmarked one (lines
      125-150): they go to the last option, or else to the question body. */
  method ContinueParagraph(q0: Question, lastOptionMarker: Option<char>, part: seq<Tok>) returns (q: Question)
    requires CursorOk(Cursor(q0, lastOptionMarker))
    ensures Cursor(q, lastOptionMarker) == Continue(Cursor(q0, lastOptionMarker), part)
  {
    q := q0;
    var textContent := Trim(TextOf(part));
    var imagesInP := ImagesOf(part);
    if lastOptionMarker.Some? {
      var l := lastOptionMarker.value;
      if textContent != "" {
        var o := q.options[l];
        q := q.(options := q.options[l := o + (if o != "" then "\n" else "") + textContent]);
      } else {
        MapSelfUpdate(q0.options, l);
      }
      q := q.(images := q.images + Targeted(imagesInP, InOption(l)));
      if |imagesInP| > 0 && textContent == "" {
        var o := q.options[l];
        MapSelfUpdate(q.options, l);
        q := q.(options := q.options[l := if o != "" then o else ""]);
      }
    } else {
      if textContent != "" {
        q := q.(text := q.text + "\n" + textContent);
      }
      q := q.(images := q.images + Targeted(imagesInP, InQuestion));
    }
  }
}
