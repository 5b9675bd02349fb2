/** What the segmenter guarantees: one question per numbered paragraph and
    no filter on emptiness, every question starting from its numbered line's
    text and images, every image kept in document order, and the routing of a
    paragraph's text and images to the body or to an option. */
module SegmenterProps {
  import opened Wrappers
  import opened Text
  import opened Segmenter

  // ---------------------------------------------------------------------
  // The question-start pattern, stated declaratively

  predicate AllDigits(s: string) {
    forall i :: 0 <= i < |s| ==> IsDigit(s[i])
  }

  /** Where the optional `Q` / `Question` word can end. */
  predicate WordEnds(t: string, p: nat) {
    || p == 0
    || (p == 1 && StartsWordCi(t, "q"))
    || (p == 8 && StartsWordCi(t, "question"))
  }

  /** `t[..e]` is word, white space `t[p..k]`, digits `t[k..d]`, `.` or `)` at
      `d`, white space `t[d+1..e]`. */
  predicate QuestionStartShape(t: string, p: nat, k: nat, d: nat, e: nat) {
    && p <= k < d < e <= |t|
    && WordEnds(t, p)
    && AllWs(t[p..k]) && AllDigits(t[k..d])
    && (t[d] == '.' || t[d] == ')')
    && AllWs(t[d + 1..e])
  }

  /** What `NumberEnd` matches at `p`: white space, digits, `.` or `)`, and
      all the white space after it. */
  lemma NumberEndSound(t: string, p: nat) returns (k: nat, d: nat)
    requires p <= |t| && NumberEnd(t, p).Some?
    ensures var e := NumberEnd(t, p).value;
            && p <= k < d < e <= |t|
            && AllWs(t[p..k]) && AllDigits(t[k..d])
            && (t[d] == '.' || t[d] == ')')
            && AllWs(t[d + 1..e]) && (e == |t| || !IsWs(t[e]))
  {
    k := WsEnd(t, p);
    d := DigitsEnd(t, k);
    assert AllDigits(t[k..d]);
  }

  /** The lexer finds a match of the pattern, the longest one: no white
      space follows it. */
  lemma QuestionPrefixSound(t: string) returns (p: nat, k: nat, d: nat)
    requires QuestionPrefix(t).Some?
    ensures QuestionStartShape(t, p, k, d, QuestionPrefix(t).value)
    ensures QuestionPrefix(t).value == |t| || !IsWs(t[QuestionPrefix(t).value])
  {
    if StartsWordCi(t, "q") && NumberEnd(t, 1).Some? {
      p := 1;
    } else if StartsWordCi(t, "question") && NumberEnd(t, 8).Some? {
      p := 8;
    } else {
      p := 0;
    }
    k, d := NumberEndSound(t, p);
  }

  lemma {:induction false} WsEndAt(t: string, i: nat, k: nat)
    requires i <= k < |t| && AllWs(t[i..k]) && !IsWs(t[k])
    ensures WsEnd(t, i) == k
    decreases k - i
  {
    if i < k {
      assert IsWs(t[i..k][0]);
      assert t[i + 1..k] == t[i..k][1..];
      WsEndAt(t, i + 1, k);
    }
  }

  lemma {:induction false} DigitsEndAt(t: string, i: nat, d: nat)
    requires i <= d < |t| && AllDigits(t[i..d]) && !IsDigit(t[d])
    ensures DigitsEnd(t, i) == d
    decreases d - i
  {
    if i < d {
      assert IsDigit(t[i..d][0]);
      assert t[i + 1..d] == t[i..d][1..];
      DigitsEndAt(t, i + 1, d);
    }
  }

  lemma NumberEndFound(t: string, p: nat, k: nat, d: nat, e: nat)
    requires QuestionStartShape(t, p, k, d, e)
    ensures NumberEnd(t, p).Some?
  {
    assert IsDigit(t[k..d][0]);
    WsEndAt(t, p, k);
    DigitsEndAt(t, k, d);
  }

  /** Whenever the text begins with the pattern, the lexer reports a match. */
  lemma QuestionPrefixComplete(t: string, p: nat, k: nat, d: nat, e: nat)
    requires QuestionStartShape(t, p, k, d, e)
    ensures QuestionPrefix(t).Some?
  {
    NumberEndFound(t, p, k, d, e);
  }

  // ---------------------------------------------------------------------
  // Counting questions

  function CountStarts(ps: seq<Paragraph>): nat {
    if ps == [] then 0 else (if IsQuestionStart(ps[0]) then 1 else 0) + CountStarts(ps[1..])
  }

  lemma {:induction false} RunCount(st: State, ps: seq<Paragraph>)
    requires StateOk(st)
    ensures |Finalized(Run(st, ps))| == |Finalized(st)| + CountStarts(ps)
    decreases |ps|
  {
    if ps != [] {
      RunStep(st, ps);
      StepCount(st, ps[0]);
      RunCount(Step(st, ps[0]), ps[1..]);
    }
  }

  /** A paragraph adds one question when it is numbered and none otherwise. */
  lemma StepCount(st: State, p: Paragraph)
    requires StateOk(st)
    ensures |Finalized(Step(st, p))| == |Finalized(st)| + (if IsQuestionStart(p) then 1 else 0)
  {
    if IsQuestionStart(p) {
      StepStarts(st, p);
    } else if st.open.Some? {
      StepReads(st, p);
    }
  }

  /** Paragraphs before the first numbered one leave no trace: with no
      question open they are skipped, so the questions are those of the
      document from the first numbered paragraph on. */
  lemma {:induction false} PreambleIgnored(ps: seq<Paragraph>, i: nat)
    requires i <= |ps|
    requires forall j :: 0 <= j < i ==> !IsQuestionStart(ps[j])
    ensures Segment(ps) == Segment(ps[i..])
  {
    PreambleSkipped(ps, i);
  }

  /** The run from the start state skips the first `i` paragraphs when none
      of them is numbered. */
  lemma {:induction false} PreambleSkipped(ps: seq<Paragraph>, i: nat)
    requires i <= |ps|
    requires forall j :: 0 <= j < i ==> !IsQuestionStart(ps[j])
    ensures Run(State([], None), ps) == Run(State([], None), ps[i..])
    decreases i
  {
    if i > 0 {
      var rest := ps[1..];
      forall j | 0 <= j < i - 1
        ensures !IsQuestionStart(rest[j])
      {
        assert rest[j] == ps[j + 1];
      }
      PreambleSkipped(rest, i - 1);
      assert rest[i - 1..] == ps[i..];
      SkipBeforeFirst(ps[0]);
    }
  }

  /** With no question open, an unnumbered paragraph changes nothing. */
  lemma SkipBeforeFirst(p: Paragraph)
    ensures !IsQuestionStart(p) ==> Step(State([], None), p) == State([], None)
  {
  }

  /** One question per numbered paragraph, and no other: paragraphs before the
      first numbered one open nothing and no question is dropped for being
      empty. */
  lemma QuestionCount(ps: seq<Paragraph>)
    ensures |Segment(ps)| == CountStarts(ps)
  {
    RunCount(State([], None), ps);
  }

  // ---------------------------------------------------------------------
  // Every question starts from its numbered paragraph

  /** `q2` is `q1` with things added: its text and images continue those of
      `q1`, and it has at least the same option letters. */
  predicate Extends(q2: Question, q1: Question) {
    q1.text <= q2.text && q1.images <= q2.images && q1.options.Keys <= q2.options.Keys
  }

  lemma ContinueExtends(cur: Cursor, part: seq<Tok>)
    requires CursorOk(cur)
    ensures Extends(Continue(cur, part).q, cur.q)
  {
  }

  lemma ExtendsTrans(q3: Question, q2: Question, q1: Question)
    requires Extends(q3, q2) && Extends(q2, q1)
    ensures Extends(q3, q1)
  {
  }

  /** A marker opens its option and the part after it adds to it. */
  lemma MarkerExtends(q: Question, l: char, part: seq<Tok>)
    requires WellFormed(q) && IsLetter(l)
    ensures Extends(OpenOption(q, l), q)
    ensures Extends(OptionContent(OpenOption(q, l), l, part), q)
  {
    var q1 := OpenOption(q, l);
    assert Extends(q1, q);
    ExtendsTrans(OptionContent(q1, l, part), q1, q);
  }

  lemma {:induction false} WalkExtends(cur: Cursor, parts: seq<seq<Tok>>)
    requires CursorOk(cur)
    ensures Extends(Walk(cur, parts).q, cur.q)
    decreases |parts|
  {
    if parts == [] {
    } else if IsMarkerPart(parts[0]) {
      var l := parts[0][0].c;
      var q1 := OpenOption(cur.q, l);
      MarkerExtends(cur.q, l, if |parts| > 1 then parts[1] else []);
      if |parts| > 1 {
        var c2 := Cursor(OptionContent(q1, l, parts[1]), Some(l));
        WalkExtends(c2, parts[2..]);
        ExtendsTrans(Walk(c2, parts[2..]).q, c2.q, cur.q);
      }
    } else {
      var c2 := Continue(cur, parts[0]);
      ContinueExtends(cur, parts[0]);
      WalkExtends(c2, parts[1..]);
      ExtendsTrans(Walk(c2, parts[1..]).q, c2.q, cur.q);
    }
  }

  /** The seed of every numbered paragraph, in order. */
  function Seeds(ps: seq<Paragraph>): seq<Question> {
    if ps == [] then [] else (if IsQuestionStart(ps[0]) then [Seed(ps[0])] else []) + Seeds(ps[1..])
  }

  /** Question `k` extends seed `k`. */
  predicate SeededBy(qs: seq<Question>, seeds: seq<Question>) {
    |qs| == |seeds| && forall k :: 0 <= k < |qs| ==> Extends(qs[k], seeds[k])
  }

  lemma AppendAssoc<T>(a: seq<T>, b: seq<T>, c: seq<T>)
    ensures a + b + c == a + (b + c)
  {
  }

  lemma SeededSnoc(qs: seq<Question>, seeds: seq<Question>, q: Question, seed: Question)
    requires SeededBy(qs, seeds) && Extends(q, seed)
    ensures SeededBy(qs + [q], seeds + [seed])
  {
  }

  lemma SeededLast(done: seq<Question>, q: Question, q2: Question, seeds: seq<Question>)
    requires SeededBy(done + [q], seeds) && Extends(q2, q)
    ensures SeededBy(done + [q2], seeds)
  {
    assert Extends(q, seeds[|done|]) by {
      assert (done + [q])[|done|] == q;
    }
    forall k | 0 <= k < |done| ensures Extends((done + [q2])[k], seeds[k]) {
      assert (done + [q2])[k] == (done + [q])[k];
    }
    assert (done + [q2])[|done|] == q2;
  }

  lemma StepSeeds(st: State, p: Paragraph, seeds: seq<Question>)
    requires StateOk(st) && SeededBy(Finalized(st), seeds)
    ensures SeededBy(Finalized(Step(st, p)), seeds + (if IsQuestionStart(p) then [Seed(p)] else []))
  {
    if IsQuestionStart(p) {
      StepStarts(st, p);
      SeededSnoc(Finalized(st), seeds, Seed(p), Seed(p));
    } else if st.open.None? {
      AppendEmpty(seeds, []);
    } else {
      var ts := Tokens(p);
      var cur := st.open.value;
      StepReads(st, p);
      var next := Step(st, p).open.value;
      if HasMarker(ts) {
        WalkExtends(cur, DropEmpty(SplitMarkers(ts)));
      } else {
        ContinueExtends(cur, ts);
      }
      SeededLast(st.done, cur.q, next.q, seeds);
      AppendEmpty(seeds, []);
    }
  }

  lemma {:induction false} RunSeeds(st: State, ps: seq<Paragraph>, seeds: seq<Question>)
    requires StateOk(st) && SeededBy(Finalized(st), seeds)
    ensures SeededBy(Finalized(Run(st, ps)), seeds + Seeds(ps))
    decreases |ps|
  {
    if ps == [] {
      assert seeds + Seeds(ps) == seeds;
    } else {
      var more := if IsQuestionStart(ps[0]) then [Seed(ps[0])] else [];
      StepSeeds(st, ps[0], seeds);
      RunSeeds(Step(st, ps[0]), ps[1..], seeds + more);
      var rest := Seeds(ps[1..]);
      assert Seeds(ps) == more + rest;
      AppendAssoc(seeds, more, rest);
    }
  }

  /** Question `k` begins as numbered paragraph `k` seeds it (its text starts
      with the trimmed text after the number, its first images are that
      paragraph's images, shown in the body), and later paragraphs only add. */
  lemma QuestionsExtendSeeds(ps: seq<Paragraph>)
    ensures |Segment(ps)| == |Seeds(ps)|
    ensures forall k :: 0 <= k < |Segment(ps)| ==> Extends(Segment(ps)[k], Seeds(ps)[k])
  {
    RunSeeds(State([], None), ps, []);
    assert [] + Seeds(ps) == Seeds(ps);
  }

  /** What a numbered paragraph seeds: the trimmed text after the matched
      number, no options, and every image of the paragraph, in order, shown
      in the body. */
  lemma SeedContents(p: Paragraph)
    requires IsQuestionStart(p)
    ensures Seed(p).text == Trim(ParagraphText(p)[QuestionPrefix(ParagraphText(p)).value..])
    ensures Seed(p).options == map[]
    ensures Seed(p).images == Targeted(ImagesOf(Tokens(p)), InQuestion)
  {
    var e: seq<ImageRef> := [];
    EmptyAppend(e, Targeted(ImagesOf(Tokens(p)), InQuestion));
  }

  lemma EmptyAppend<T>(e: seq<T>, b: seq<T>)
    requires e == []
    ensures e + b == b
  {
  }

  // ---------------------------------------------------------------------
  // Images keep document order

  function Srcs(imgs: seq<ImageRef>): seq<string> {
    if imgs == [] then [] else [imgs[0].src] + Srcs(imgs[1..])
  }

  lemma {:induction false} SrcsAppend(a: seq<ImageRef>, b: seq<ImageRef>)
    ensures Srcs(a + b) == Srcs(a) + Srcs(b)
    decreases |a|
  {
    if a == [] {
      assert a + b == b;
    } else {
      assert (a + b)[1..] == a[1..] + b;
      SrcsAppend(a[1..], b);
    }
  }

  lemma {:induction false} SrcsTargeted(srcs: seq<string>, t: Target)
    ensures Srcs(Targeted(srcs, t)) == srcs
    decreases |srcs|
  {
    if srcs != [] {
      SrcsTargeted(srcs[1..], t);
    }
  }

  /** Every image of every question, question by question. */
  function AllImages(qs: seq<Question>): seq<ImageRef> {
    if qs == [] then [] else AllImages(qs[..|qs| - 1]) + qs[|qs| - 1].images
  }

  lemma {:induction false} ImagesOfAppend(a: seq<Tok>, b: seq<Tok>)
    ensures ImagesOf(a + b) == ImagesOf(a) + ImagesOf(b)
    decreases |a|
  {
    if a == [] {
      assert a + b == b;
    } else {
      assert (a + b)[1..] == a[1..] + b;
      ImagesOfAppend(a[1..], b);
    }
  }

  lemma {:induction false} ImagesOfText(ts: seq<Tok>)
    requires forall i :: 0 <= i < |ts| ==> ts[i].Ch?
    ensures ImagesOf(ts) == []
    decreases |ts|
  {
    if ts != [] {
      ImagesOfText(ts[1..]);
    }
  }

  function ImagesOfParts(parts: seq<seq<Tok>>): seq<string> {
    if parts == [] then [] else ImagesOf(parts[0]) + ImagesOfParts(parts[1..])
  }

  lemma {:induction false} SplitImages(ts: seq<Tok>, acc: seq<Tok>)
    ensures ImagesOfParts(SplitFrom(ts, acc)) == ImagesOf(acc) + ImagesOf(ts)
    decreases |ts|
  {
    if ts == [] {
      var none: seq<seq<Tok>> := [];
      ImagesOfPartsCons(acc, none);
      AppendEmpty(ImagesOf(acc), ImagesOfParts(none));
    } else if MarkerAt(ts, 0) {
      var rest := SplitFrom(ts[3..], []);
      SplitImages(ts[3..], []);
      assert [acc, [ts[1]]] + rest == [acc] + ([[ts[1]]] + rest);
      ImagesOfPartsCons(acc, [[ts[1]]] + rest);
      ImagesOfPartsCons([ts[1]], rest);
      ImagesOfText([ts[1]]);
      var e: seq<Tok> := [];
      ImagesOfText(e);
      EmptyAppend(ImagesOf(e), ImagesOf(ts[3..]));
      EmptyAppend(ImagesOf([ts[1]]), ImagesOfParts(rest));
      assert ts == ts[..3] + ts[3..];
      ImagesOfAppend(ts[..3], ts[3..]);
      ImagesOfText(ts[..3]);
      EmptyAppend(ImagesOf(ts[..3]), ImagesOf(ts[3..]));
    } else {
      SplitImages(ts[1..], acc + [ts[0]]);
      ImagesOfAppend(acc, [ts[0]]);
      ImagesOfAppend([ts[0]], ts[1..]);
      assert ts == [ts[0]] + ts[1..];
      AppendAssoc(ImagesOf(acc), ImagesOf([ts[0]]), ImagesOf(ts[1..]));
    }
  }

  /** The split parts put back together, each captured letter inside its
      parentheses again. */
  function Unsplit(parts: seq<seq<Tok>>): seq<Tok> {
    if parts == [] then []
    else if |parts| == 1 then parts[0]
    else parts[0] + ([Ch('(')] + parts[1] + [Ch(')')]) + Unsplit(parts[2..])
  }

  /** The marker split loses nothing: rejoining the parts with their markers
      gives back the collected part followed by the whole input. */
  lemma {:induction false} SplitRejoins(ts: seq<Tok>, acc: seq<Tok>)
    ensures Unsplit(SplitFrom(ts, acc)) == acc + ts
    decreases |ts|
  {
    if ts == [] {
      assert acc + ts == acc;
    } else if MarkerAt(ts, 0) {
      SplitRejoins(ts[3..], []);
      UnsplitMarker(acc, ts[1], SplitFrom(ts[3..], []));
      assert [] + ts[3..] == ts[3..];
      assert ts == [Ch('('), ts[1], Ch(')')] + ts[3..];
    } else {
      SplitRejoins(ts[1..], acc + [ts[0]]);
      assert acc + [ts[0]] + ts[1..] == acc + ts;
    }
  }

  lemma UnsplitMarker(acc: seq<Tok>, letter: Tok, rest: seq<seq<Tok>>)
    ensures Unsplit([acc, [letter]] + rest) == acc + ([Ch('('), letter, Ch(')')] + Unsplit(rest))
  {
    assert ([acc, [letter]] + rest)[2..] == rest;
  }

  /** A paragraph's parts, rejoined, are its markup. */
  lemma SplitMarkersRejoins(ts: seq<Tok>)
    ensures Unsplit(SplitMarkers(ts)) == ts
  {
    SplitRejoins(ts, []);
    assert [] + ts == ts;
  }

  /** No marker starts anywhere in `s`. */
  predicate NoMarker(s: seq<Tok>) {
    forall i :: 0 <= i < |s| ==> !MarkerAt(s, i)
  }

  /** A captured letter on its own: one of `A`..`D`. */
  predicate LetterPart(part: seq<Tok>) {
    |part| == 1 && part[0].Ch? && 'A' <= part[0].c <= 'D'
  }

  /** What a split by the capturing marker pattern looks like: text with no
      marker in it, then alternately a captured letter and more such text. */
  predicate SplitShape(parts: seq<seq<Tok>>) {
    && |parts| % 2 == 1
    && forall k :: 0 <= k < |parts| ==> if k % 2 == 0 then NoMarker(parts[k]) else LetterPart(parts[k])
  }

  lemma MarkerAtPrefix(a: seq<Tok>, b: seq<Tok>, i: nat)
    requires MarkerAt(a, i)
    ensures MarkerAt(a + b, i)
  {
    assert (a + b)[i..i + 3] == a[i..i + 3];
  }

  lemma MarkerAtShift(a: seq<Tok>, b: seq<Tok>, j: nat)
    ensures MarkerAt(a + b, |a| + j) <==> MarkerAt(b, j)
  {
    if |a| + j + 3 <= |a + b| {
      assert (a + b)[|a| + j..|a| + j + 3] == b[j..j + 3];
    }
  }

  /** Scanning `ts` after the collected part `acc`, where no marker starts
      inside `acc`, gives a split of that shape. */
  lemma {:induction false} SplitFromShape(ts: seq<Tok>, acc: seq<Tok>)
    requires forall i :: 0 <= i < |acc| ==> !MarkerAt(acc + ts, i)
    ensures SplitShape(SplitFrom(ts, acc))
    decreases |ts|
  {
    forall i | 0 <= i < |acc| && MarkerAt(acc, i)
      ensures false
    {
      MarkerAtPrefix(acc, ts, i);
    }
    if ts == [] {
    } else if MarkerAt(ts, 0) {
      var rest := SplitFrom(ts[3..], []);
      SplitFromShape(ts[3..], []);
      var parts := [acc, [ts[1]]] + rest;
      forall k | 2 <= k < |parts|
        ensures parts[k] == rest[k - 2]
      {
      }
    } else {
      var acc' := acc + [ts[0]];
      assert acc' + ts[1..] == acc + ts;
      MarkerAtShift(acc, ts, 0);
      SplitFromShape(ts[1..], acc');
    }
  }

  /** A paragraph splits into marker-free text parts with a captured letter
      `A`..`D` between each two of them. */
  lemma SplitMarkersShape(ts: seq<Tok>)
    ensures SplitShape(SplitMarkers(ts))
  {
    SplitFromShape(ts, []);
  }

  lemma ImagesOfPartsCons(x: seq<Tok>, rest: seq<seq<Tok>>)
    ensures ImagesOfParts([x] + rest) == ImagesOf(x) + ImagesOfParts(rest)
  {
    assert ([x] + rest)[1..] == rest;
  }

  lemma {:induction false} DropEmptyImages(parts: seq<seq<Tok>>)
    ensures ImagesOfParts(DropEmpty(parts)) == ImagesOfParts(parts)
    decreases |parts|
  {
    if parts != [] {
      DropEmptyImages(parts[1..]);
      if parts[0] != [] {
        assert DropEmpty(parts) == [parts[0]] + DropEmpty(parts[1..]);
        assert ([parts[0]] + DropEmpty(parts[1..]))[1..] == DropEmpty(parts[1..]);
      } else {
        var e: seq<seq<Tok>> := [];
        assert DropEmpty(parts) == e + DropEmpty(parts[1..]);
        assert e + DropEmpty(parts[1..]) == DropEmpty(parts[1..]);
        assert ImagesOf(parts[0]) == [];
      }
    }
  }

  lemma ContinueImages(cur: Cursor, part: seq<Tok>)
    requires CursorOk(cur)
    ensures Srcs(Continue(cur, part).q.images) == Srcs(cur.q.images) + ImagesOf(part)
  {
    var t := if cur.last.Some? then InOption(cur.last.value) else InQuestion;
    SrcsAppend(cur.q.images, Targeted(ImagesOf(part), t));
    SrcsTargeted(ImagesOf(part), t);
  }

  lemma {:induction false} WalkImages(cur: Cursor, parts: seq<seq<Tok>>)
    requires CursorOk(cur)
    ensures Srcs(Walk(cur, parts).q.images) == Srcs(cur.q.images) + ImagesOfParts(parts)
    decreases |parts|
  {
    var before := Srcs(cur.q.images);
    if parts == [] {
      AppendEmpty(before, ImagesOfParts(parts));
    } else if IsMarkerPart(parts[0]) {
      var l := parts[0][0].c;
      var q1 := OpenOption(cur.q, l);
      ImagesOfText(parts[0]);
      assert ImagesOfParts(parts) == ImagesOfParts(parts[1..]) by {
        EmptyAppend(ImagesOf(parts[0]), ImagesOfParts(parts[1..]));
      }
      if |parts| == 1 {
        assert Walk(cur, parts) == Cursor(q1, Some(l));
        AppendEmpty(before, ImagesOfParts(parts[1..]));
      } else {
        var q2 := OptionContent(q1, l, parts[1]);
        assert Walk(cur, parts) == Walk(Cursor(q2, Some(l)), parts[2..]);
        SrcsAppend(q1.images, Targeted(ImagesOf(parts[1]), InOption(l)));
        SrcsTargeted(ImagesOf(parts[1]), InOption(l));
        WalkImages(Cursor(q2, Some(l)), parts[2..]);
        assert parts[1..][1..] == parts[2..];
        assert ImagesOfParts(parts[1..]) == ImagesOf(parts[1]) + ImagesOfParts(parts[2..]);
        AppendAssoc(before, ImagesOf(parts[1]), ImagesOfParts(parts[2..]));
      }
    } else {
      var c1 := Continue(cur, parts[0]);
      assert Walk(cur, parts) == Walk(c1, parts[1..]);
      ContinueImages(cur, parts[0]);
      WalkImages(c1, parts[1..]);
      AppendAssoc(before, ImagesOf(parts[0]), ImagesOfParts(parts[1..]));
    }
  }

  lemma AppendEmpty<T>(a: seq<T>, e: seq<T>)
    requires e == []
    ensures a + e == a
  {
  }

  lemma AllImagesSnoc(qs: seq<Question>, q: Question)
    ensures AllImages(qs + [q]) == AllImages(qs) + q.images
  {
    assert (qs + [q])[..|qs|] == qs;
  }

  /** A paragraph read into the open question adds its images, in order. */
  lemma ReadImages(cur: Cursor, ts: seq<Tok>)
    requires CursorOk(cur)
    ensures var next := if HasMarker(ts) then Walk(cur, DropEmpty(SplitMarkers(ts))) else Continue(cur, ts);
            Srcs(next.q.images) == Srcs(cur.q.images) + ImagesOf(ts)
  {
    if HasMarker(ts) {
      WalkImages(cur, DropEmpty(SplitMarkers(ts)));
      DropEmptyImages(SplitMarkers(ts));
      SplitImages(ts, []);
      var e: seq<Tok> := [];
      assert ImagesOf(e) == [];
      EmptyAppend(ImagesOf(e), ImagesOf(ts));
    } else {
      ContinueImages(cur, ts);
    }
  }

  lemma StepImages(st: State, p: Paragraph)
    requires StateOk(st)
    ensures Step(st, p).open.Some? == (st.open.Some? || IsQuestionStart(p))
    ensures Srcs(AllImages(Finalized(Step(st, p))))
            == Srcs(AllImages(Finalized(st)))
               + (if st.open.Some? || IsQuestionStart(p) then ImagesOf(Tokens(p)) else [])
  {
    var ts := Tokens(p);
    if IsQuestionStart(p) {
      assert Finalized(Step(st, p)) == Finalized(st) + [Seed(p)];
      AllImagesSnoc(Finalized(st), Seed(p));
      SrcsAppend(AllImages(Finalized(st)), Seed(p).images);
      SeedContents(p);
      SrcsTargeted(ImagesOf(ts), InQuestion);
    } else if st.open.Some? {
      var cur := st.open.value;
      var next := Step(st, p).open.value;
      ReadImages(cur, ts);
      assert Finalized(st) == st.done + [cur.q];
      assert Finalized(Step(st, p)) == st.done + [next.q];
      AllImagesSnoc(st.done, cur.q);
      AllImagesSnoc(st.done, next.q);
      SrcsAppend(AllImages(st.done), cur.q.images);
      SrcsAppend(AllImages(st.done), next.q.images);
      AppendAssoc(Srcs(AllImages(st.done)), Srcs(cur.q.images), ImagesOf(ts));
    } else {
      AppendEmpty(Srcs(AllImages(Finalized(st))), []);
    }
  }

  /** The images of every paragraph from the first numbered one on, in order. */
  function ImagesFrom(ps: seq<Paragraph>, started: bool): seq<string> {
    if ps == [] then []
    else
      var s := started || IsQuestionStart(ps[0]);
      (if s then ImagesOf(Tokens(ps[0])) else []) + ImagesFrom(ps[1..], s)
  }

  lemma {:induction false} RunImages(st: State, ps: seq<Paragraph>)
    requires StateOk(st)
    ensures Srcs(AllImages(Finalized(Run(st, ps))))
            == Srcs(AllImages(Finalized(st))) + ImagesFrom(ps, st.open.Some?)
    decreases |ps|
  {
    var a := Srcs(AllImages(Finalized(st)));
    if ps == [] {
      AppendEmpty(a, ImagesFrom(ps, st.open.Some?));
    } else {
      var st1 := Step(st, ps[0]);
      var here := if st.open.Some? || IsQuestionStart(ps[0]) then ImagesOf(Tokens(ps[0])) else [];
      StepImages(st, ps[0]);
      RunImages(st1, ps[1..]);
      assert Run(st, ps) == Run(st1, ps[1..]);
      assert ImagesFrom(ps, st.open.Some?) == here + ImagesFrom(ps[1..], st1.open.Some?);
      AppendAssoc(a, here, ImagesFrom(ps[1..], st1.open.Some?));
    }
  }

  /** No image after the first numbered paragraph is lost, duplicated or
      reordered: read question by question, the images are exactly those of
      the document from that paragraph on. */
  lemma ImagesInDocumentOrder(ps: seq<Paragraph>)
    ensures Srcs(AllImages(Segment(ps))) == ImagesFrom(ps, false)
  {
    RunImages(State([], None), ps);
  }

  // ---------------------------------------------------------------------
  // Empty questions are kept

  lemma {:induction false} RunAppend(st: State, a: seq<Paragraph>, b: seq<Paragraph>)
    requires StateOk(st)
    ensures Run(st, a + b) == Run(Run(st, a), b)
    decreases |a|
  {
    if a == [] {
      assert a + b == b;
    } else {
      assert (a + b)[1..] == a[1..] + b;
      RunAppend(Step(st, a[0]), a[1..], b);
    }
  }

  /** The questions a step has pushed: the finalized ones on a numbered
      paragraph, none otherwise. */
  lemma StepDone(st: State, p: Paragraph)
    requires StateOk(st)
    ensures Step(st, p).done == if IsQuestionStart(p) then Finalized(st) else st.done
    ensures st.done <= Step(st, p).done
  {
    if IsQuestionStart(p) {
      StepStarts(st, p);
    } else if st.open.Some? {
      StepReads(st, p);
    }
  }

  lemma PrefixTrans<T>(a: seq<T>, b: seq<T>, c: seq<T>)
    requires a <= b && b <= c
    ensures a <= c
  {
  }

  lemma PrefixAt<T>(a: seq<T>, b: seq<T>, k: nat)
    requires a <= b && k < |a|
    ensures k < |b| && b[k] == a[k]
  {
  }

  lemma {:induction false} RunKeepsDone(st: State, ps: seq<Paragraph>)
    requires StateOk(st)
    ensures st.done <= Run(st, ps).done
    decreases |ps|
  {
    if ps != [] {
      var st1 := Step(st, ps[0]);
      StepDone(st, ps[0]);
      RunStep(st, ps);
      RunKeepsDone(st1, ps[1..]);
      PrefixTrans(st.done, st1.done, Run(st1, ps[1..]).done);
    }
  }

  /** A numbered paragraph followed directly by another numbered paragraph is
      emitted as exactly what it seeded, even when that is empty: the pass has
      no emptiness filter. */
  lemma NumberedLineBeforeNextIsKept(ps: seq<Paragraph>, i: nat)
    requires i + 1 < |ps| && IsQuestionStart(ps[i]) && IsQuestionStart(ps[i + 1])
    ensures CountStarts(ps[..i]) < |Segment(ps)|
    ensures Segment(ps)[CountStarts(ps[..i])] == Seed(ps[i])
  {
    var init := State([], None);
    SplitAt(ps, i);
    RunAppend(init, ps[..i], ps[i..]);
    var st1 := Run(init, ps[..i]);
    RunCount(init, ps[..i]);
    RunStep(st1, ps[i..]);
    var st2 := Step(st1, ps[i]);
    StepStarts(st1, ps[i]);
    RunStep(st2, ps[i + 1..]);
    var st3 := Step(st2, ps[i + 1]);
    StepStarts(st2, ps[i + 1]);
    assert st3.done == Finalized(st1) + [Seed(ps[i])];
    var last := Run(st3, ps[i + 2..]);
    RunKeepsDone(st3, ps[i + 2..]);
    assert Run(init, ps) == last;
    PrefixTrans(st3.done, last.done, Finalized(last));
    PrefixAt(st3.done, Finalized(last), |Finalized(st1)|);
  }

  /** The slices the proof above walks through. */
  lemma SplitAt(ps: seq<Paragraph>, i: nat)
    requires i + 1 < |ps|
    ensures ps == ps[..i] + ps[i..]
    ensures ps[i..] != [] && ps[i..][0] == ps[i] && ps[i..][1..] == ps[i + 1..]
    ensures ps[i + 1..] != [] && ps[i + 1..][0] == ps[i + 1] && ps[i + 1..][1..] == ps[i + 2..]
  {
  }

  // ---------------------------------------------------------------------
  // Routing a paragraph's text and images

  /** A marker token sequence `(l)`. */
  function Marker(l: char): seq<Tok> {
    [Ch('('), Ch(l), Ch(')')]
  }

  lemma {:induction false} SplitNoMarker(ts: seq<Tok>, acc: seq<Tok>)
    requires !HasMarker(ts)
    ensures SplitFrom(ts, acc) == [acc + ts]
    decreases |ts|
  {
    if ts == [] {
      assert acc + ts == acc;
    } else {
      assert !MarkerAt(ts, 0);
      assert !HasMarker(ts[1..]) by {
        forall i | 0 <= i < |ts[1..]| ensures !MarkerAt(ts[1..], i) {
          assert !MarkerAt(ts, i + 1);
        }
      }
      SplitNoMarker(ts[1..], acc + [ts[0]]);
      assert acc + [ts[0]] + ts[1..] == acc + ts;
    }
  }

  lemma {:induction false} SplitSkip(x: seq<Tok>, r: seq<Tok>, acc: seq<Tok>)
    requires forall i :: 0 <= i < |x| ==> !MarkerAt(x + r, i)
    ensures SplitFrom(x + r, acc) == SplitFrom(r, acc + x)
    decreases |x|
  {
    if x == [] {
      assert x + r == r;
      assert acc + x == acc;
    } else {
      assert !MarkerAt(x + r, 0);
      assert (x + r)[1..] == x[1..] + r;
      forall i | 0 <= i < |x[1..]| ensures !MarkerAt(x[1..] + r, i) {
        assert !MarkerAt(x + r, i + 1);
      }
      SplitSkip(x[1..], r, acc + [x[0]]);
      assert acc + [x[0]] + x[1..] == acc + x;
    }
  }

  /** A marker-free `x` followed by a marker: no marker is found before it. */
  lemma NoMarkerBefore(x: seq<Tok>, l: char, y: seq<Tok>)
    requires !HasMarker(x)
    ensures forall i :: 0 <= i < |x| ==> !MarkerAt(x + (Marker(l) + y), i)
  {
    var r := Marker(l) + y;
    forall i | 0 <= i < |x| ensures !MarkerAt(x + r, i) {
      if i + 3 <= |x| {
        assert !MarkerAt(x, i);
        assert (x + r)[i..i + 3] == x[i..i + 3];
      } else if i + 1 == |x| {
        assert (x + r)[i + 1] == Ch('(');
      } else {
        assert (x + r)[i + 2] == Ch('(');
      }
    }
  }

  lemma SplitAtMarker(l: char, y: seq<Tok>, acc: seq<Tok>)
    requires IsLetter(l)
    ensures SplitFrom(Marker(l) + y, acc) == [acc, [Ch(l)]] + SplitFrom(y, [])
  {
    var ts := Marker(l) + y;
    assert MarkerAt(ts, 0);
    assert ts[3..] == y;
  }

  function NonEmpty(x: seq<Tok>): seq<seq<Tok>> {
    if x == [] then [] else [x]
  }

  lemma DropEmptyCons(x: seq<Tok>, rest: seq<seq<Tok>>)
    ensures DropEmpty([x] + rest) == NonEmpty(x) + DropEmpty(rest)
  {
    assert ([x] + rest)[1..] == rest;
  }

  /** The parts of `(l) x` when `x` has no marker. */
  lemma OneMarkerParts(l: char, x: seq<Tok>)
    requires IsLetter(l) && !HasMarker(x)
    ensures HasMarker(Marker(l) + x)
    ensures DropEmpty(SplitMarkers(Marker(l) + x)) == [[Ch(l)]] + NonEmpty(x)
  {
    assert MarkerAt(Marker(l) + x, 0);
    var e: seq<Tok> := [];
    SplitAtMarker(l, x, e);
    SplitNoMarker(x, e);
    EmptyAppend(e, x);
    DropEmptyCons(e, [[Ch(l)], x]);
    DropEmptyCons([Ch(l)], [x]);
    var none: seq<seq<Tok>> := [];
    DropEmptyCons(x, none);
    AppendEmpty(NonEmpty(x), DropEmpty(none));
  }

  lemma OpenOptionOptions(q: Question, l: char)
    requires WellFormed(q) && IsLetter(l)
    ensures OpenOption(q, l).options == q.options[l := OptionText(q, l)]
  {
    if l in q.options {
      MapSelfUpdate(q.options, l);
    }
  }

  /** The walk over parts that open with the marker of letter `l`. */
  lemma WalkAtMarker(cur: Cursor, l: char, rest: seq<seq<Tok>>)
    requires CursorOk(cur) && IsLetter(l)
    ensures Walk(cur, [[Ch(l)]] + rest)
            == if rest == [] then Cursor(OpenOption(cur.q, l), Some(l))
               else Walk(Cursor(OptionContent(OpenOption(cur.q, l), l, rest[0]), Some(l)), rest[1..])
  {
    var parts := [[Ch(l)]] + rest;
    assert parts[0] == [Ch(l)] && IsMarkerPart(parts[0]);
    if rest != [] {
      assert parts[1] == rest[0];
      assert parts[2..] == rest[1..];
    }
  }

  /** A marker with content `x` (possibly none): option `l` gets the trimmed
      text of `x` after a space, and the images of `x`. */
  lemma MarkerWithContent(cur: Cursor, l: char, x: seq<Tok>)
    requires CursorOk(cur) && IsLetter(l)
    ensures var r := Walk(cur, [[Ch(l)]] + NonEmpty(x));
            && r.last == Some(l)
            && r.q.options == cur.q.options[l := Appended(OptionText(cur.q, l), " ", Trim(TextOf(x)))]
            && r.q.text == cur.q.text
            && r.q.images == cur.q.images + Targeted(ImagesOf(x), InOption(l))
  {
    WalkAtMarker(cur, l, NonEmpty(x));
    var q1 := OpenOption(cur.q, l);
    OpenOptionOptions(cur.q, l);
    if x == [] {
      assert Trim(TextOf(x)) == "";
      assert Appended(OptionText(cur.q, l), " ", Trim(TextOf(x))) == OptionText(cur.q, l);
      AppendEmpty(cur.q.images, Targeted(ImagesOf(x), InOption(l)));
    } else {
      assert NonEmpty(x)[1..] == [];
      var q2 := OptionContent(q1, l, x);
      MapUpdateTwice(cur.q.options, l, OptionText(cur.q, l), Appended(OptionText(cur.q, l), " ", Trim(TextOf(x))));
    }
  }

  lemma MapUpdateTwice<K, V>(m: map<K, V>, k: K, a: V, b: V)
    ensures m[k := a][k := b] == m[k := b]
  {
  }

  /** A paragraph `(l) body` with no other marker: option `l` exists
      afterwards, the body's trimmed text joins it after a space, the body's
      images are shown in it, it becomes the last marker, and nothing else of
      the question changes. */
  lemma OptionLineRouting(st: State, p: Paragraph, l: char, body: seq<Tok>)
    requires StateOk(st) && st.open.Some? && !IsQuestionStart(p)
    requires IsLetter(l) && Tokens(p) == Marker(l) + body && !HasMarker(body)
    ensures Step(st, p).done == st.done && Step(st, p).open.Some?
    ensures var q := st.open.value.q;
            var r := Step(st, p).open.value;
            && r.last == Some(l)
            && r.q.options == q.options[l := Appended(OptionText(q, l), " ", Trim(TextOf(body)))]
            && r.q.text == q.text
            && r.q.images == q.images + Targeted(ImagesOf(body), InOption(l))
  {
    StepReads(st, p);
    OneMarkerParts(l, body);
    MarkerWithContent(st.open.value, l, body);
  }

  /** `DropEmpty` on five parts. */
  lemma DropEmptyFive(a: seq<Tok>, b: seq<Tok>, c: seq<Tok>, d: seq<Tok>, e: seq<Tok>)
    ensures DropEmpty([a, b, c, d, e])
            == NonEmpty(a) + (NonEmpty(b) + (NonEmpty(c) + (NonEmpty(d) + NonEmpty(e))))
  {
    DropEmptyCons(a, [b, c, d, e]);
    DropEmptyCons(b, [c, d, e]);
    DropEmptyCons(c, [d, e]);
    DropEmptyCons(d, [e]);
    var none: seq<seq<Tok>> := [];
    DropEmptyCons(e, none);
    AppendEmpty(NonEmpty(e), DropEmpty(none));
  }

  lemma TwoMarkerSplit(l1: char, x: seq<Tok>, l2: char, y: seq<Tok>)
    requires IsLetter(l1) && IsLetter(l2) && !HasMarker(x) && !HasMarker(y)
    ensures SplitMarkers(Marker(l1) + x + Marker(l2) + y) == [[], [Ch(l1)], x, [Ch(l2)], y]
  {
    var ts := Marker(l1) + x + Marker(l2) + y;
    var r := Marker(l2) + y;
    assert ts == Marker(l1) + (x + r);
    var e: seq<Tok> := [];
    SplitAtMarker(l1, x + r, e);
    NoMarkerBefore(x, l2, y);
    SplitSkip(x, r, e);
    EmptyAppend(e, x);
    SplitAtMarker(l2, y, x);
    SplitNoMarker(y, e);
    EmptyAppend(e, y);
  }

  /** The parts of `(l1) x (l2) y` when neither `x` nor `y` has a marker. */
  lemma TwoMarkerParts(l1: char, x: seq<Tok>, l2: char, y: seq<Tok>)
    requires IsLetter(l1) && IsLetter(l2) && x != [] && !HasMarker(x) && !HasMarker(y)
    ensures HasMarker(Marker(l1) + x + Marker(l2) + y)
    ensures DropEmpty(SplitMarkers(Marker(l1) + x + Marker(l2) + y)) == [[Ch(l1)], x, [Ch(l2)]] + NonEmpty(y)
  {
    assert MarkerAt(Marker(l1) + x + Marker(l2) + y, 0);
    TwoMarkerSplit(l1, x, l2, y);
    var e: seq<Tok> := [];
    DropEmptyFive(e, [Ch(l1)], x, [Ch(l2)], y);
  }

  /** A marker followed by content `x` and more parts: the walk files `x`
      under the marker's letter and goes on with the rest. */
  lemma MarkerThen(cur: Cursor, l: char, x: seq<Tok>, rest: seq<seq<Tok>>) returns (c1: Cursor)
    requires CursorOk(cur) && IsLetter(l)
    ensures CursorOk(c1) && Walk(cur, [[Ch(l)], x] + rest) == Walk(c1, rest)
    ensures c1.last == Some(l)
    ensures c1.q.options == cur.q.options[l := Appended(OptionText(cur.q, l), " ", Trim(TextOf(x)))]
    ensures c1.q.text == cur.q.text
    ensures c1.q.images == cur.q.images + Targeted(ImagesOf(x), InOption(l))
  {
    var parts := [x] + rest;
    assert [[Ch(l)], x] + rest == [[Ch(l)]] + parts;
    WalkAtMarker(cur, l, parts);
    assert parts[0] == x && parts[1..] == rest;
    var q1 := OpenOption(cur.q, l);
    c1 := Cursor(OptionContent(q1, l, x), Some(l));
    OpenOptionOptions(cur.q, l);
    MapUpdateTwice(cur.q.options, l, OptionText(cur.q, l), Appended(OptionText(cur.q, l), " ", Trim(TextOf(x))));
  }

  lemma Regroup<T>(a: T, b: T, c: T, n: seq<T>)
    ensures [a, b, c] + n == [a, b] + ([c] + n)
  {
  }

  lemma OptionTextUpdate(q: Question, q': Question, l: char, v: string, m: char)
    requires q'.options == q.options[l := v] && m != l
    ensures OptionText(q', m) == OptionText(q, m)
  {
  }

  /** The walk over `(l1)`, `x`, `(l2)` and `y` if there is one. */
  lemma TwoOptionsWalk(cur: Cursor, l1: char, x: seq<Tok>, l2: char, y: seq<Tok>)
    requires CursorOk(cur) && IsLetter(l1) && IsLetter(l2) && l1 != l2
    ensures var q := cur.q;
            var r := Walk(cur, [[Ch(l1)], x, [Ch(l2)]] + NonEmpty(y));
            && r.last == Some(l2)
            && r.q.options == q.options[l1 := Appended(OptionText(q, l1), " ", Trim(TextOf(x)))]
                                       [l2 := Appended(OptionText(q, l2), " ", Trim(TextOf(y)))]
            && r.q.text == q.text
            && r.q.images == q.images + Targeted(ImagesOf(x), InOption(l1))
                                      + Targeted(ImagesOf(y), InOption(l2))
  {
    var rest := [[Ch(l2)]] + NonEmpty(y);
    Regroup([Ch(l1)], x, [Ch(l2)], NonEmpty(y));
    var c1 := MarkerThen(cur, l1, x, rest);
    MarkerWithContent(c1, l2, y);
    OptionTextUpdate(cur.q, c1.q, l1, Appended(OptionText(cur.q, l1), " ", Trim(TextOf(x))), l2);
  }

  /** Two options on one line, `(l1) x (l2) y`: `x` goes to option `l1`, `y`
      to option `l2`, each with its images, and `l2` is the last marker. */
  lemma TwoOptionsOneLine(st: State, p: Paragraph, l1: char, x: seq<Tok>, l2: char, y: seq<Tok>)
    requires StateOk(st) && st.open.Some? && !IsQuestionStart(p)
    requires IsLetter(l1) && IsLetter(l2) && l1 != l2
    requires Tokens(p) == Marker(l1) + x + Marker(l2) + y
    requires x != [] && !HasMarker(x) && !HasMarker(y)
    ensures Step(st, p).done == st.done && Step(st, p).open.Some?
    ensures var q := st.open.value.q;
            var r := Step(st, p).open.value;
            && r.last == Some(l2)
            && r.q.options == q.options[l1 := Appended(OptionText(q, l1), " ", Trim(TextOf(x)))]
                                       [l2 := Appended(OptionText(q, l2), " ", Trim(TextOf(y)))]
            && r.q.text == q.text
            && r.q.images == q.images + Targeted(ImagesOf(x), InOption(l1))
                                      + Targeted(ImagesOf(y), InOption(l2))
  {
    StepReads(st, p);
    TwoMarkerParts(l1, x, l2, y);
    TwoOptionsWalk(st.open.value, l1, x, l2, y);
  }

  /** A paragraph with no marker continues the last option, joined by a
      newline when the option already has text, or else the question body,
      always after a newline; its images follow the same choice. */
  lemma ContinuationRouting(st: State, p: Paragraph)
    requires StateOk(st) && st.open.Some? && !IsQuestionStart(p) && !HasMarker(Tokens(p))
    ensures Step(st, p).done == st.done && Step(st, p).open.Some?
    ensures var cur := st.open.value;
            var r := Step(st, p).open.value;
            var text := ParagraphText(p);
            var srcs := ImagesOf(Tokens(p));
            && r.last == cur.last
            && (cur.last.Some? ==>
                  && r.q.text == cur.q.text
                  && r.q.options == cur.q.options[cur.last.value := Appended(cur.q.options[cur.last.value], "\n", text)]
                  && r.q.images == cur.q.images + Targeted(srcs, InOption(cur.last.value)))
            && (cur.last.None? ==>
                  && r.q.text == (if text != "" then cur.q.text + "\n" + text else cur.q.text)
                  && r.q.options == cur.q.options
                  && r.q.images == cur.q.images + Targeted(srcs, InQuestion))
  {
    StepReads(st, p);
  }

  lemma LowercaseNoMarker(c: char, body: seq<Tok>)
    requires 'a' <= c <= 'd' && !HasMarker(body)
    ensures !HasMarker([Ch('('), Ch(c), Ch(')')] + body)
  {
    var ts := [Ch('('), Ch(c), Ch(')')] + body;
    forall i | 0 <= i < |ts| ensures !MarkerAt(ts, i) {
      if i >= 3 && i + 3 <= |ts| {
        assert !MarkerAt(body, i - 3);
        assert ts[i..i + 3] == body[i - 3..i];
      }
    }
  }

  lemma TextStartsWith(ts: seq<Tok>, c: char)
    requires ts != [] && ts[0] == Ch(c) && !IsWs(c)
    ensures Trim(TextOf(ts)) != ""
  {
    assert TextOf(ts) == [c] + TextOf(ts[1..]);
    TrimEmptyIffAllWs(TextOf(ts));
  }

  /** Markers are upper case only: a paragraph opening with `(a)`..`(d)` and
      no other marker is continuation text, so before any marker it goes,
      marker and all, into the question body. */
  lemma LowercaseMarkerIsText(st: State, p: Paragraph, c: char, body: seq<Tok>)
    requires StateOk(st) && st.open.Some? && st.open.value.last.None? && !IsQuestionStart(p)
    requires 'a' <= c <= 'd' && Tokens(p) == [Ch('('), Ch(c), Ch(')')] + body && !HasMarker(body)
    ensures var q := st.open.value.q;
            var r := Step(st, p).open.value;
            && r.last.None?
            && r.q.options == q.options
            && r.q.text == q.text + "\n" + ParagraphText(p)
  {
    LowercaseNoMarker(c, body);
    TextStartsWith(Tokens(p), '(');
    ContinuationRouting(st, p);
  }

  /** The parts of `(l1)(l2) y` when `y` has no marker. */
  lemma AdjacentMarkerParts(l1: char, l2: char, y: seq<Tok>)
    requires IsLetter(l1) && IsLetter(l2) && y != [] && !HasMarker(y)
    ensures HasMarker(Marker(l1) + Marker(l2) + y)
    ensures DropEmpty(SplitMarkers(Marker(l1) + Marker(l2) + y)) == [[Ch(l1)], [Ch(l2)], y]
  {
    var e: seq<Tok> := [];
    assert Marker(l1) + Marker(l2) + y == Marker(l1) + e + Marker(l2) + y;
    assert !HasMarker(e);
    TwoMarkerSplit(l1, e, l2, y);
    assert MarkerAt(Marker(l1) + Marker(l2) + y, 0);
    DropEmptyFive(e, [Ch(l1)], e, [Ch(l2)], y);
  }

  /** The walk over `(l1)`, `(l2)`, `y`. */
  lemma AdjacentWalk(cur: Cursor, l1: char, l2: char, y: seq<Tok>)
    requires CursorOk(cur) && IsLetter(l1) && IsLetter(l2) && l1 != l2
    requires l1 !in cur.q.options && l2 !in cur.q.options
    requires Trim(TextOf(y)) != "" && !IsMarkerPart(y)
    ensures var r := Walk(cur, [[Ch(l1)], [Ch(l2)], y]);
            && r.last == Some(l1)
            && l2 !in r.q.options
            && l1 in r.q.options && r.q.options[l1] == [l2] + "\n" + Trim(TextOf(y))
  {
    Triple([Ch(l1)], [Ch(l2)], y);
    var c1 := MarkerThen(cur, l1, [Ch(l2)], [y]);
    LetterText(l2);
    var r := Walk(c1, [y]);
    ContinueOnly(c1, y);
    AdjacentOptions(cur.q, c1.q.options, r.q.options, l1, l2, Trim(TextOf(y)));
  }

  lemma Triple<T>(a: T, b: T, c: T)
    ensures [a, b, c] == [a, b] + [c]
  {
  }

  lemma LetterText(l: char)
    requires IsLetter(l)
    ensures Trim(TextOf([Ch(l)])) == [l]
  {
    assert TextOf([Ch(l)]) == [l];
    TrimOfTrimmed([l]);
  }

  lemma AdjacentOptions(q0: Question, o1: map<char, string>, o2: map<char, string>,
                        l1: char, l2: char, t: string)
    requires l1 != l2 && l1 !in q0.options && l2 !in q0.options && t != ""
    requires o1 == q0.options[l1 := Appended(OptionText(q0, l1), " ", [l2])]
    requires o2 == o1[l1 := Appended(o1[l1], "\n", t)]
    ensures l2 !in o2 && l1 in o2 && o2[l1] == [l2] + "\n" + t
  {
  }

  /** The walk over a single part that is not a marker. */
  lemma ContinueOnly(c1: Cursor, y: seq<Tok>)
    requires CursorOk(c1) && c1.last.Some? && !IsMarkerPart(y)
    ensures var r := Walk(c1, [y]);
            var l := c1.last.value;
            && r.last == c1.last
            && r.q.options == c1.q.options[l := Appended(c1.q.options[l], "\n", Trim(TextOf(y)))]
  {
    assert [y][1..] == [];
  }

  /** Two markers with nothing between them, `(l1)(l2) y`: the walk takes the
      part after a marker as its content whatever it is, so the letter `l2`
      becomes the text of option `l1`, `y` continues option `l1` after a
      newline, and option `l2` is never opened. */
  lemma AdjacentMarkersHeuristic(st: State, p: Paragraph, l1: char, l2: char, y: seq<Tok>)
    requires StateOk(st) && st.open.Some? && !IsQuestionStart(p)
    requires IsLetter(l1) && IsLetter(l2) && l1 != l2
    requires l1 !in st.open.value.q.options && l2 !in st.open.value.q.options
    requires Tokens(p) == Marker(l1) + Marker(l2) + y && !HasMarker(y)
    requires Trim(TextOf(y)) != "" && !IsMarkerPart(y)
    ensures var r := Step(st, p).open.value;
            && r.last == Some(l1)
            && l2 !in r.q.options
            && l1 in r.q.options && r.q.options[l1] == [l2] + "\n" + Trim(TextOf(y))
  {
    StepReads(st, p);
    assert y != [];
    AdjacentMarkerParts(l1, l2, y);
    AdjacentWalk(st.open.value, l1, l2, y);
  }
}
