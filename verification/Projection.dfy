/** The plain projection: nothing in it is invented, and plain messages survive whole. */
module Projection {
  import opened Wrappers
  import opened Chars
  import opened RichText
  import opened Tokens
  import opened Inline
  import opened Emit
  import opened Lines
  import opened Document

  // ---- drawing from joined lines -----------------------------------------------------------

  lemma {:induction false} JoinDraws(texts: seq<Str>, lines: seq<Str>, a: Unit, b: Unit)
    requires |texts| == |lines| && Same(a, b)
    requires forall i :: 0 <= i < |lines| ==> Draws(texts[i], lines[i])
    ensures Draws(Join(texts, a), Join(lines, b))
  {
    if |lines| > 1 {
      JoinDraws(texts[1..], lines[1..], a, b);
      assert Draws([a], [b]) by { assert Draws([a][1..], [b][1..]); }
      DrawsConcat(texts[0], lines[0], [a], [b]);
      DrawsConcat(texts[0] + [a], lines[0] + [b], Join(texts[1..], a), Join(lines[1..], b));
    } else if |lines| == 1 {
      assert Draws(texts[0], lines[0]);
    }
  }

  /** A run of lines can be drawn from the lines around it. */
  lemma JoinSubDraws(before: seq<Str>, lines: seq<Str>, after: seq<Str>)
    ensures Draws(Join(lines, NEWLINE), Join(before + lines + after, NEWLINE))
  {
    if lines != [] {
      var p := Join(lines, NEWLINE);
      DrawsSelf(p);
      var mid := before + lines;
      if before == [] {
        assert mid == lines;
      } else {
        JoinAppend(before, lines, NEWLINE);
        DrawsPad(p, Join(before, NEWLINE) + [NEWLINE], p);
      }
      if after == [] {
        assert mid + after == mid;
      } else {
        JoinAppend(mid, after, NEWLINE);
        DrawsConcat(p, Join(mid, NEWLINE), [], [NEWLINE] + Join(after, NEWLINE));
        assert p + [] == p;
        assert Join(mid, NEWLINE) + ([NEWLINE] + Join(after, NEWLINE)) == Join(mid + after, NEWLINE);
      }
    }
  }

  // ---- blocks draw from their lines ----------------------------------------------------------

  lemma {:induction false} QuoteTextsDraw(lines: seq<Str>)
    requires forall i :: 0 <= i < |lines| ==> IsQuote(lines[i])
    ensures |QuoteTexts(lines)| == |lines|
    ensures forall i :: 0 <= i < |lines| ==> Draws(QuoteTexts(lines)[i], lines[i])
  {
    hide QuoteOf;
    if lines != [] {
      assert IsQuote(lines[0]);
      QuoteTextsDraw(lines[1..]);
      DrawsSuffix(lines[0], |lines[0]| - |QuoteOf(lines[0]).value|);
      assert QuoteTexts(lines) == [QuoteOf(lines[0]).value] + QuoteTexts(lines[1..]);
      assert forall i :: 1 <= i < |lines| ==> lines[i] == lines[1..][i - 1];
    }
  }

  lemma {:induction false} ItemPlainsDraw(ordered: bool, lines: seq<Str>, names: Names)
    requires forall i :: 0 <= i < |lines| ==> IsItem(ordered, lines[i])
    ensures var texts := ItemPlains(ItemNodes(ordered, lines, names));
      |texts| == |lines| && forall i :: 0 <= i < |lines| ==> Draws(texts[i], lines[i])
  {
    hide ItemOf, InlineNodes;
    if lines != [] {
      assert IsItem(ordered, lines[0]);
      ItemPlainsDraw(ordered, lines[1..], names);
      var text := ItemOf(ordered, lines[0]).value;
      var plain := PlainOf(InlineNodes(text, names));
      InlineDraws(text, names);
      DrawsSuffix(lines[0], |lines[0]| - |text|);
      DrawsTrans(plain, text, lines[0]);
      var items := ItemNodes(ordered, lines, names);
      assert items[1..] == ItemNodes(ordered, lines[1..], names);
      assert ItemPlains(items) == [plain] + ItemPlains(items[1..]);
      assert forall i :: 1 <= i < |lines| ==> lines[i] == lines[1..][i - 1];
    }
  }

  lemma HeadDraws(line: Str, names: Names)
    requires HeadingOf(line).Some?
    ensures Draws(PlainOf(InlineNodes(HeadingOf(line).value.text, names)), line)
  {
    hide HeadingOf, InlineNodes;
    var text := HeadingOf(line).value.text;
    InlineDraws(text, names);
    DrawsSuffix(line, |line| - |text|);
    DrawsTrans(PlainOf(InlineNodes(text, names)), text, line);
  }

  lemma QuoteDraws(lines: seq<Str>, names: Names)
    requires forall i :: 0 <= i < |lines| ==> IsQuote(lines[i])
    ensures Draws(PlainOf(InlineNodes(Join(QuoteTexts(lines), NEWLINE), names)), Join(lines, NEWLINE))
  {
    hide QuoteOf, InlineNodes, Join;
    var joined := Join(QuoteTexts(lines), NEWLINE);
    InlineDraws(joined, names);
    QuoteTextsDraw(lines);
    JoinDraws(QuoteTexts(lines), lines, NEWLINE, NEWLINE);
    DrawsTrans(PlainOf(InlineNodes(joined, names)), joined, Join(lines, NEWLINE));
  }

  lemma ItemsDraw(ordered: bool, lines: seq<Str>, names: Names)
    requires forall i :: 0 <= i < |lines| ==> IsItem(ordered, lines[i])
    ensures Draws(Join(ItemPlains(ItemNodes(ordered, lines, names)), SPACE), Join(lines, NEWLINE))
  {
    hide ItemOf, Join;
    ItemPlainsDraw(ordered, lines, names);
    JoinDraws(ItemPlains(ItemNodes(ordered, lines, names)), lines, SPACE, NEWLINE);
  }

  lemma BlockDraws(s: Segment, names: Names)
    requires SegmentFits(s)
    ensures Draws(PlainOf(BlockOf(s, names)), Join(LinesOf(s), NEWLINE))
  {
    hide HeadingOf, QuoteOf, ItemOf, FenceOf, InlineNodes;
    match s {
      case Fence(open, body, close) =>
        PlainOfOne(BlockOf(s, names)[0]);
        JoinSubDraws([open], body, close);
      case Head(line) =>
        PlainOfOne(BlockOf(s, names)[0]);
        HeadDraws(line, names);
      case Quote(lines) =>
        PlainOfOne(BlockOf(s, names)[0]);
        QuoteDraws(lines, names);
      case Items(ordered, lines) =>
        PlainOfOne(BlockOf(s, names)[0]);
        ItemsDraw(ordered, lines, names);
      case Prose(lines) =>
        var joined := Join(lines, NEWLINE);
        InlineDraws(joined, names);
        if Trim(joined) != [] {
          PlainOfOne(Paragraph(InlineNodes(joined, names)));
        }
    }
  }

  lemma {:induction false} BlocksDraw(segs: seq<Segment>, names: Names)
    requires AllFit(segs) && forall s :: s in segs ==> LinesOf(s) != []
    ensures Draws(PlainOf(Blocks(segs, names)), Join(AllLines(segs), NEWLINE))
  {
    hide BlockOf, SegmentFits;
    if segs != [] {
      var here := BlockOf(segs[0], names);
      var rest := Blocks(segs[1..], names);
      BlockDraws(segs[0], names);
      BlocksDraw(segs[1..], names);
      PlainAppend(here, rest);
      var first := Join(LinesOf(segs[0]), NEWLINE);
      if segs[1..] == [] {
        assert AllLines(segs) == LinesOf(segs[0]);
        assert PlainOf(here) + PlainOf(rest) == PlainOf(here);
      } else {
        assert AllLines(segs[1..]) != [] by { assert LinesOf(segs[1..][0]) != []; }
        JoinAppend(LinesOf(segs[0]), AllLines(segs[1..]), NEWLINE);
        DrawsPad(PlainOf(rest), [NEWLINE], Join(AllLines(segs[1..]), NEWLINE));
        DrawsConcat(PlainOf(here), first, PlainOf(rest), [NEWLINE] + Join(AllLines(segs[1..]), NEWLINE));
        assert first + ([NEWLINE] + Join(AllLines(segs[1..]), NEWLINE)) == Join(AllLines(segs), NEWLINE);
      }
    }
  }

  function Tree(raw: Str, names: Names): Node {
    Root(Blocks(SegmentsOf(raw), names))
  }

  lemma TreeDraws(raw: Str, names: Names)
    ensures Draws(Collapse(AstToPlain(Tree(raw, names))), raw)
  {
    var plain := AstToPlain(Tree(raw, names));
    SegmentsPartition(Split(raw), 0);
    assert Split(raw)[0..] == Split(raw);
    BlocksDraw(SegmentsOf(raw), names);
    CollapseDraws(plain);
    DrawsTrans(Collapse(plain), plain, raw);
  }

  /** `enforceContentLength` lets the text pass. */
  predicate ContentLengthAccepted(plain: Str) { |plain| <= MAX_PLAIN_LENGTH }

  /** The parser invents no text: the visible characters of the projection are visible
      characters of the message in the same order, and it is no longer than the message. */
  lemma NothingInvented(raw: Str, names: Names, clock: nat)
    ensures Parse(raw, names, clock).Ok? ==>
      var plain := Parse(raw, names, clock).value.plain;
      && Subsequence(Ink(plain), raw) && |plain| <= |raw|
      && (ContentLengthAccepted(plain) <==> |plain| <= 4000)
      && (|raw| <= 4000 ==> ContentLengthAccepted(plain))
  {
    TreeDraws(raw, names);
    DrawsMeans(Collapse(AstToPlain(Tree(raw, names))), raw);
  }

  /** The projection is the text of the tree with every run of blanks made one space, and none at
      an end. */
  lemma PlainCollapses(raw: Str, names: Names, clock: nat)
    ensures Parse(raw, names, clock).Ok? ==>
      var parsed := Parse(raw, names, clock).value;
      CollapsedFrom(parsed.plain, AstToPlain(parsed.ast))
  {
    hide CollapsedFrom, AstToPlain, Collapse;
    if Parse(raw, names, clock).Ok? {
      CollapseKeeps(AstToPlain(Parse(raw, names, clock).value.ast));
    }
  }

  // ---- display names are decoration ------------------------------------------------------------

  lemma {:induction false} EmitPlainAgrees(steps: seq<Step>, buf: Str, marks: seq<TextMark>, a: Names, b: Names)
    ensures PlainOf(Emit.Emit(steps, buf, marks, a)) == PlainOf(Emit.Emit(steps, buf, marks, b))
    decreases steps
  {
    hide StepNodes;
    if steps != [] {
      var s := steps[0];
      if IsLiteral(s) {
        EmitPlainAgrees(steps[1..], buf + Source(s), marks, a, b);
      } else {
        EmitPlainAgrees(steps[1..], [], marks, a, b);
        StepPlainAgrees(s, marks, a, b);
        EmitPlainParts(steps, buf, marks, a);
        EmitPlainParts(steps, buf, marks, b);
      }
    }
  }

  lemma EmitPlainParts(steps: seq<Step>, buf: Str, marks: seq<TextMark>, names: Names)
    requires steps != [] && !IsLiteral(steps[0])
    ensures PlainOf(Emit.Emit(steps, buf, marks, names)) ==
      buf + PlainOf(StepNodes(steps[0], marks, names)) + PlainOf(Emit.Emit(steps[1..], [], marks, names))
  {
    PlainOfFlush(buf, marks);
    PlainAppend(Flush(buf, marks), StepNodes(steps[0], marks, names));
    PlainAppend(Flush(buf, marks) + StepNodes(steps[0], marks, names), Emit.Emit(steps[1..], [], marks, names));
  }

  lemma {:induction false} StepPlainAgrees(s: Step, marks: seq<TextMark>, a: Names, b: Names)
    ensures PlainOf(StepNodes(s, marks, a)) == PlainOf(StepNodes(s, marks, b))
    decreases s
  {
    match s {
      case Styled(m, steps) => EmitPlainAgrees(steps, [], marks + [MarkOf(m)], a, b);
      case Ref(kind, id) =>
        PlainOfOne(Mention(kind, id, ResolveName(a, kind, id)));
        PlainOfOne(Mention(kind, id, ResolveName(b, kind, id)));
      case _ =>
    }
  }

  lemma {:induction false} ItemPlainsAgree(ordered: bool, lines: seq<Str>, a: Names, b: Names)
    requires forall i :: 0 <= i < |lines| ==> IsItem(ordered, lines[i])
    ensures ItemPlains(ItemNodes(ordered, lines, a)) == ItemPlains(ItemNodes(ordered, lines, b))
  {
    hide ItemOf, InlineNodes;
    if lines != [] {
      assert IsItem(ordered, lines[0]);
      InlinePlainAgrees(ItemOf(ordered, lines[0]).value, a, b);
      ItemPlainsAgree(ordered, lines[1..], a, b);
      assert ItemNodes(ordered, lines, a)[1..] == ItemNodes(ordered, lines[1..], a);
      assert ItemNodes(ordered, lines, b)[1..] == ItemNodes(ordered, lines[1..], b);
    }
  }

  lemma InlinePlainAgrees(text: Str, a: Names, b: Names)
    ensures PlainOf(InlineNodes(text, a)) == PlainOf(InlineNodes(text, b))
  {
    EmitPlainAgrees(Lex(text, 0), [], [], a, b);
  }

  lemma BlockPlainAgrees(s: Segment, a: Names, b: Names)
    requires SegmentFits(s)
    ensures PlainOf(BlockOf(s, a)) == PlainOf(BlockOf(s, b))
  {
    hide HeadingOf, QuoteOf, ItemOf, FenceOf, InlineNodes, Trim;
    if BlockOf(s, a) != [] {
      PlainOfOne(BlockOf(s, a)[0]);
      PlainOfOne(BlockOf(s, b)[0]);
    }
    match s {
      case Fence(_, _, _) =>
      case Head(line) => InlinePlainAgrees(HeadingOf(line).value.text, a, b);
      case Quote(lines) => InlinePlainAgrees(Join(QuoteTexts(lines), NEWLINE), a, b);
      case Items(ordered, lines) => ItemPlainsAgree(ordered, lines, a, b);
      case Prose(lines) => InlinePlainAgrees(Join(lines, NEWLINE), a, b);
    }
  }

  lemma {:induction false} BlocksPlainAgree(segs: seq<Segment>, a: Names, b: Names)
    requires AllFit(segs)
    ensures PlainOf(Blocks(segs, a)) == PlainOf(Blocks(segs, b))
  {
    hide BlockOf, SegmentFits;
    if segs != [] {
      BlocksPlainAgree(segs[1..], a, b);
      BlockPlainAgrees(segs[0], a, b);
      PlainAppend(BlockOf(segs[0], a), Blocks(segs[1..], a));
      PlainAppend(BlockOf(segs[0], b), Blocks(segs[1..], b));
    }
  }

  /** Whether a message parses, and its projection, do not depend on the display names. */
  lemma NamesOnlyDecorate(raw: Str, a: Names, b: Names, clock: nat)
    ensures var pa := Parse(raw, a, clock); var pb := Parse(raw, b, clock);
      match pa
      case Err(e) => pb == Err(e)
      case Ok(p) => pb.Ok? && pb.value.plain == p.plain && pb.value.nodeCount == p.nodeCount
  {
    BlocksPlainAgree(SegmentsOf(raw), a, b);
  }

  // ---- plain messages ------------------------------------------------------------------------

  /** No token starts anywhere in the text. */
  ghost predicate Inert(text: Str) {
    forall i :: 0 <= i < |text| ==> TokenAt(text, i) == Atom(Plain(text[i]))
  }

  /** No unit that a token can start with, and no colon. */
  predicate Quiet(text: Str) {
    forall i :: 0 <= i < |text| ==> text[i] !in [0x40, 0x3C, 0x5B, 0x3A, 0x7E, 0x7C, 0x2A, 0x5F, 0x60]
  }

  /** Ordinary prose has no tokens. */
  lemma QuietIsInert(text: Str)
    requires Quiet(text)
    ensures Inert(text)
  {
    hide TokenSpec, AtomAt, MatchMarker;
    forall i | 0 <= i < |text| ensures TokenAt(text, i) == Atom(Plain(text[i])) {
      QuietHasNoAtom(text[i..]);
      QuietHasNoMarker(text, i);
    }
  }

  lemma NotPrefix(p: Str, s: Str, i: nat)
    requires i < |p| && (i < |s| ==> p[i] != s[i])
    ensures !(p <= s)
  {
  }

  lemma QuietHasNoAtom(rest: Str)
    requires rest != [] && Quiet(rest)
    ensures AtomAt(rest).None?
  {
    hide IsTokenId, LinkForm, UrlForm;
    forall kind: RefKind ensures MatchRef(kind, rest).None? {
      NotPrefix(RefOpen(kind), rest, 0);
    }
    NotPrefix(HTTPS + COLON_SLASHES, rest, 5);
    NotPrefix(HTTP + COLON_SLASHES, rest, 4);
  }

  lemma QuietHasNoMarker(text: Str, pos: nat)
    requires pos < |text| && Quiet(text)
    ensures MatchMarker(text, pos).None?
  {
    forall m: Marker ensures !StartsWith(text, Open(m), pos) {
      if pos + |Open(m)| <= |text| {
        assert text[pos..pos + |Open(m)|][0] == text[pos];
      }
    }
  }

  lemma {:induction false} InertEmits(text: Str, pos: nat, buf: Str, names: Names)
    requires Inert(text) && pos <= |text|
    ensures Emit.Emit(Lex(text, pos), buf, [], names) == Flush(buf + text[pos..], [])
    decreases |text| - pos
  {
    hide TokenAt;
    if pos < |text| {
      assert TokenAt(text, pos) == Atom(Plain(text[pos]));
      LexUnfold(text, pos);
      assert Lex(text, pos)[1..] == Lex(text, pos + 1);
      InertEmits(text, pos + 1, buf + [text[pos]], names);
      Assoc(buf, [text[pos]], text[pos + 1..]);
      SliceSplit(text, pos, pos + 1);
    } else {
      NoneAdded(buf);
    }
  }

  lemma {:induction false} ProseIsOneSegment(lines: seq<Str>)
    requires lines != [] && forall i :: 0 <= i < |lines| ==> IsProse(lines[i])
    ensures Segments(lines, 0) == [Prose(lines)]
  {
    assert IsProse(lines[0]) && KindOf(lines[0]) == ProseKind;
    assert Run(lines, 0, IsProse) == |lines|;
    assert lines[0..|lines|] == lines;
    assert Segments(lines, |lines|) == [];
  }

  lemma ProseBlocks(raw: Str, names: Names)
    requires forall i :: 0 <= i < |Split(raw)| ==> IsProse(Split(raw)[i])
    ensures Tree(raw, names).nodes == if Trim(raw) == [] then [] else [Paragraph(InlineNodes(raw, names))]
  {
    ProseIsOneSegment(Split(raw));
    var segs := SegmentsOf(raw);
    assert segs == [Prose(Split(raw))];
    assert Blocks(segs, names) == BlockOf(segs[0], names) + Blocks(segs[1..], names);
  }

  lemma InertInline(raw: Str, names: Names)
    requires Inert(raw) && raw != []
    ensures InlineNodes(raw, names) == [TextRun(raw, [])]
  {
    InertEmits(raw, 0, [], names);
    assert [] + raw[0..] == raw;
  }

  lemma PlainOfParagraph(text: Str)
    ensures AstToPlain(Root([Paragraph([TextRun(text, [])])])) == text
  {
    PlainOfOne(TextRun(text, []));
    PlainOfOne(Paragraph([TextRun(text, [])]));
  }

  lemma TrimOfEmpty()
    ensures Trim([]) == []
  {
  }

  /** A message without markup loses nothing: it becomes one paragraph holding one text, and its
      projection has every visible unit of it and the blanks between them. */
  lemma PlainMessage(raw: Str, names: Names, clock: nat)
    requires Inert(raw) && Trim(raw) != []
    requires forall i :: 0 <= i < |Split(raw)| ==> IsProse(Split(raw)[i])
    ensures Tree(raw, names) == Root([Paragraph([TextRun(raw, [])])])
    ensures Parse(raw, names, clock).Ok? ==> CollapsedFrom(Parse(raw, names, clock).value.plain, raw)
  {
    hide CollapsedFrom, Collapse, Inert;
    ProseBlocks(raw, names);
    TrimOfEmpty();
    InertInline(raw, names);
    PlainOfParagraph(raw);
    PlainCollapses(raw, names, clock);
  }
}
