/** When a parse succeeds, what its tree looks like, and when the schema accepts it. */
module Conformance {
  import opened Wrappers
  import opened Chars
  import opened RichText
  import opened Tokens
  import opened Budget
  import opened Inline
  import opened Emit
  import opened Lines
  import opened Document
  import opened Projection

  // ---- when a parse succeeds ------------------------------------------------------------------

  /** No text of the segment trips the depth guard. */
  predicate GuardsPass(s: Segment)
    requires SegmentFits(s)
  {
    match s
    case Fence(_, _, _) => true
    case Head(line) => GuardDepth(HeadingOf(line).value.text) <= MAX_DEPTH
    case Quote(lines) => GuardDepth(Join(QuoteTexts(lines), NEWLINE)) <= MAX_DEPTH
    case Items(ordered, lines) => ItemGuardsPass(ordered, lines)
    case Prose(lines) =>
      Trim(Join(lines, NEWLINE)) != [] ==> GuardDepth(Join(lines, NEWLINE)) <= MAX_DEPTH
  }

  predicate ItemGuardsPass(ordered: bool, lines: seq<Str>)
    requires forall i :: 0 <= i < |lines| ==> IsItem(ordered, lines[i])
  {
    lines == [] ||
    (assert IsItem(ordered, lines[0]);
     GuardDepth(ItemOf(ordered, lines[0]).value) <= MAX_DEPTH && ItemGuardsPass(ordered, lines[1..]))
  }

  predicate AllGuardsPass(segs: seq<Segment>)
    requires AllFit(segs)
  {
    forall i :: 0 <= i < |segs| ==> GuardsPass(segs[i])
  }

  lemma DepthsSplit(a: seq<Event>, b: seq<Event>, limit: nat)
    ensures DepthsWithin(a + b, limit) <==> DepthsWithin(a, limit) && DepthsWithin(b, limit)
  {
    if DepthsWithin(a + b, limit) {
      assert forall i :: 0 <= i < |a| ==> (a + b)[i] == a[i];
      assert forall i :: 0 <= i < |b| ==> (a + b)[|a| + i] == b[i];
    }
  }

  lemma InlineDepths(text: Str)
    ensures DepthsWithin(InlineChecks(text), MAX_DEPTH) <==> GuardDepth(text) <= MAX_DEPTH
  {
    RunNeverTooDeep(text);
    DepthsSplit([Nest(GuardDepth(text))], RunChecks(text, 0), MAX_DEPTH);
    assert [Nest(GuardDepth(text))][0].Nest?;
  }

  lemma {:induction false} ItemDepths(ordered: bool, lines: seq<Str>)
    requires forall i :: 0 <= i < |lines| ==> IsItem(ordered, lines[i])
    ensures DepthsWithin(ItemChecks(ordered, lines), MAX_DEPTH) <==> ItemGuardsPass(ordered, lines)
  {
    if lines != [] {
      assert IsItem(ordered, lines[0]);
      var text := ItemOf(ordered, lines[0]).value;
      InlineDepths(text);
      ItemDepths(ordered, lines[1..]);
      DepthsSplit([Bump], InlineChecks(text), MAX_DEPTH);
      DepthsSplit([Bump] + InlineChecks(text), ItemChecks(ordered, lines[1..]), MAX_DEPTH);
    }
  }

  lemma BumpIsShallow()
    ensures DepthsWithin([Bump], MAX_DEPTH)
  {
  }

  lemma BlockDepths(s: Segment)
    requires SegmentFits(s)
    ensures DepthsWithin(BlockChecks(s), MAX_DEPTH) <==> GuardsPass(s)
  {
    hide HeadingOf, QuoteOf, ItemOf, FenceOf, InlineChecks, GuardDepth, Trim, DepthsWithin;
    BumpIsShallow();
    NoneAdded([Bump]);
    match s {
      case Fence(_, _, _) =>
      case Head(line) =>
        InlineDepths(HeadingOf(line).value.text);
        DepthsSplit([Bump], InlineChecks(HeadingOf(line).value.text), MAX_DEPTH);
      case Quote(lines) =>
        InlineDepths(Join(QuoteTexts(lines), NEWLINE));
        DepthsSplit([Bump], InlineChecks(Join(QuoteTexts(lines), NEWLINE)), MAX_DEPTH);
      case Items(ordered, lines) =>
        ItemDepths(ordered, lines);
        DepthsSplit([Bump], ItemChecks(ordered, lines), MAX_DEPTH);
      case Prose(lines) =>
        InlineDepths(Join(lines, NEWLINE));
        DepthsSplit([Bump], InlineChecks(Join(lines, NEWLINE)), MAX_DEPTH);
    }
  }

  lemma {:induction false} AllDepths(segs: seq<Segment>)
    requires AllFit(segs)
    ensures DepthsWithin(AllChecks(segs), MAX_DEPTH) <==> AllGuardsPass(segs)
  {
    hide BlockChecks, GuardsPass, SegmentFits;
    if segs != [] {
      BlockDepths(segs[0]);
      AllDepths(segs[1..]);
      DepthsSplit(BlockChecks(segs[0]), AllChecks(segs[1..]), MAX_DEPTH);
      assert AllGuardsPass(segs) <==> GuardsPass(segs[0]) && AllGuardsPass(segs[1..]) by {
        assert forall i :: 1 <= i < |segs| ==> segs[i] == segs[1..][i - 1];
      }
    }
  }

  /** A message parses exactly when its tree, with list items and skipped blank runs counted
      in, is within the node limit, no text trips the depth guard and the clock allows every
      reading; the result is then that tree. */
  lemma ParseSucceedsIff(raw: Str, names: Names, clock: nat)
    ensures var segs := SegmentsOf(raw); var tree := Tree(raw, names);
      && (Parse(raw, names, clock).Ok? <==>
            && Count(tree) + TotalSlack(segs) <= MAX_NODES
            && AllGuardsPass(segs)
            && Readings(AllChecks(segs)) <= clock)
      && (Parse(raw, names, clock).Ok? ==> Parse(raw, names, clock).value.ast == tree)
  {
    BlocksMeasure(SegmentsOf(raw), names);
    ConsumeOk(Scan(1, clock), AllChecks(SegmentsOf(raw)));
    AllDepths(SegmentsOf(raw));
  }

  /** A depth error always comes from the guard, never from nesting. */
  lemma DepthErrorIsTheGuards(raw: Str, names: Names, clock: nat)
    requires AllGuardsPass(SegmentsOf(raw))
    ensures Parse(raw, names, clock) != Err(ParseDepthExceeded)
  {
    AllDepths(SegmentsOf(raw));
    NoDepthError(Scan(1, clock), AllChecks(SegmentsOf(raw)));
  }

  // ---- the shape of the tree --------------------------------------------------------------------

  /** A leaf the parser can make: safe links, well-formed mention ids, at most six marks. */
  predicate FineLeaf(n: Node) {
    Sound(n) && (n.TextRun? ==> |n.marks| <= 6)
  }

  predicate FineLeaves(ns: seq<Node>) {
    forall i :: 0 <= i < |ns| ==> FineLeaf(ns[i])
  }

  predicate FineBlock(b: Node) {
    match b
    case CodeBlock(_, lang) => lang != Some([])
    case Heading(level, ns) => 1 <= level <= 3 && FineLeaves(ns)
    case Paragraph(ns) => FineLeaves(ns)
    case Blockquote(ns) => FineLeaves(ns)
    case ListBlock(_, indent, items) =>
      indent == 0 && items != [] && forall i :: 0 <= i < |items| ==> FineLeaves(items[i].nodes)
    case _ => false
  }

  lemma InlineFine(text: Str, names: Names)
    ensures FineLeaves(InlineNodes(text, names))
  {
    InlineSound(text, names);
    InlineMarks(text, names);
  }

  lemma {:induction false} ItemsFine(ordered: bool, lines: seq<Str>, names: Names)
    requires forall i :: 0 <= i < |lines| ==> IsItem(ordered, lines[i])
    ensures var items := ItemNodes(ordered, lines, names);
      |items| == |lines| && forall i :: 0 <= i < |items| ==> FineLeaves(items[i].nodes)
  {
    if lines != [] {
      assert IsItem(ordered, lines[0]);
      InlineFine(ItemOf(ordered, lines[0]).value, names);
      ItemsFine(ordered, lines[1..], names);
    }
  }

  lemma BlockFine(s: Segment, names: Names)
    requires SegmentFits(s) && LinesOf(s) != []
    ensures forall b :: b in BlockOf(s, names) ==> FineBlock(b)
  {
    hide HeadingOf, QuoteOf, ItemOf, FenceOf, InlineNodes;
    match s {
      case Fence(_, _, _) =>
      case Head(line) => InlineFine(HeadingOf(line).value.text, names);
      case Quote(lines) => InlineFine(Join(QuoteTexts(lines), NEWLINE), names);
      case Items(ordered, lines) => ItemsFine(ordered, lines, names);
      case Prose(lines) => InlineFine(Join(lines, NEWLINE), names);
    }
  }

  lemma {:induction false} BlocksFine(segs: seq<Segment>, names: Names)
    requires AllFit(segs) && forall s :: s in segs ==> LinesOf(s) != []
    ensures forall b :: b in Blocks(segs, names) ==> FineBlock(b)
  {
    if segs != [] {
      BlockFine(segs[0], names);
      BlocksFine(segs[1..], names);
    }
  }

  /** Every parsed tree is fine: no link with an active scheme, no malformed mention. */
  lemma TreeFine(raw: Str, names: Names)
    ensures forall b :: b in Tree(raw, names).nodes ==> FineBlock(b)
  {
    SegmentsPartition(Split(raw), 0);
    BlocksFine(SegmentsOf(raw), names);
  }

  // ---- the schema ----------------------------------------------------------------------------------

  /** Every mention in the text resolves to a display name the schema has room for. */
  predicate NamesFit(steps: seq<Step>, names: Names)
    decreases steps
  {
    steps == [] || (StepNamesFit(steps[0], names) && NamesFit(steps[1..], names))
  }

  predicate StepNamesFit(s: Step, names: Names)
    decreases s
  {
    match s
    case Ref(kind, id) => DisplayAccepted(ResolveName(names, kind, id))
    case Styled(_, steps) => NamesFit(steps, names)
    case _ => true
  }

  predicate TextNamesFit(text: Str, names: Names) {
    NamesFit(Lex(text, 0), names)
  }

  predicate ItemNamesFit(ordered: bool, lines: seq<Str>, names: Names)
    requires forall i :: 0 <= i < |lines| ==> IsItem(ordered, lines[i])
  {
    lines == [] ||
    (assert IsItem(ordered, lines[0]);
     TextNamesFit(ItemOf(ordered, lines[0]).value, names) && ItemNamesFit(ordered, lines[1..], names))
  }

  /** What the schema asks of a segment and the parser does not: a short language name on an
      opening fence, and short display names. */
  predicate SegmentSuits(s: Segment, names: Names)
    requires SegmentFits(s)
  {
    match s
    case Fence(open, _, _) => |FenceOf(open).value| <= MAX_LANG_LENGTH
    case Head(line) => TextNamesFit(HeadingOf(line).value.text, names)
    case Quote(lines) => TextNamesFit(Join(QuoteTexts(lines), NEWLINE), names)
    case Items(ordered, lines) => ItemNamesFit(ordered, lines, names)
    case Prose(lines) =>
      Trim(Join(lines, NEWLINE)) != [] ==> TextNamesFit(Join(lines, NEWLINE), names)
  }

  lemma TokenIdAccepted(id: Str)
    requires IsTokenId(id)
    ensures IsMentionId(id)
  {
  }

  lemma FlushAccepted(buf: Str, marks: seq<TextMark>)
    ensures SchemaAll(Flush(buf, marks))
  {
    if buf != [] { SchemaOne(TextRun(buf, marks)); }
  }

  lemma {:induction false} EmitSchema(steps: seq<Step>, buf: Str, marks: seq<TextMark>, names: Names)
    requires StepsValid(steps)
    ensures SchemaAll(Emit.Emit(steps, buf, marks, names)) <==> NamesFit(steps, names)
    decreases steps
  {
    FlushAccepted(buf, marks);
    if steps != [] {
      var s := steps[0];
      if IsLiteral(s) {
        EmitSchema(steps[1..], buf + Source(s), marks, names);
      } else {
        EmitSchema(steps[1..], [], marks, names);
        StepSchema(s, marks, names);
        SchemaAppend(Flush(buf, marks), StepNodes(s, marks, names));
        SchemaAppend(Flush(buf, marks) + StepNodes(s, marks, names), Emit.Emit(steps[1..], [], marks, names));
      }
    }
  }

  lemma SchemaOne(n: Node)
    ensures SchemaAll([n]) <==> SchemaNode(n)
  {
    assert SchemaAll([n][1..]);
  }

  lemma {:induction false} StepSchema(s: Step, marks: seq<TextMark>, names: Names)
    requires StepValid(s) && !IsLiteral(s)
    ensures SchemaAll(StepNodes(s, marks, names)) <==> StepNamesFit(s, names)
    decreases s
  {
    hide ResolveName, IsSafeLinkUrl, UrlForm, IsTokenId, IsMentionId;
    match s {
      case Ref(kind, id) =>
        TokenIdAccepted(id);
        SchemaOne(Mention(kind, id, ResolveName(names, kind, id)));
      case BareUrl(url) =>
        UrlSafe(url);
        SchemaOne(Link(url, None));
      case Styled(m, steps) => EmitSchema(steps, [], marks + [MarkOf(m)], names);
      case Anchor(l) => SchemaOne(StepNodes(s, marks, names)[0]);
      case Code(inner) => SchemaOne(TextRun(inner, marks + [Monospace]));
      case Plain(_) =>
      case Unsafe(_) =>
    }
  }

  lemma InlineSchema(text: Str, names: Names)
    ensures SchemaAll(InlineNodes(text, names)) <==> TextNamesFit(text, names)
    ensures forall i :: 0 <= i < |InlineNodes(text, names)| ==> IsInline(InlineNodes(text, names)[i])
  {
    LexValid(text, 0);
    EmitSchema(Lex(text, 0), [], [], names);
    InlineSound(text, names);
    forall i | 0 <= i < |InlineNodes(text, names)| ensures IsInline(InlineNodes(text, names)[i]) {
      assert Sound(InlineNodes(text, names)[i]);
    }
  }

  lemma {:induction false} ItemsSchema(ordered: bool, lines: seq<Str>, names: Names)
    requires forall i :: 0 <= i < |lines| ==> IsItem(ordered, lines[i])
    ensures SchemaItems(ItemNodes(ordered, lines, names)) <==> ItemNamesFit(ordered, lines, names)
  {
    if lines != [] {
      assert IsItem(ordered, lines[0]);
      InlineSchema(ItemOf(ordered, lines[0]).value, names);
      ItemsSchema(ordered, lines[1..], names);
      assert ItemNodes(ordered, lines, names)[1..] == ItemNodes(ordered, lines[1..], names);
    }
  }

  lemma WrappedSchema(n: Node, text: Str, names: Names)
    requires n.Paragraph? || n.Blockquote? || (n.Heading? && 1 <= n.level <= 3)
    requires n.nodes == InlineNodes(text, names)
    ensures SchemaAll([n]) <==> TextNamesFit(text, names)
  {
    InlineSchema(text, names);
    SchemaOne(n);
  }

  lemma BlockSchema(s: Segment, names: Names)
    requires SegmentFits(s)
    ensures SchemaAll(BlockOf(s, names)) <==> SegmentSuits(s, names)
  {
    hide HeadingOf, QuoteOf, ItemOf, FenceOf, InlineNodes;
    match s {
      case Fence(_, _, _) => SchemaOne(BlockOf(s, names)[0]);
      case Head(line) =>
        var h := HeadingOf(line).value;
        WrappedSchema(Heading(h.level, InlineNodes(h.text, names)), h.text, names);
      case Quote(lines) =>
        var joined := Join(QuoteTexts(lines), NEWLINE);
        WrappedSchema(Blockquote(InlineNodes(joined, names)), joined, names);
      case Items(ordered, lines) =>
        ItemsSchema(ordered, lines, names);
        SchemaOne(ListBlock(ordered, 0, ItemNodes(ordered, lines, names)));
      case Prose(lines) =>
        var joined := Join(lines, NEWLINE);
        WrappedSchema(Paragraph(InlineNodes(joined, names)), joined, names);
    }
  }

  predicate AllSuit(segs: seq<Segment>, names: Names)
    requires AllFit(segs)
  {
    forall i :: 0 <= i < |segs| ==> SegmentSuits(segs[i], names)
  }

  lemma {:induction false} BlocksSchema(segs: seq<Segment>, names: Names)
    requires AllFit(segs)
    ensures SchemaAll(Blocks(segs, names)) <==> AllSuit(segs, names)
  {
    if segs != [] {
      BlockSchema(segs[0], names);
      BlocksSchema(segs[1..], names);
      SchemaAppend(BlockOf(segs[0], names), Blocks(segs[1..], names));
      assert AllSuit(segs, names) <==> SegmentSuits(segs[0], names) && AllSuit(segs[1..], names) by {
        assert forall i :: 1 <= i < |segs| ==> segs[i] == segs[1..][i - 1];
      }
    }
  }

  /** The schema accepts a parsed tree exactly when every opening fence names a language of at
      most 32 units and every mention resolves to a name of at most 100. */
  lemma SchemaAcceptsIff(raw: Str, names: Names, clock: nat)
    requires Parse(raw, names, clock).Ok?
    ensures SchemaRoot(Parse(raw, names, clock).value.ast) <==> AllSuit(SegmentsOf(raw), names)
  {
    ParseMeasures(raw, names, clock);
    BlocksSchema(SegmentsOf(raw), names);
  }

  /** The one segment of a message that only opens a fence. */
  lemma LoneFence(lang: Str)
    requires AllOf(lang, IsLangUnit)
    ensures var raw := [0x60, 0x60, 0x60] + lang;
      FenceOf(raw) == Some(lang) && SegmentsOf(raw) == [Fence(raw, [], [])]
  {
    var raw := [0x60, 0x60, 0x60] + lang;
    assert raw[3..] == lang;
    assert forall i :: 3 <= i < |raw| ==> raw[i] == lang[i - 3];
    assert FenceSplit(raw, |raw|);
    assert FenceOf(raw).value == raw[3..3 + |FenceOf(raw).value|] == raw[3..];
    assert NEWLINE !in raw;
    SplitUnique(Split(raw), [raw]);
    assert KindOf(raw) == FenceKind;
    var lines := [raw];
    assert SegmentEnd(lines, 0) == 1;
    assert lines[1..1] == [];
    assert SegmentAt(lines, 0) == Fence(raw, [], []);
    assert Segments(lines, 0) == [SegmentAt(lines, 0)] + Segments(lines, 1);
  }

  /** The gap is real: a fence with any longer language parses, and the schema rejects it. */
  lemma LongLanguageRejected(lang: Str, names: Names, clock: nat)
    requires AllOf(lang, IsLangUnit) && |lang| > MAX_LANG_LENGTH && clock >= 1
    ensures var raw := [0x60, 0x60, 0x60] + lang;
      Parse(raw, names, clock).Ok? && !SchemaRoot(Parse(raw, names, clock).value.ast)
  {
    var raw := [0x60, 0x60, 0x60] + lang;
    LoneFence(lang);
    var segs := SegmentsOf(raw);
    assert AllChecks(segs) == BlockChecks(segs[0]) + AllChecks(segs[1..]) == [Bump];
    assert Consume(Scan(1, clock), [Bump]) == Consume(Scan(2, clock - 1), []);
    assert !SegmentSuits(segs[0], names);
    SchemaAcceptsIff(raw, names, clock);
  }

  /** A mention on its own is one token. */
  lemma LoneRefLexed(kind: RefKind, id: Str)
    requires IsTokenId(id)
    ensures Lex(RefToken(kind, id), 0) == [Ref(kind, id)]
  {
    hide IsTokenId;
    var raw := RefToken(kind, id);
    LoneRefToken(kind, id);
    hide StepAt, NextAt, RefToken;
    LexUnfold(raw, 0);
  }

  lemma LoneRefToken(kind: RefKind, id: Str)
    requires IsTokenId(id)
    ensures var raw := RefToken(kind, id); StepAt(raw, 0) == Ref(kind, id) && NextAt(raw, 0) == |raw|
  {
    hide IsTokenId, TokenSpec, MarkerToken;
    var raw := RefToken(kind, id);
    assert raw[0..] == raw;
    assert MatchRef(kind, raw) == Some(id);
    forall other | other != kind ensures MatchRef(other, raw).None? {
      OtherOpen(kind, other, id);
    }
    assert AtomAt(raw) == Some(Ref(kind, id));
    assert TokenAt(raw, 0) == Atom(Ref(kind, id));
  }

  /** No token of one kind starts like one of another. */
  lemma OtherOpen(kind: RefKind, other: RefKind, id: Str)
    requires other != kind
    ensures MatchRef(other, RefToken(kind, id)).None?
  {
    var raw := RefToken(kind, id);
    assert raw[0] == RefOpen(kind)[0] && raw[1] == RefOpen(kind)[1];
    assert raw[0] != RefOpen(other)[0] || raw[1] != RefOpen(other)[1];
    assert !(RefOpen(other) <= raw);
  }

  /** And one line of prose. */
  lemma LoneRefLine(kind: RefKind, id: Str)
    requires IsTokenId(id)
    ensures var raw := RefToken(kind, id); IsProse(raw) && SegmentsOf(raw) == [Prose([raw])]
  {
    hide FenceOf, HeadingOf, QuoteOf, ItemOf, IsTokenId, IsProse, Segments;
    var raw := RefToken(kind, id);
    TokenIdUnits(id);
    assert NEWLINE !in raw;
    SplitUnique(Split(raw), [raw]);
    NoBlockStart(raw);
    ProseIsOneSegment([raw]);
  }

  /** A line that starts with none of the block starts is prose. */
  lemma NoBlockStart(line: Str)
    requires line != [] && (line[0] == 0x40 || line[0] == 0x3C)
    ensures IsProse(line)
  {
  }

  /** The guard meets no marker at the start of a mention. */
  lemma LoneRefStarts(kind: RefKind, id: Str)
    ensures var raw := RefToken(kind, id); Trim(raw) != [] && GuardDepth(raw) == 0
  {
    hide MatchMarker;
    var raw := RefToken(kind, id);
    assert raw[0] == RefOpen(kind)[0];
    NotBlank(raw);
    NoMarkerAt(raw);
    assert LeadCount(raw, 0) == 0;
  }

  lemma NotBlank(s: Str)
    requires s != [] && (s[0] == 0x40 || s[0] == 0x3C)
    ensures Trim(s) != []
  {
    hide Trim;
    TrimSpec(s);
    assert !IsSpace(s[0]);
  }

  lemma NoMarkerAt(s: Str)
    requires s != [] && (s[0] == 0x40 || s[0] == 0x3C)
    ensures MatchMarker(s, 0).None?
  {
  }

  lemma OneSegment(s: Segment, names: Names)
    requires SegmentFits(s)
    ensures AllSuit([s], names) == SegmentSuits(s, names) && AllChecks([s]) == BlockChecks(s)
  {
    hide SegmentFits, SegmentSuits, BlockChecks;
    assert [s][0] == s && [s][1..] == [] && AllChecks([]) == [];
    assert AllSuit([s], names) ==> SegmentSuits([s][0], names);
  }

  lemma LoneRefSuits(kind: RefKind, id: Str, names: Names)
    requires IsTokenId(id)
    ensures var segs := SegmentsOf(RefToken(kind, id));
      && AllSuit(segs, names) == DisplayAccepted(ResolveName(names, kind, id))
      && AllChecks(segs) == [Bump, Nest(0), Nest(0), Peek, Bump]
  {
    hide IsTokenId, IsProse, SegmentsOf, RefToken, SegmentSuits, BlockChecks, AllSuit, AllChecks, ResolveName;
    LoneRefLine(kind, id);
    OneSegment(Prose([RefToken(kind, id)]), names);
    LoneRefProse(kind, id, names);
  }

  lemma LoneRefProse(kind: RefKind, id: Str, names: Names)
    requires IsTokenId(id) && IsProse(RefToken(kind, id))
    ensures var s := Prose([RefToken(kind, id)]);
      && SegmentSuits(s, names) == DisplayAccepted(ResolveName(names, kind, id))
      && BlockChecks(s) == [Bump, Nest(0), Nest(0), Peek, Bump]
  {
    hide IsTokenId, IsProse, RefToken, Lex, Trim, GuardDepth, ResolveName, Checks, NamesFit;
    LoneRefLexed(kind, id);
    LoneRefStarts(kind, id);
    OneRef(kind, id, names);
  }

  lemma OneRef(kind: RefKind, id: Str, names: Names)
    ensures Checks([Ref(kind, id)], 0, false, 0) == [Peek, Bump]
    ensures NamesFit([Ref(kind, id)], names) == DisplayAccepted(ResolveName(names, kind, id))
  {
    hide ResolveName;
  }

  /** The other gap is real too: a lone mention whose label resolves to a name over 100 units
      parses, and the schema rejects it. */
  lemma LongLabelRejected(kind: RefKind, id: Str, names: Names, clock: nat)
    requires IsTokenId(id) && clock >= 3
    requires ResolveName(names, kind, id).Some? && |ResolveName(names, kind, id).value| > MAX_LABEL_LENGTH
    ensures var raw := RefToken(kind, id);
      Parse(raw, names, clock).Ok? && !SchemaRoot(Parse(raw, names, clock).value.ast)
  {
    hide IsTokenId, SegmentsOf, RefToken, AllSuit, ResolveName, AllChecks, SchemaRoot;
    var raw := RefToken(kind, id);
    LoneRefSuits(kind, id, names);
    ConsumeOk(Scan(1, clock), [Bump, Nest(0), Nest(0), Peek, Bump]);
    SchemaAcceptsIff(raw, names, clock);
  }

  /** Such a message: `@{aaaaaaaaaaaaaaaaaaaaaaaa}`, of a user whose name is 101 times an `a`. */
  lemma LongNameMentioned(clock: nat)
    requires clock >= 3
    ensures var id, name: Str := seq(24, _ => 0x61), seq(101, _ => 0x61);
      var raw, names := RefToken(UserRef, id), Names(_ => Some(name), _ => None, _ => None);
      Parse(raw, names, clock).Ok? && !SchemaRoot(Parse(raw, names, clock).value.ast)
  {
    hide ResolveName, RefToken, Parse, SchemaRoot;
    var id, name: Str := seq(24, _ => 0x61), seq(101, _ => 0x61);
    var names := Names(_ => Some(name), _ => None, _ => None);
    NoBlanksToTrim(names, id, name);
    LongLabelRejected(UserRef, id, names, clock);
  }

  lemma NoBlanksToTrim(names: Names, id: Str, name: Str)
    requires name != [] && names.user(id) == Some(name) && forall i :: 0 <= i < |name| ==> !IsSpace(name[i])
    ensures ResolveName(names, UserRef, id) == Some(name)
  {
    var r := ResolveName(names, UserRef, id);
    assert !IsSpace(name[0]) && !IsSpace(name[|name| - 1]);
  }
}
