/** From raw text to the tree: what a whole parse produces, what it checks, and the main
    theorems about it. */
module Document {
  import opened Wrappers
  import opened Chars
  import opened RichText
  import opened Tokens
  import opened Budget
  import opened Inline
  import opened Emit
  import opened Lines

  // ---- the depth guard -----------------------------------------------------------------

  /** The end of the run of marker tokens at the start of `text`. */
  function LeadEnd(text: Str, i: nat): (end: nat)
    requires i <= |text|
    ensures i <= end <= |text|
    decreases |text| - i
  {
    if i == |text| || MatchMarker(text, i).None? then i
    else LeadEnd(text, i + |Open(MatchMarker(text, i).value)|)
  }

  function LeadCount(text: Str, i: nat): (n: nat)
    requires i <= |text|
    ensures n <= LeadEnd(text, i) - i
    decreases |text| - i
  {
    if i == |text| || MatchMarker(text, i).None? then 0
    else 1 + LeadCount(text, i + |Open(MatchMarker(text, i).value)|)
  }

  /** The first marker in order, from index `k` on, that ends at `j` without reaching before `i`. */
  function MarkerEndingAt(text: Str, i: nat, j: nat, k: nat): (r: Option<Marker>)
    requires i <= j <= |text| && k <= |INLINE_MARKERS|
    ensures r.Some? ==> i <= j - |Open(r.value)| && StartsWith(text, Open(r.value), j - |Open(r.value)|)
    decreases |INLINE_MARKERS| - k
  {
    if k == |INLINE_MARKERS| then None
    else
      var open := Open(INLINE_MARKERS[k]);
      if j - |open| >= i && StartsWith(text, open, j - |open|) then Some(INLINE_MARKERS[k])
      else MarkerEndingAt(text, i, j, k + 1)
  }

  function TrailCount(text: Str, i: nat, j: nat): (n: nat)
    requires i <= j <= |text|
    ensures n <= j - i
    decreases j
  {
    var m := MarkerEndingAt(text, i, j, 0);
    if m.None? then 0 else 1 + TrailCount(text, i, j - |Open(m.value)|)
  }

  function Min(a: nat, b: nat): nat { if a < b then a else b }

  /** The depth the guard measures: marker tokens that meet from both ends. A text shorter
      than two units for each level cannot reach it. */
  function GuardDepth(text: Str): (d: nat)
    ensures 2 * d <= |text|
  {
    var i := LeadEnd(text, 0);
    Min(LeadCount(text, 0), TrailCount(text, i, |text|))
  }

  // ---- inline runs -----------------------------------------------------------------------

  function RunChecks(text: Str, depth: nat): seq<Event> {
    [Nest(depth)] + Checks(Lex(text, 0), 0, false, depth)
  }

  function InlineChecks(text: Str): seq<Event> {
    [Nest(GuardDepth(text))] + RunChecks(text, 0)
  }

  function InlineNodes(text: Str, names: Names): seq<Node> {
    Emit.Emit(Lex(text, 0), [], [], names)
  }

  /** Inside a run no depth check can fail: only the guard can raise a depth error. */
  lemma RunNeverTooDeep(text: Str)
    ensures DepthsWithin(RunChecks(text, 0), 5)
  {
    LexChain(text, 0, {});
    ChainDepth(Lex(text, 0), {}, 0, false);
    DepthsAppend([Nest(0)], Checks(Lex(text, 0), 0, false, 0), 5);
  }

  lemma InlineMarks(text: Str, names: Names)
    ensures forall n :: n in InlineNodes(text, names) && n.TextRun? ==> |n.marks| <= 6
  {
    LexChain(text, 0, {});
    ChainMarks(Lex(text, 0), {}, [], [], names);
  }

  lemma InlineSound(text: Str, names: Names)
    ensures forall n :: n in InlineNodes(text, names) ==> Sound(n)
  {
    LexValid(text, 0);
    EmitSound(Lex(text, 0), [], [], names);
  }

  lemma InlinePaid(text: Str, names: Names)
    ensures Bumps(InlineChecks(text)) == |InlineNodes(text, names)|
  {
    ChecksPayForNodes(Lex(text, 0), 0, [], [], names, 0);
    BumpsAppend([Nest(0)], Checks(Lex(text, 0), 0, false, 0));
    BumpsAppend([Nest(GuardDepth(text))], RunChecks(text, 0));
  }

  lemma InlineDraws(text: Str, names: Names)
    ensures Draws(PlainOf(InlineNodes(text, names)), text)
  {
    EmitDraws(Lex(text, 0), [], [], names);
    LexSource(text, 0);
    assert [] + text[0..] == text;
  }

  // ---- blocks ------------------------------------------------------------------------------

  function QuoteTexts(lines: seq<Str>): seq<Str>
    requires forall i :: 0 <= i < |lines| ==> IsQuote(lines[i])
  {
    if lines == [] then []
    else
      assert IsQuote(lines[0]);
      [QuoteOf(lines[0]).value] + QuoteTexts(lines[1..])
  }

  function ItemNodes(ordered: bool, lines: seq<Str>, names: Names): seq<ListItem>
    requires forall i :: 0 <= i < |lines| ==> IsItem(ordered, lines[i])
  {
    if lines == [] then []
    else
      assert IsItem(ordered, lines[0]);
      [ListItem(InlineNodes(ItemOf(ordered, lines[0]).value, names))] + ItemNodes(ordered, lines[1..], names)
  }

  function ItemChecks(ordered: bool, lines: seq<Str>): seq<Event>
    requires forall i :: 0 <= i < |lines| ==> IsItem(ordered, lines[i])
  {
    if lines == [] then []
    else
      assert IsItem(ordered, lines[0]);
      [Bump] + InlineChecks(ItemOf(ordered, lines[0]).value) + ItemChecks(ordered, lines[1..])
  }

  /** The block of a segment; blank prose has none. */
  function BlockOf(s: Segment, names: Names): seq<Node>
    requires SegmentFits(s)
  {
    match s
    case Fence(open, body, _) =>
      var lang := FenceOf(open).value;
      [CodeBlock(Join(body, NEWLINE), if lang == [] then None else Some(lang))]
    case Head(line) =>
      var h := HeadingOf(line).value;
      [Heading(h.level, InlineNodes(h.text, names))]
    case Quote(lines) => [Blockquote(InlineNodes(Join(QuoteTexts(lines), NEWLINE), names))]
    case Items(ordered, lines) => [ListBlock(ordered, 0, ItemNodes(ordered, lines, names))]
    case Prose(lines) =>
      var joined := Join(lines, NEWLINE);
      if Trim(joined) == [] then [] else [Paragraph(InlineNodes(joined, names))]
  }

  /** The checks of one turn of the block loop. */
  function BlockChecks(s: Segment): seq<Event>
    requires SegmentFits(s)
  {
    [Bump] + match s
      case Fence(_, _, _) => []
      case Head(line) => InlineChecks(HeadingOf(line).value.text)
      case Quote(lines) => InlineChecks(Join(QuoteTexts(lines), NEWLINE))
      case Items(ordered, lines) => ItemChecks(ordered, lines)
      case Prose(lines) =>
        var joined := Join(lines, NEWLINE);
        if Trim(joined) == [] then [] else InlineChecks(joined)
  }

  predicate AllFit(segs: seq<Segment>) {
    forall i :: 0 <= i < |segs| ==> SegmentFits(segs[i])
  }

  function Blocks(segs: seq<Segment>, names: Names): seq<Node>
    requires AllFit(segs)
  {
    if segs == [] then [] else BlockOf(segs[0], names) + Blocks(segs[1..], names)
  }

  function AllChecks(segs: seq<Segment>): seq<Event>
    requires AllFit(segs)
  {
    if segs == [] then [] else BlockChecks(segs[0]) + AllChecks(segs[1..])
  }

  function SegmentsFrom(lines: seq<Str>, i: nat): (segs: seq<Segment>)
    requires i <= |lines|
    ensures AllFit(segs)
  {
    SegmentsPartition(lines, i);
    Segments(lines, i)
  }

  function SegmentsOf(raw: Str): (segs: seq<Segment>)
    ensures AllFit(segs)
  {
    SegmentsFrom(Split(raw), 0)
  }

  // ---- the whole parse -----------------------------------------------------------------------

  datatype Parsed = Parsed(ast: Node, plain: Str, nodeCount: nat)

  /** `parseMrkdwn` */
  function Parse(raw: Str, names: Names, clock: nat): Result<Parsed, ParseError> {
    match Consume(Scan(1, clock), AllChecks(SegmentsOf(raw)))
    case Err(e) => Err(e)
    case Ok(s) =>
      var ast := Root(Blocks(SegmentsOf(raw), names));
      Ok(Parsed(ast, Collapse(AstToPlain(ast)), s.nodeCount))
  }

  // ---- accounting ---------------------------------------------------------------------------

  /** What the parser counts beyond the nodes of the tree: list items, which are wrappers,
      and runs of blank lines, which leave no block. */
  function Slack(s: Segment): nat
    requires SegmentFits(s)
  {
    match s
    case Items(_, lines) => |lines|
    case Prose(lines) => if Trim(Join(lines, NEWLINE)) == [] then 1 else 0
    case _ => 0
  }

  function TotalSlack(segs: seq<Segment>): nat
    requires AllFit(segs)
  {
    if segs == [] then 0 else Slack(segs[0]) + TotalSlack(segs[1..])
  }

  lemma {:induction false} LeavesMeasure(ns: seq<Node>)
    requires forall n :: n in ns ==> Sound(n)
    ensures CountAll(ns) == |ns| && DepthAll(ns) <= 1
  {
    if ns != [] {
      assert Sound(ns[0]);
      LeavesMeasure(ns[1..]);
    }
  }

  lemma InlineMeasure(text: Str, names: Names)
    ensures CountAll(InlineNodes(text, names)) == Bumps(InlineChecks(text))
    ensures DepthAll(InlineNodes(text, names)) <= 1
  {
    InlineSound(text, names);
    InlinePaid(text, names);
    LeavesMeasure(InlineNodes(text, names));
  }

  lemma {:induction false} ItemsMeasure(ordered: bool, lines: seq<Str>, names: Names)
    requires forall i :: 0 <= i < |lines| ==> IsItem(ordered, lines[i])
    ensures CountItems(ItemNodes(ordered, lines, names)) + |lines| == Bumps(ItemChecks(ordered, lines))
    ensures DepthItems(ItemNodes(ordered, lines, names)) <= 1
  {
    hide ItemOf, InlineNodes, InlineChecks;
    if lines != [] {
      var text := ItemOf(ordered, lines[0]).value;
      InlineMeasure(text, names);
      ItemsMeasure(ordered, lines[1..], names);
      BumpsAppend([Bump] + InlineChecks(text), ItemChecks(ordered, lines[1..]));
      BumpsAppend([Bump], InlineChecks(text));
      assert ItemNodes(ordered, lines, names)[1..] == ItemNodes(ordered, lines[1..], names);
    }
  }

  lemma BlockMeasure(s: Segment, names: Names)
    requires SegmentFits(s)
    ensures CountAll(BlockOf(s, names)) + Slack(s) == Bumps(BlockChecks(s))
    ensures DepthAll(BlockOf(s, names)) <= 2
  {
    hide HeadingOf, QuoteOf, ItemOf, FenceOf, InlineNodes, InlineChecks;
    if BlockOf(s, names) != [] {
      MeasureOne(BlockOf(s, names)[0]);
    }
    match s {
      case Fence(_, _, _) =>
      case Head(line) =>
        var h := HeadingOf(line).value;
        InlineMeasure(h.text, names);
        BumpsAppend([Bump], InlineChecks(h.text));
      case Quote(lines) =>
        var joined := Join(QuoteTexts(lines), NEWLINE);
        InlineMeasure(joined, names);
        BumpsAppend([Bump], InlineChecks(joined));
      case Items(ordered, lines) =>
        ItemsMeasure(ordered, lines, names);
        BumpsAppend([Bump], ItemChecks(ordered, lines));
      case Prose(lines) =>
        var joined := Join(lines, NEWLINE);
        InlineMeasure(joined, names);
        BumpsAppend([Bump], InlineChecks(joined));
    }
  }

  lemma {:induction false} BlocksMeasure(segs: seq<Segment>, names: Names)
    requires AllFit(segs)
    ensures CountAll(Blocks(segs, names)) + TotalSlack(segs) == Bumps(AllChecks(segs))
    ensures DepthAll(Blocks(segs, names)) <= 2
  {
    if segs != [] {
      BlockMeasure(segs[0], names);
      BlocksMeasure(segs[1..], names);
      MeasureAppend(BlockOf(segs[0], names), Blocks(segs[1..], names));
      BumpsAppend(BlockChecks(segs[0]), AllChecks(segs[1..]));
    }
  }

  /** The parser's counter and the tree's own measurement agree up to list items and skipped
      blank runs; the tree is within the node limit and at most three deep. */
  lemma ParseMeasures(raw: Str, names: Names, clock: nat)
    requires Parse(raw, names, clock).Ok?
    ensures var p := Parse(raw, names, clock).value;
      && Count(p.ast) + TotalSlack(SegmentsOf(raw)) == p.nodeCount <= MAX_NODES
      && Depth(p.ast) <= 3
  {
    BlocksMeasure(SegmentsOf(raw), names);
    ConsumeOk(Scan(1, clock), AllChecks(SegmentsOf(raw)));
  }
}
