/** The block loop, and the whole parse. */
module BlockParser {
  import opened Wrappers
  import opened Chars
  import opened RichText
  import opened Tokens
  import opened Budget
  import opened Inline
  import opened Emit
  import opened Lines
  import opened Document
  import opened Parser

  // ---- the depth guard -----------------------------------------------------------------------

  /** The last marker in order that ends at `j`, looked for from the front of the list. */
  method FindMarkerEndingAt(text: Str, i: nat, j: nat) returns (r: Option<Marker>)
    requires i <= j <= |text|
    ensures r == MarkerEndingAt(text, i, j, 0)
  {
    for k := 0 to |INLINE_MARKERS|
      invariant MarkerEndingAt(text, i, j, 0) == MarkerEndingAt(text, i, j, k)
    {
      var open := Open(INLINE_MARKERS[k]);
      if j - |open| >= i && StartsWith(text, open, j - |open|) {
        return Some(INLINE_MARKERS[k]);
      }
    }
    return None;
  }

  /** Counts the marker tokens at the start of the text. */
  method CountLead(text: Str) returns (lead: nat, i: nat)
    ensures lead == LeadCount(text, 0) && i == LeadEnd(text, 0)
  {
    hide MatchMarker, StartsWith, Open;
    lead, i := 0, 0;
    while i < |text|
      invariant i <= |text|
      invariant LeadEnd(text, 0) == LeadEnd(text, i)
      invariant LeadCount(text, 0) == lead + LeadCount(text, i)
    {
      var m := MatchMarker(text, i);
      if m.None? {
        break;
      }
      lead := lead + 1;
      i := i + |Open(m.value)|;
    }
  }

  /** Counts the marker tokens at the end of the text, down to `i`. */
  method CountTrail(text: Str, i: nat) returns (trail: nat)
    requires i <= |text|
    ensures trail == TrailCount(text, i, |text|)
  {
    hide StartsWith, Open, MarkerEndingAt;
    trail := 0;
    var j := |text|;
    while j > i
      invariant i <= j <= |text|
      invariant TrailCount(text, i, |text|) == trail + TrailCount(text, i, j)
      decreases j
    {
      var matched := FindMarkerEndingAt(text, i, j);
      if matched.None? {
        break;
      }
      trail := trail + 1;
      j := j - |Open(matched.value)|;
    }
    TrailStops(text, i, j);
  }

  method EnforceInlineMarkerDepth(text: Str) returns (r: Result<(), ParseError>)
    ensures r == if GuardDepth(text) > MAX_DEPTH then Err(ParseDepthExceeded) else Ok(())
  {
    var lead, i := CountLead(text);
    var trail := CountTrail(text, i);
    if Min(lead, trail) > MAX_DEPTH {
      return Err(ParseDepthExceeded);
    }
    return Ok(());
  }

  lemma TrailStops(text: Str, i: nat, j: nat)
    requires i <= j <= |text| && (i == j || MarkerEndingAt(text, i, j, 0).None?)
    ensures TrailCount(text, i, j) == 0
  {
  }

  // ---- blocks ----------------------------------------------------------------------------------

  method ParseInline(text: Str, state: ScanState) returns (r: Result<seq<Node>, ParseError>)
    modifies state
    ensures Agrees(old(state.State()), InlineChecks(text), r, InlineNodes(text, state.names), state.State())
  {
    hide RunChecks, Lex, Emit.Emit, GuardDepth;
    ConsumeAppend(state.State(), [Nest(GuardDepth(text))], RunChecks(text, 0));
    var _ :- EnforceInlineMarkerDepth(text);
    r := ParseInlineRun(text, [], state);
  }

  lemma SnocSlice<T>(s: seq<T>, from: nat, i: nat)
    requires from <= i < |s|
    ensures s[from..i + 1] == s[from..i] + [s[i]]
  {
  }

  /** Gathers the lines up to a closing fence. */
  method ReadFence(lines: seq<Str>, start: nat) returns (body: seq<Str>, i: nat)
    requires start < |lines| && FenceOf(lines[start]).Some?
    ensures i == SegmentEnd(lines, start) && start + 1 + |body| <= i <= |lines|
    ensures SegmentAt(lines, start) == Fence(lines[start], body, lines[start + 1 + |body|..i])
  {
    hide FenceOf, HeadingOf, IsFenceClose;
    i := start + 1;
    body := [];
    while i < |lines| && !IsFenceClose(lines[i])
      invariant start < i <= |lines|
      invariant body == lines[start + 1..i]
      invariant Run(lines, start + 1, IsCode) == Run(lines, i, IsCode)
    {
      SnocSlice(lines, start + 1, i);
      body := body + [lines[i]];
      i := i + 1;
    }
    if i < |lines| {
      i := i + 1; // consume the closing fence
    }
  }

  /** Gathers the texts of a run of quoted lines. */
  method ReadQuote(lines: seq<Str>, start: nat) returns (inner: seq<Str>, i: nat)
    requires start < |lines| && KindOf(lines[start]) == QuoteKind
    ensures i == SegmentEnd(lines, start)
    ensures SegmentAt(lines, start) == Quote(lines[start..i]) && SegmentFits(Quote(lines[start..i]))
    ensures inner == QuoteTexts(lines[start..i])
  {
    hide KindOf, QuoteOf;
    SegmentSpec(lines, start);
    i := start;
    inner := [];
    while i < |lines| && QuoteOf(lines[i]).Some?
      invariant start <= i <= |lines|
      invariant Run(lines, start, IsQuote) == Run(lines, i, IsQuote)
      invariant forall k :: 0 <= k < i - start ==> IsQuote(lines[start..i][k])
      invariant inner == QuoteTexts(lines[start..i])
    {
      SnocSlice(lines, start, i);
      QuoteTextsSnoc(lines[start..i], lines[i]);
      inner := inner + [QuoteOf(lines[i]).value];
      i := i + 1;
    }
  }

  lemma {:induction false} QuoteTextsSnoc(lines: seq<Str>, line: Str)
    requires IsQuote(line) && forall i :: 0 <= i < |lines| ==> IsQuote(lines[i])
    ensures forall i :: 0 <= i < |lines + [line]| ==> IsQuote((lines + [line])[i])
    ensures QuoteTexts(lines + [line]) == QuoteTexts(lines) + [QuoteOf(line).value]
  {
    hide IsQuote, QuoteOf;
    if lines != [] {
      assert IsQuote(lines[0]);
      QuoteTextsSnoc(lines[1..], line);
      TailOfAppend(lines, [line]);
    } else {
      NoneAdded([line]);
      assert [line][1..] == [];
    }
  }

  lemma ItemHasText(ordered: bool, line: Str)
    requires IsItem(ordered, line)
    ensures ItemOf(ordered, line).Some?
  {
  }

  /** What remains of a run of items after its first line. */
  lemma ItemTurn(ordered: bool, rest: seq<Str>, names: Names)
    requires rest != [] && forall i :: 0 <= i < |rest| ==> IsItem(ordered, rest[i])
    ensures ItemOf(ordered, rest[0]).Some?
    ensures var text := ItemOf(ordered, rest[0]).value;
      && ItemChecks(ordered, rest) == [Bump] + InlineChecks(text) + ItemChecks(ordered, rest[1..])
      && ItemNodes(ordered, rest, names) == [ListItem(InlineNodes(text, names))] + ItemNodes(ordered, rest[1..], names)
  {
    hide InlineChecks, InlineNodes;
    ItemHasText(ordered, rest[0]);
  }

  /** One item: a bump, then its text. */
  method ReadItem(itemText: Str, state: ScanState) returns (r: Result<ListItem, ParseError>)
    modifies state
    ensures Agrees(old(state.State()), [Bump] + InlineChecks(itemText), r,
      ListItem(InlineNodes(itemText, state.names)), state.State())
  {
    hide InlineChecks, InlineNodes;
    ConsumeAppend(state.State(), [Bump], InlineChecks(itemText));
    var _ :- state.BumpNode();
    var nodes :- ParseInline(itemText, state);
    return Ok(ListItem(nodes));
  }

  predicate AllItems(ordered: bool, lines: seq<Str>) {
    forall i :: 0 <= i < |lines| ==> IsItem(ordered, lines[i])
  }

  /** Parses a run of list items; `end` is where the run stops. */
  method ReadItems(lines: seq<Str>, start: nat, ordered: bool, state: ScanState, ghost end: nat)
    returns (r: Result<seq<ListItem>, ParseError>, i: nat)
    requires start <= end <= |lines|
    requires AllItems(ordered, lines[start..end])
    requires end < |lines| ==> !IsItem(ordered, lines[end])
    modifies state
    ensures Agrees(old(state.State()), ItemChecks(ordered, lines[start..end]), r,
      ItemNodes(ordered, lines[start..end], state.names), state.State())
    ensures r.Ok? ==> i == end
  {
    hide ItemOf, InlineChecks, InlineNodes, IsItem, Consume, ItemChecks, ItemNodes;
    ghost var run := lines[start..end];
    ghost var before := state.State();
    i := start;
    var items: seq<ListItem> := [];
    WholeSlice(run);
    NoneAdded(ItemNodes(ordered, run, state.names));
    while i < |lines|
      invariant start <= i <= end
      invariant AllItems(ordered, run[i - start..])
      invariant Consume(before, ItemChecks(ordered, run)) ==
        Consume(state.State(), ItemChecks(ordered, run[i - start..]))
      invariant ItemNodes(ordered, run, state.names) == items + ItemNodes(ordered, run[i - start..], state.names)
    {
      ghost var rest := run[i - start..];
      assert i < end ==> rest[0] == lines[i];
      if !IsItem(ordered, lines[i]) {
        break;
      }
      assert rest[0] == lines[i] && rest[1..] == run[i + 1 - start..];
      ItemTurn(ordered, rest, state.names);
      var itemText := ItemOf(ordered, lines[i]).value;
      ConsumeAppend(state.State(), [Bump] + InlineChecks(itemText), ItemChecks(ordered, rest[1..]));
      Assoc(items, [ListItem(InlineNodes(itemText, state.names))], ItemNodes(ordered, rest[1..], state.names));
      var item := ReadItem(itemText, state);
      if item.Err? {
        return Err(item.error), i;
      }
      items := items + [item.value];
      i := i + 1;
    }
    NoItems(ordered, run[i - start..], state.names, state.State());
    NoneAdded(items);
    r := Ok(items);
  }

  lemma NoItems(ordered: bool, rest: seq<Str>, names: Names, s: Scan)
    requires rest == []
    ensures ItemNodes(ordered, rest, names) == [] && Consume(s, ItemChecks(ordered, rest)) == Ok(s)
  {
  }

  /** The block that starts at a line, and the line after it. */
  datatype BlockRead = BlockRead(nodes: seq<Node>, next: nat)

  /** One turn of the block loop, after the node counter has been bumped. */
  ghost predicate ReadsBlock(lines: seq<Str>, i: nat, names: Names, before: Scan, r: Result<BlockRead, ParseError>,
        after: Scan)
    requires i < |lines|
  {
    && SegmentFits(SegmentAt(lines, i))
    && Agrees(before, BodyChecks(SegmentAt(lines, i)), r,
         BlockRead(BlockOf(SegmentAt(lines, i), names), SegmentEnd(lines, i)), after)
  }

  /** The checks of a block after its bump. */
  function BodyChecks(s: Segment): seq<Event>
    requires SegmentFits(s)
  {
    match s
    case Fence(_, _, _) => []
    case Head(line) => InlineChecks(HeadingOf(line).value.text)
    case Quote(lines) => InlineChecks(Join(QuoteTexts(lines), NEWLINE))
    case Items(ordered, lines) => ItemChecks(ordered, lines)
    case Prose(lines) =>
      var joined := Join(lines, NEWLINE);
      if Trim(joined) == [] then [] else InlineChecks(joined)
  }

  lemma BlockChecksSplit(s: Segment)
    requires SegmentFits(s)
    ensures BlockChecks(s) == [Bump] + BodyChecks(s)
  {
    hide InlineChecks, FenceOf, HeadingOf, QuoteOf, ItemOf;
  }

  method ReadHeading(lines: seq<Str>, i: nat, state: ScanState) returns (r: Result<BlockRead, ParseError>)
    requires i < |lines| && KindOf(lines[i]) == HeadKind
    modifies state
    ensures ReadsBlock(lines, i, state.names, old(state.State()), r, state.State())
  {
    hide KindOf, HeadingOf, InlineChecks, InlineNodes, Consume;
    SegmentSpec(lines, i);
    var h := HeadingOf(lines[i]).value;
    var nodes :- ParseInline(h.text, state);
    return Ok(BlockRead([Heading(h.level, nodes)], i + 1));
  }

  method ReadBlockquote(lines: seq<Str>, i: nat, state: ScanState) returns (r: Result<BlockRead, ParseError>)
    requires i < |lines| && KindOf(lines[i]) == QuoteKind
    modifies state
    ensures ReadsBlock(lines, i, state.names, old(state.State()), r, state.State())
  {
    hide KindOf, QuoteOf, InlineChecks, InlineNodes, Consume;
    var inner, next := ReadQuote(lines, i);
    var nodes :- ParseInline(Join(inner, NEWLINE), state);
    return Ok(BlockRead([Blockquote(nodes)], next));
  }

  method ReadList(lines: seq<Str>, i: nat, ordered: bool, state: ScanState) returns (r: Result<BlockRead, ParseError>)
    requires i < |lines| && KindOf(lines[i]) == ItemKind(ordered)
    modifies state
    ensures ReadsBlock(lines, i, state.names, old(state.State()), r, state.State())
  {
    hide KindOf, ItemOf, InlineChecks, InlineNodes, Consume;
    SegmentSpec(lines, i);
    var items, next := ReadItems(lines, i, ordered, state, SegmentEnd(lines, i));
    if items.Err? {
      return Err(items.error);
    }
    return Ok(BlockRead([ListBlock(ordered, 0, items.value)], next));
  }

  /** Gathers a run of lines that start no block. */
  method ReadProse(lines: seq<Str>, start: nat) returns (para: seq<Str>, i: nat)
    requires start < |lines| && KindOf(lines[start]) == ProseKind
    ensures SegmentAt(lines, start) == Prose(para) && SegmentEnd(lines, start) == i
  {
    hide KindOf, IsProse;
    para := [];
    i := start;
    while i < |lines| && IsProse(lines[i])
      invariant start <= i <= |lines|
      invariant Run(lines, start, IsProse) == Run(lines, i, IsProse)
      invariant para == lines[start..i]
    {
      SnocSlice(lines, start, i);
      para := para + [lines[i]];
      i := i + 1;
    }
  }

  method ReadParagraph(lines: seq<Str>, start: nat, state: ScanState) returns (r: Result<BlockRead, ParseError>)
    requires start < |lines| && KindOf(lines[start]) == ProseKind
    modifies state
    ensures ReadsBlock(lines, start, state.names, old(state.State()), r, state.State())
  {
    hide KindOf, InlineChecks, InlineNodes, Trim, SegmentAt, SegmentEnd;
    SegmentSpec(lines, start);
    var para, i := ReadProse(lines, start);
    var joined := Join(para, NEWLINE);
    // a run of blank lines leaves no node
    if Trim(joined) == [] {
      return Ok(BlockRead([], i));
    }
    var nodes :- ParseInline(joined, state);
    return Ok(BlockRead([Paragraph(nodes)], i));
  }

  method ReadCode(lines: seq<Str>, i: nat, state: ScanState) returns (r: Result<BlockRead, ParseError>)
    requires i < |lines| && KindOf(lines[i]) == FenceKind
    ensures ReadsBlock(lines, i, state.names, state.State(), r, state.State())
  {
    hide FenceOf;
    SegmentSpec(lines, i);
    KindFits(lines[i]);
    var body, next := ReadFence(lines, i);
    var lang := FenceOf(lines[i]).value;
    return Ok(BlockRead([CodeBlock(Join(body, NEWLINE), if lang == [] then None else Some(lang))], next));
  }

  method ReadBlock(lines: seq<Str>, i: nat, state: ScanState) returns (r: Result<BlockRead, ParseError>)
    requires i < |lines|
    modifies state
    ensures ReadsBlock(lines, i, state.names, old(state.State()), r, state.State())
  {
    hide KindOf, ReadsBlock;
    match KindOf(lines[i]) {
      case FenceKind => r := ReadCode(lines, i, state);
      case HeadKind => r := ReadHeading(lines, i, state);
      case QuoteKind => r := ReadBlockquote(lines, i, state);
      case ItemKind(ordered) => r := ReadList(lines, i, ordered, state);
      case ProseKind => r := ReadParagraph(lines, i, state);
    }
  }

  /** What remains of the document after its first block. */
  lemma BlockTurn(lines: seq<Str>, i: nat, names: Names)
    requires i < |lines|
    ensures SegmentFits(SegmentAt(lines, i))
    ensures var s := SegmentAt(lines, i); var next := SegmentEnd(lines, i);
      && AllChecks(SegmentsFrom(lines, i)) == [Bump] + BodyChecks(s) + AllChecks(SegmentsFrom(lines, next))
      && Blocks(SegmentsFrom(lines, i), names) == BlockOf(s, names) + Blocks(SegmentsFrom(lines, next), names)
  {
    hide SegmentAt, SegmentEnd, SegmentFits, BlockOf, BlockChecks, BodyChecks;
    SegmentSpec(lines, i);
    BlockChecksSplit(SegmentAt(lines, i));
    assert SegmentsFrom(lines, i)[1..] == SegmentsFrom(lines, SegmentEnd(lines, i));
  }

  method ParseBlocks(raw: Str, state: ScanState) returns (r: Result<seq<Node>, ParseError>)
    modifies state
    ensures Agrees(old(state.State()), AllChecks(SegmentsOf(raw)), r, Blocks(SegmentsOf(raw), state.names),
      state.State())
  {
    hide SegmentAt, SegmentEnd, SegmentFits, BlockOf, BodyChecks, AllChecks, Blocks, SegmentsFrom;
    ghost var before := state.State();
    var lines := Split(raw);
    var out: seq<Node> := [];
    var i := 0;
    NoneAdded(Blocks(SegmentsOf(raw), state.names));
    while i < |lines|
      invariant i <= |lines|
      invariant Consume(before, AllChecks(SegmentsOf(raw))) == Consume(state.State(), AllChecks(SegmentsFrom(lines, i)))
      invariant Blocks(SegmentsOf(raw), state.names) == out + Blocks(SegmentsFrom(lines, i), state.names)
    {
      BlockTurn(lines, i, state.names);
      ghost var s := SegmentAt(lines, i);
      ghost var rest := SegmentsFrom(lines, SegmentEnd(lines, i));
      ConsumeThree(state.State(), [Bump], BodyChecks(s), AllChecks(rest));
      Assoc(out, BlockOf(s, state.names), Blocks(rest, state.names));
      var _ :- state.BumpNode();
      var block :- ReadBlock(lines, i, state);
      out := out + block.nodes;
      i := block.next;
    }
    NoBlocks(lines, state.names, state.State());
    NoneAdded(out);
    return Ok(out);
  }

  lemma NoBlocks(lines: seq<Str>, names: Names, s: Scan)
    ensures Blocks(SegmentsFrom(lines, |lines|), names) == []
    ensures Consume(s, AllChecks(SegmentsFrom(lines, |lines|))) == Ok(s)
  {
  }

  /** `parseMrkdwn`: what it returns, error for error, is what Document says. */
  method ParseMrkdwn(raw: Str, names: Names, clock: nat) returns (r: Result<Parsed, ParseError>)
    ensures r == Parse(raw, names, clock)
  {
    var state := new ScanState(clock, names);
    var nodes :- ParseBlocks(raw, state);
    var ast := Root(nodes);
    return Ok(Parsed(ast, Collapse(AstToPlain(ast)), state.nodeCount));
  }
}
