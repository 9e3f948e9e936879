/** What the blocks of a message are, said by its lines: one block for every segment that is not
    blank, in order. */
module BlockMeaning {
  import opened Wrappers
  import opened Chars
  import opened RichText
  import opened Inline
  import opened Emit
  import opened Lines
  import opened Document
  import opened Projection
  import opened Patterns
  import opened Meaning

  /** The nodes show what the tokens of the text mean. */
  ghost predicate RunShows(ns: seq<Node>, text: Str, names: Names) {
    GlyphsOf(ns) == Meant(Lex(text, 0), [], names)
  }

  ghost predicate ItemShows(item: ListItem, ordered: bool, line: Str, names: Names) {
    exists text :: ItemText(ordered, line, text) && RunShows(item.nodes, text, names)
  }

  /** The texts that the lines of a quote leave. */
  ghost predicate QuoteLines(lines: seq<Str>, texts: seq<Str>) {
    |texts| == |lines| && forall i :: 0 <= i < |lines| ==> QuoteText(lines[i], texts[i])
  }

  /** The block shows the lines of the segment. */
  ghost predicate Shows(n: Node, s: Segment, names: Names) {
    match s
    case Fence(open, body, _) =>
      && n.CodeBlock? && n.code == Join(body, NEWLINE)
      && exists lang :: FenceForm(open, lang) && n.lang == if lang == [] then None else Some(lang)
    case Head(line) =>
      n.Heading? && exists text :: HeadingText(line, n.level, text) && RunShows(n.nodes, text, names)
    case Quote(lines) =>
      n.Blockquote? && exists texts :: QuoteLines(lines, texts) && RunShows(n.nodes, Join(texts, NEWLINE), names)
    case Items(ordered, lines) =>
      && n.ListBlock? && n.ordered == ordered && n.indent == 0 && |n.items| == |lines|
      && forall i :: 0 <= i < |lines| ==> ItemShows(n.items[i], ordered, lines[i], names)
    case Prose(lines) => n.Paragraph? && RunShows(n.nodes, Join(lines, NEWLINE), names)
  }

  /** Nothing but blank lines. */
  predicate IsBlankProse(s: Segment) { s.Prose? && AllOf(Join(s.lines, NEWLINE), IsSpace) }

  function NotBlank(segs: seq<Segment>): seq<Segment> {
    if segs == [] then [] else (if IsBlankProse(segs[0]) then [] else [segs[0]]) + NotBlank(segs[1..])
  }

  lemma InlineShows(text: Str, names: Names)
    ensures RunShows(InlineNodes(text, names), text, names)
  {
    hide GlyphsOf, Meant, Lex, Emit.Emit, Letters;
    EmitMeans(Lex(text, 0), [], [], names);
    NoLetters([]);
    NoneAdded(Meant(Lex(text, 0), [], names));
  }

  lemma {:induction false} QuotesShow(lines: seq<Str>)
    requires forall i :: 0 <= i < |lines| ==> IsQuote(lines[i])
    ensures QuoteLines(lines, QuoteTexts(lines))
    decreases |lines|
  {
    hide QuoteOf, QuoteText;
    if lines != [] {
      assert IsQuote(lines[0]);
      QuoteIff(lines[0], QuoteOf(lines[0]).value);
      QuotesShow(lines[1..]);
      assert forall i :: 0 < i < |lines| ==> lines[i] == lines[1..][i - 1];
    }
  }

  lemma {:induction false} ItemsShow(ordered: bool, lines: seq<Str>, names: Names)
    requires forall i :: 0 <= i < |lines| ==> IsItem(ordered, lines[i])
    ensures var items := ItemNodes(ordered, lines, names);
      |items| == |lines| && forall i :: 0 <= i < |lines| ==> ItemShows(items[i], ordered, lines[i], names)
    decreases |lines|
  {
    hide ItemOf, ItemText, RunShows, InlineNodes;
    if lines != [] {
      assert IsItem(ordered, lines[0]);
      var text := ItemOf(ordered, lines[0]).value;
      ItemIff(ordered, lines[0], text);
      InlineShows(text, names);
      ItemsShow(ordered, lines[1..], names);
      assert ItemShows(ItemNodes(ordered, lines, names)[0], ordered, lines[0], names);
      assert forall i :: 0 < i < |lines| ==> lines[i] == lines[1..][i - 1];
    }
  }

  lemma BlockShows(s: Segment, names: Names)
    requires SegmentFits(s)
    ensures IsBlankProse(s) ==> BlockOf(s, names) == []
    ensures !IsBlankProse(s) ==> |BlockOf(s, names)| == 1 && Shows(BlockOf(s, names)[0], s, names)
  {
    hide FenceOf, HeadingOf, QuoteOf, ItemOf, RunShows, InlineNodes, FenceForm, HeadingText, QuoteText, ItemText;
    match s {
      case Fence(open, _, _) => FenceIff(open, FenceOf(open).value);
      case Head(line) =>
        var h := HeadingOf(line).value;
        HeadingIff(line, h.level, h.text);
        InlineShows(h.text, names);
      case Quote(lines) =>
        QuotesShow(lines);
        InlineShows(Join(QuoteTexts(lines), NEWLINE), names);
      case Items(ordered, lines) => ItemsShow(ordered, lines, names);
      case Prose(lines) =>
        TrimSpec(Join(lines, NEWLINE));
        InlineShows(Join(lines, NEWLINE), names);
    }
  }

  lemma {:induction false} BlocksShow(segs: seq<Segment>, names: Names)
    requires AllFit(segs)
    ensures var blocks, kept := Blocks(segs, names), NotBlank(segs);
      |blocks| == |kept| && forall i :: 0 <= i < |kept| ==> Shows(blocks[i], kept[i], names)
    decreases |segs|
  {
    hide Shows, BlockOf, IsBlankProse, SegmentFits;
    if segs != [] {
      BlockShows(segs[0], names);
      BlocksShow(segs[1..], names);
    }
  }

  /** The tree of a message has one block for every segment of its lines that is not blank, in the
      order of the lines, and each shows its own lines. */
  lemma TreeShows(raw: Str, names: Names)
    ensures var blocks, kept := Tree(raw, names).nodes, NotBlank(SegmentsOf(raw));
      |blocks| == |kept| && forall i :: 0 <= i < |kept| ==> Shows(blocks[i], kept[i], names)
  {
    hide Shows;
    BlocksShow(SegmentsOf(raw), names);
  }

  // ---- the projection by the lines --------------------------------------------------------------

  /** What the tokens of a text say. */
  ghost function Said(text: Str, names: Names): Str { TextOfAll(Meant(Lex(text, 0), [], names)) }

  ghost predicate ItemsSay(texts: seq<Str>, ordered: bool, lines: seq<Str>, names: Names) {
    && |texts| == |lines|
    && forall i :: 0 <= i < |lines| ==>
         exists text :: ItemText(ordered, lines[i], text) && texts[i] == Said(text, names)
  }

  /** What the projection has of a segment. */
  ghost predicate SegmentSays(t: Str, s: Segment, names: Names) {
    match s
    case Fence(_, body, _) => t == Join(body, NEWLINE)
    case Head(line) => exists level, text :: HeadingText(line, level, text) && t == Said(text, names)
    case Quote(lines) => exists texts :: QuoteLines(lines, texts) && t == Said(Join(texts, NEWLINE), names)
    case Items(ordered, lines) => exists texts :: ItemsSay(texts, ordered, lines, names) && t == Join(texts, SPACE)
    case Prose(lines) => t == Said(Join(lines, NEWLINE), names)
  }

  lemma RunSays(ns: seq<Node>, text: Str, names: Names)
    requires RunShows(ns, text, names)
    ensures PlainOf(ns) == Said(text, names)
  {
    PlainShows(ns);
  }

  lemma {:induction false} ItemTexts(items: seq<ListItem>, ordered: bool, lines: seq<Str>, names: Names)
    requires |items| == |lines| && forall i :: 0 <= i < |lines| ==> ItemShows(items[i], ordered, lines[i], names)
    ensures ItemsSay(ItemPlains(items), ordered, lines, names)
    decreases |items|
  {
    hide Said, ItemText, RunShows;
    if items != [] {
      assert ItemShows(items[0], ordered, lines[0], names);
      var text :| ItemText(ordered, lines[0], text) && RunShows(items[0].nodes, text, names);
      RunSays(items[0].nodes, text, names);
      forall i | 0 <= i < |lines[1..]| ensures ItemShows(items[1..][i], ordered, lines[1..][i], names) {
        assert ItemShows(items[i + 1], ordered, lines[i + 1], names);
      }
      ItemTexts(items[1..], ordered, lines[1..], names);
      assert forall i :: 0 < i < |lines| ==> lines[i] == lines[1..][i - 1];
    }
  }

  /** What a block shows it also says. */
  lemma BlockSays(n: Node, s: Segment, names: Names)
    requires Shows(n, s, names)
    ensures SegmentSays(AstToPlain(n), s, names)
  {
    hide Said, RunShows, HeadingText, QuoteText, ItemText, FenceForm, ItemShows;
    match s {
      case Fence(_, _, _) =>
      case Head(line) =>
        var text :| HeadingText(line, n.level, text) && RunShows(n.nodes, text, names);
        RunSays(n.nodes, text, names);
      case Quote(lines) =>
        var texts :| QuoteLines(lines, texts) && RunShows(n.nodes, Join(texts, NEWLINE), names);
        RunSays(n.nodes, Join(texts, NEWLINE), names);
      case Items(ordered, lines) => ItemTexts(n.items, ordered, lines, names);
      case Prose(lines) => RunSays(n.nodes, Join(lines, NEWLINE), names);
    }
  }

  function Texts(ns: seq<Node>): seq<Str> {
    if ns == [] then [] else [AstToPlain(ns[0])] + Texts(ns[1..])
  }

  function Together(texts: seq<Str>): Str {
    if texts == [] then [] else texts[0] + Together(texts[1..])
  }

  lemma {:induction false} TextsTogether(ns: seq<Node>)
    ensures PlainOf(ns) == Together(Texts(ns)) && |Texts(ns)| == |ns|
    ensures forall i :: 0 <= i < |ns| ==> Texts(ns)[i] == AstToPlain(ns[i])
    decreases |ns|
  {
    hide AstToPlain;
    if ns != [] {
      TextsTogether(ns[1..]);
    }
  }

  /** The text of a tree, before its blanks are collapsed, is what its segments say, in order: the
      lines of a fence, and of the others what the tokens of their lines say. */
  lemma TreeSays(raw: Str, names: Names)
    ensures var texts, kept := Texts(Tree(raw, names).nodes), NotBlank(SegmentsOf(raw));
      && AstToPlain(Tree(raw, names)) == Together(texts) && |texts| == |kept|
      && forall i :: 0 <= i < |kept| ==> SegmentSays(texts[i], kept[i], names)
  {
    hide Shows, SegmentSays;
    var blocks, kept := Tree(raw, names).nodes, NotBlank(SegmentsOf(raw));
    TreeShows(raw, names);
    TextsTogether(blocks);
    forall i | 0 <= i < |kept| ensures SegmentSays(Texts(blocks)[i], kept[i], names) {
      BlockSays(blocks[i], kept[i], names);
    }
  }
}
