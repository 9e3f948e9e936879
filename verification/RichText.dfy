/** The rich_text tree: node types, link sanitising, tree measurement and the limits the
    root schema enforces. */
module RichText {
  import opened Wrappers
  import opened Chars

  const MAX_DEPTH := 10
  const MAX_NODES := 500
  const MAX_PLAIN_LENGTH := 4000
  const MAX_LANG_LENGTH := 32
  const MAX_LABEL_LENGTH := 100

  datatype TextMark = Bold | Italic | Underline | Strike | Monospace | Spoiler

  datatype RefKind = UserRef | ChannelRef | RoleRef

  datatype Node =
    | Root(nodes: seq<Node>)
    | Paragraph(nodes: seq<Node>)
    | Heading(level: nat, nodes: seq<Node>)
    | Subtext(nodes: seq<Node>)
    | Blockquote(nodes: seq<Node>)
    | ListBlock(ordered: bool, indent: int, items: seq<ListItem>)
    | CodeBlock(code: Str, lang: Option<Str>)
    | Divider
    | TextRun(text: Str, marks: seq<TextMark>)
    | Mention(kind: RefKind, id: Str, display: Option<Str>)
    | Emoji(name: Str, customId: Option<Str>)
    | Link(url: Str, caption: Option<Str>)

  /** A list item is a wrapper around its children, not a node. */
  datatype ListItem = ListItem(nodes: seq<Node>)

  predicate IsInline(n: Node) {
    n.TextRun? || n.Mention? || n.Emoji? || n.Link?
  }

  // ---- identifiers ----------------------------------------------------------

  predicate IsLowerHex(c: Unit) { IsDigit(c) || 0x61 <= c <= 0x66 }
  predicate IsHex(c: Unit) { IsLowerHex(c) || 0x41 <= c <= 0x46 }
  predicate IsCuidUnit(c: Unit) { IsLower(c) || IsDigit(c) }

  /** The 8-4-4-4-12 textual form of section 3 of RFC 4122 over the digits `hex`. */
  predicate UuidForm(s: Str, hex: Unit -> bool) {
    && |s| == 36
    && forall i :: 0 <= i < 36 ==>
      if i == 8 || i == 13 || i == 18 || i == 23 then s[i] == 0x2D else hex(s[i])
  }

  predicate IsCuid(s: Str) {
    |s| >= 20 && AllOf(s, IsCuidUnit)
  }

  /** The identifiers a mention token can carry. */
  predicate IsTokenId(s: Str) {
    UuidForm(s, IsLowerHex) || IsCuid(s)
  }

  /** The identifiers the schema accepts. */
  predicate IsMentionId(s: Str) {
    UuidForm(s, IsHex) || IsCuid(s)
  }

  // ---- link sanitising --------------------------------------------------------

  function Lower(c: Unit): Unit {
    if IsUpper(c) then c + 32 else c
  }

  predicate IsSchemeUnit(c: Unit) {
    IsLower(Lower(c)) || IsDigit(c) || c == 0x2B || c == 0x2E || c == 0x2D
  }

  /** `/^[a-z][a-z0-9+.-]*:/i` */
  predicate HasScheme(s: Str) {
    && s != [] && IsLower(Lower(s[0]))
    && var k := Run(s, 1, IsSchemeUnit);
       k < |s| && s[k] == 0x3A
  }

  const HTTP: Str := [0x68, 0x74, 0x74, 0x70]
  const HTTPS: Str := HTTP + [0x73]

  /** `/^https?:/i` */
  predicate HasHttpScheme(s: Str) {
    || (|s| >= 5 && (forall i :: 0 <= i < 4 ==> Lower(s[i]) == HTTP[i]) && s[4] == 0x3A)
    || (|s| >= 6 && (forall i :: 0 <= i < 5 ==> Lower(s[i]) == HTTPS[i]) && s[5] == 0x3A)
  }

  predicate IsSafeLinkUrl(url: Str) {
    var t := Trim(url);
    t != [] && (HasScheme(t) ==> HasHttpScheme(t))
  }

  // ---- plain projection -------------------------------------------------------

  function AstToPlain(n: Node): Str
    decreases n
  {
    match n
    case Root(ns) => PlainOf(ns)
    case Paragraph(ns) => PlainOf(ns)
    case Heading(_, ns) => PlainOf(ns)
    case Subtext(ns) => PlainOf(ns)
    case Blockquote(ns) => PlainOf(ns)
    case ListBlock(_, _, items) => Join(ItemPlains(items), SPACE)
    case CodeBlock(code, _) => code
    case Divider => []
    case TextRun(text, _) => text
    case Mention(_, _, _) => []
    case Emoji(name, _) => [0x3A] + name + [0x3A]
    case Link(url, caption) => if caption.Some? then caption.value else url
  }

  function PlainOf(ns: seq<Node>): Str
    decreases ns
  {
    if ns == [] then [] else AstToPlain(ns[0]) + PlainOf(ns[1..])
  }

  function ItemPlains(items: seq<ListItem>): seq<Str>
    decreases items
  {
    if items == [] then [] else [PlainOf(items[0].nodes)] + ItemPlains(items[1..])
  }

  lemma {:induction false} PlainAppend(a: seq<Node>, b: seq<Node>)
    ensures PlainOf(a + b) == PlainOf(a) + PlainOf(b)
  {
    hide AstToPlain;
    if a == [] {
      NoneAdded(b);
    } else {
      PlainAppend(a[1..], b);
      TailOfAppend(a, b);
      Assoc(AstToPlain(a[0]), PlainOf(a[1..]), PlainOf(b));
    }
  }

  // ---- measuring ---------------------------------------------------------------

  function Max(a: nat, b: nat): nat { if a < b then b else a }

  /** The number of nodes of the tree below and including `n`. */
  function Count(n: Node): nat
    decreases n
  {
    match n
    case Root(ns) => 1 + CountAll(ns)
    case Paragraph(ns) => 1 + CountAll(ns)
    case Heading(_, ns) => 1 + CountAll(ns)
    case Subtext(ns) => 1 + CountAll(ns)
    case Blockquote(ns) => 1 + CountAll(ns)
    case ListBlock(_, _, items) => 1 + CountItems(items)
    case _ => 1
  }

  function CountAll(ns: seq<Node>): nat
    decreases ns
  {
    if ns == [] then 0 else Count(ns[0]) + CountAll(ns[1..])
  }

  function CountItems(items: seq<ListItem>): nat
    decreases items
  {
    if items == [] then 0 else CountAll(items[0].nodes) + CountItems(items[1..])
  }

  /** The number of nodes on the longest path down from `n`. */
  function Depth(n: Node): nat
    decreases n
  {
    match n
    case Root(ns) => 1 + DepthAll(ns)
    case Paragraph(ns) => 1 + DepthAll(ns)
    case Heading(_, ns) => 1 + DepthAll(ns)
    case Subtext(ns) => 1 + DepthAll(ns)
    case Blockquote(ns) => 1 + DepthAll(ns)
    case ListBlock(_, _, items) => 1 + DepthItems(items)
    case _ => 1
  }

  function DepthAll(ns: seq<Node>): nat
    decreases ns
  {
    if ns == [] then 0 else Max(Depth(ns[0]), DepthAll(ns[1..]))
  }

  function DepthItems(items: seq<ListItem>): nat
    decreases items
  {
    if items == [] then 0 else Max(DepthAll(items[0].nodes), DepthItems(items[1..]))
  }

  lemma {:induction false} MeasureAppend(a: seq<Node>, b: seq<Node>)
    ensures CountAll(a + b) == CountAll(a) + CountAll(b)
    ensures DepthAll(a + b) == Max(DepthAll(a), DepthAll(b))
  {
    hide Count, Depth;
    if a == [] {
      NoneAdded(b);
    } else {
      MeasureAppend(a[1..], b);
      TailOfAppend(a, b);
    }
  }

  lemma {:induction false} MeasureItemsAppend(a: seq<ListItem>, b: seq<ListItem>)
    ensures CountItems(a + b) == CountItems(a) + CountItems(b)
    ensures DepthItems(a + b) == Max(DepthItems(a), DepthItems(b))
  {
    if a == [] {
      NoneAdded(b);
    } else {
      MeasureItemsAppend(a[1..], b);
      TailOfAppend(a, b);
    }
  }

  lemma MeasureOne(n: Node)
    ensures CountAll([n]) == Count(n) && DepthAll([n]) == Depth(n)
  {
    assert CountAll([n]) == Count(n) + CountAll([]);
    assert DepthAll([n]) == Max(Depth(n), DepthAll([]));
  }

  datatype Measure = Measure(count: nat, depth: nat)

  /** The children of every item of a list. */
  method GatherItems(list: Node) returns (children: seq<Node>)
    requires list.ListBlock?
    ensures forall c :: c in children ==> c < list
    ensures CountAll(children) == CountItems(list.items)
    ensures DepthAll(children) == DepthItems(list.items)
  {
    var items := list.items;
    children := [];
    for i := 0 to |items|
      invariant forall c :: c in children ==> c < list
      invariant CountAll(children) == CountItems(items[..i])
      invariant DepthAll(children) == DepthItems(items[..i])
    {
      MeasureAppend(children, items[i].nodes);
      MeasureItemsAppend(items[..i], [items[i]]);
      assert items[..i + 1] == items[..i] + [items[i]];
      forall c | c in items[i].nodes ensures c < list {
        assert c < items[i] < list;
      }
      children := children + items[i].nodes;
    }
    assert items[..|items|] == items;
  }

  /** `measureTree`: gathers the children of `nodes` and of every item, then walks them. */
  method MeasureTree(node: Node) returns (m: Measure)
    ensures m == Measure(Count(node), Depth(node))
    decreases node
  {
    var children: seq<Node> := [];
    match node {
      case Root(ns) => children := ns;
      case Paragraph(ns) => children := ns;
      case Heading(_, ns) => children := ns;
      case Subtext(ns) => children := ns;
      case Blockquote(ns) => children := ns;
      case ListBlock(_, _, _) =>
        children := GatherItems(node);
      case _ =>
    }
    assert Count(node) == 1 + CountAll(children) && Depth(node) == 1 + DepthAll(children);
    hide Count, Depth;
    var count, maxChildDepth := 1, 0;
    for i := 0 to |children|
      invariant count == 1 + CountAll(children[..i])
      invariant maxChildDepth == DepthAll(children[..i])
    {
      MeasureAppend(children[..i], [children[i]]);
      MeasureOne(children[i]);
      assert children[..i + 1] == children[..i] + [children[i]];
      assert children[i] in children;
      var c := MeasureTree(children[i]);
      count := count + c.count;
      if c.depth > maxChildDepth {
        maxChildDepth := c.depth;
      }
    }
    assert children[..|children|] == children;
    m := Measure(count, maxChildDepth + 1);
  }

  // ---- the root schema ----------------------------------------------------------

  predicate DisplayAccepted(d: Option<Str>) {
    d.Some? ==> 1 <= |d.value| <= MAX_LABEL_LENGTH
  }

  predicate LangAccepted(l: Option<Str>) {
    l.Some? ==> |l.value| <= MAX_LANG_LENGTH
  }

  /** `RichTextNodeSchema` */
  predicate SchemaNode(n: Node)
    decreases n
  {
    match n
    case Root(_) => false
    case Paragraph(ns) => SchemaAll(ns) && forall i :: 0 <= i < |ns| ==> IsInline(ns[i])
    case Heading(level, ns) =>
      1 <= level <= 3 && SchemaAll(ns) && forall i :: 0 <= i < |ns| ==> IsInline(ns[i])
    case Subtext(ns) => SchemaAll(ns) && forall i :: 0 <= i < |ns| ==> IsInline(ns[i])
    case Blockquote(ns) => SchemaAll(ns)
    case ListBlock(_, indent, items) => 0 <= indent <= 3 && SchemaItems(items)
    case CodeBlock(_, lang) => LangAccepted(lang)
    case Divider => true
    case TextRun(_, _) => true
    case Mention(_, id, display) => IsMentionId(id) && DisplayAccepted(display)
    case Emoji(name, customId) =>
      1 <= |name| <= 64 && (customId.Some? ==> IsMentionId(customId.value))
    case Link(url, _) => IsSafeLinkUrl(url)
  }

  predicate SchemaAll(ns: seq<Node>)
    decreases ns
  {
    ns == [] || (SchemaNode(ns[0]) && SchemaAll(ns[1..]))
  }

  predicate SchemaItems(items: seq<ListItem>)
    decreases items
  {
    items == [] || (SchemaAll(items[0].nodes) && SchemaItems(items[1..]))
  }

  /** `RichTextRootSchema`, with the depth and node limits of its refinement. */
  predicate SchemaRoot(n: Node) {
    n.Root? && SchemaAll(n.nodes) && Depth(n) <= MAX_DEPTH && Count(n) <= MAX_NODES
  }

  lemma {:induction false} SchemaAppend(a: seq<Node>, b: seq<Node>)
    ensures SchemaAll(a + b) <==> SchemaAll(a) && SchemaAll(b)
  {
    hide SchemaNode;
    if a == [] {
      NoneAdded(b);
    } else {
      SchemaAppend(a[1..], b);
      TailOfAppend(a, b);
    }
  }
}
