/** What the tokens of a text and the nodes of a run are, said without the scanner: which token
    stands at a position, and what every unit of the text becomes. */
module Meaning {
  import opened Wrappers
  import opened Chars
  import opened RichText
  import opened Tokens
  import opened Inline
  import opened Budget
  import opened Emit

  // ---- which token ----------------------------------------------------------------------------

  predicate MentionHere(rest: Str, kind: RefKind, id: Str) {
    IsTokenId(id) && RefToken(kind, id) <= rest
  }

  predicate LinkHere(rest: Str, l: LinkParts) {
    LinkForm(l) && LinkToken(l) <= rest
  }

  /** `u` is the longest url at the start of the text. */
  ghost predicate UrlHere(rest: Str, u: Str) {
    && UrlForm(u) && u <= rest
    && forall longer: Str :: UrlForm(longer) && longer <= rest ==> |longer| <= |u|
  }

  ghost predicate AtomHere(rest: Str) {
    || (exists kind, id :: MentionHere(rest, kind, id))
    || (exists l :: LinkHere(rest, l))
    || (exists u :: UrlHere(rest, u))
  }

  /** The longest marker at `pos` encloses the text up to its next occurrence at `to`, before any
      newline. */
  ghost predicate EnclosedHere(text: Str, pos: nat, m: Marker, to: nat) {
    var from := pos + |Open(m)|;
    && StartsWith(text, Open(m), pos)
    && (forall other :: StartsWith(text, Open(other), pos) ==> |Open(other)| <= |Open(m)|)
    && from <= to <= |text| && StartsWith(text, Open(m), to)
    && (forall k :: from <= k < to ==> !StartsWith(text, Open(m), k) && text[k] != NEWLINE)
  }

  lemma MarkerUnique(text: Str, pos: nat, m: Marker)
    requires StartsWith(text, Open(m), pos)
    requires forall other :: StartsWith(text, Open(other), pos) ==> |Open(other)| <= |Open(m)|
    ensures MatchMarker(text, pos) == Some(m)
  {
    var found := MatchMarker(text, pos).value;
    assert |Open(found)| == |Open(m)|;
    assert Open(found) == text[pos..pos + |Open(m)|] == Open(m);
    OpensDiffer(found, m);
  }

  lemma OpensDiffer(a: Marker, b: Marker)
    ensures Open(a) == Open(b) <==> a == b
  {
  }

  /** The first units tell mentions, links and urls apart. */
  lemma MentionStarts(rest: Str, kind: RefKind, id: Str)
    requires MentionHere(rest, kind, id)
    ensures |rest| >= 2 && rest[0] == RefOpen(kind)[0] && rest[1] == RefOpen(kind)[1]
    ensures rest[0] == 0x40 || rest[0] == 0x3C
    ensures forall other, j :: MentionHere(rest, other, j) ==> other == kind && j == id
  {
    hide IsTokenId;
    PrefixParts(RefOpen(kind), id, [RefClose(kind)], rest);
    assert RefOpen(kind) <= rest;
    forall other, j | MentionHere(rest, other, j) ensures other == kind && j == id {
      PrefixParts(RefOpen(other), j, [RefClose(other)], rest);
      assert RefOpen(other) <= rest;
      KindOfStart(kind, other, rest);
      RefRun(kind, rest, id);
      RefRun(kind, rest, j);
    }
  }

  lemma KindOfStart(a: RefKind, b: RefKind, rest: Str)
    requires RefOpen(a) <= rest && RefOpen(b) <= rest
    ensures a == b
  {
    assert rest[0] == RefOpen(a)[0] == RefOpen(b)[0] && rest[1] == RefOpen(a)[1] == RefOpen(b)[1];
  }

  lemma LinkStarts(rest: Str, l: LinkParts)
    requires LinkHere(rest, l)
    ensures rest != [] && rest[0] == 0x5B
    ensures forall other :: LinkHere(rest, other) ==> other == l
  {
    LinkPrefix(l, rest);
    forall other | LinkHere(rest, other) ensures other == l {
      LinkForced(rest, l);
      LinkForced(rest, other);
    }
  }

  lemma UrlStarts(rest: Str, u: Str)
    requires UrlForm(u) && u <= rest
    ensures rest != [] && rest[0] == 0x68
  {
    assert u[0] == rest[0];
    assert (HTTPS + COLON_SLASHES)[0] == 0x68 && (HTTP + COLON_SLASHES)[0] == 0x68;
  }

  /** The url that is matched is the longest there is. */
  lemma UrlIff(rest: Str, u: Str)
    ensures MatchUrl(rest).Some? && rest[..MatchUrl(rest).value] == u <==> UrlHere(rest, u)
  {
    hide UrlForm;
    if MatchUrl(rest).Some? && rest[..MatchUrl(rest).value] == u {
      forall longer: Str | UrlForm(longer) && longer <= rest ensures |longer| <= |u| {
        assert longer == rest[..|longer|];
      }
    }
    if UrlHere(rest, u) {
      assert u == rest[..|u|];
      var v := rest[..MatchUrl(rest).value];
      assert UrlForm(v) && v <= rest;
    }
  }

  lemma OnlyMention(rest: Str, kind: RefKind, id: Str)
    requires MentionHere(rest, kind, id)
    ensures AtomAt(rest) == Some(Ref(kind, id))
    ensures forall other, j :: MentionHere(rest, other, j) ==> other == kind && j == id
    ensures forall l :: !LinkHere(rest, l)
    ensures forall u :: !UrlHere(rest, u)
  {
    hide IsTokenId, RefToken, LinkForm, LinkToken, UrlForm;
    MentionStarts(rest, kind, id);
    forall other ensures MatchRef(other, rest) == if other == kind then Some(id) else None {
      assert MatchRef(other, rest).Some? ==> MentionHere(rest, other, MatchRef(other, rest).value);
    }
    forall l ensures !LinkHere(rest, l) {
      if LinkHere(rest, l) {
        LinkStarts(rest, l);
      }
    }
    forall u ensures !UrlHere(rest, u) {
      if UrlHere(rest, u) {
        UrlStarts(rest, u);
      }
    }
  }

  lemma NoMention(rest: Str)
    requires forall kind, id :: !MentionHere(rest, kind, id)
    ensures forall kind :: MatchRef(kind, rest).None?
  {
    hide IsTokenId, RefToken;
    forall kind ensures MatchRef(kind, rest).None? {
      assert MatchRef(kind, rest).Some? ==> MentionHere(rest, kind, MatchRef(kind, rest).value);
    }
  }

  lemma OnlyLink(rest: Str, l: LinkParts)
    requires LinkHere(rest, l) && forall kind, id :: !MentionHere(rest, kind, id)
    ensures AtomAt(rest) == Some(if IsSafeLinkUrl(l.url) then Anchor(l) else Unsafe(l))
    ensures forall other :: LinkHere(rest, other) ==> other == l
    ensures forall u :: !UrlHere(rest, u)
  {
    hide IsTokenId, RefToken, LinkForm, LinkToken, UrlForm, IsSafeLinkUrl;
    NoMention(rest);
    LinkStarts(rest, l);
    forall u ensures !UrlHere(rest, u) {
      if UrlHere(rest, u) {
        UrlStarts(rest, u);
      }
    }
  }

  lemma OnlyUrl(rest: Str)
    requires forall kind, id :: !MentionHere(rest, kind, id)
    requires forall l :: !LinkHere(rest, l)
    ensures AtomAt(rest) == if MatchUrl(rest).Some? then Some(BareUrl(rest[..MatchUrl(rest).value])) else None
    ensures forall u :: UrlHere(rest, u) <==> AtomAt(rest) == Some(BareUrl(u))
  {
    hide IsTokenId, RefToken, LinkForm, LinkToken, UrlForm;
    NoMention(rest);
    assert MatchLink(rest).Some? ==> LinkHere(rest, MatchLink(rest).value);
    forall u ensures UrlHere(rest, u) <==> MatchUrl(rest).Some? && rest[..MatchUrl(rest).value] == u {
      UrlIff(rest, u);
    }
  }

  /** The atom at the start of a text is the mention, link or url there. */
  lemma AtomIff(rest: Str)
    ensures forall kind, id :: AtomAt(rest) == Some(Ref(kind, id)) <==> MentionHere(rest, kind, id)
    ensures forall l :: AtomAt(rest) == Some(Anchor(l)) <==> LinkHere(rest, l) && IsSafeLinkUrl(l.url)
    ensures forall l :: AtomAt(rest) == Some(Unsafe(l)) <==> LinkHere(rest, l) && !IsSafeLinkUrl(l.url)
    ensures forall u :: AtomAt(rest) == Some(BareUrl(u)) <==> UrlHere(rest, u)
    ensures AtomAt(rest).Some? <==> AtomHere(rest)
  {
    hide MentionHere, LinkHere, UrlHere, AtomAt, IsSafeLinkUrl;
    if kind, id :| MentionHere(rest, kind, id) {
      OnlyMention(rest, kind, id);
    } else if l :| LinkHere(rest, l) {
      OnlyLink(rest, l);
    } else {
      OnlyUrl(rest);
    }
  }

  /** Where an enclosed piece ends is settled by where it starts. */
  lemma EnclosedIff(text: Str, pos: nat, m: Marker, to: nat)
    ensures EnclosedHere(text, pos, m, to) <==>
      MatchMarker(text, pos) == Some(m) && CloseAt(text, pos + |Open(m)|, Open(m)) == Some(to)
  {
    hide StartsWith, MatchMarker, Open;
    OpenFree(m);
    var from := pos + |Open(m)|;
    if EnclosedHere(text, pos, m, to) {
      MarkerUnique(text, pos, m);
      if CloseAt(text, from, Open(m)).None? {
        CloseMissing(text, from, Open(m), to);
        assert false;
      }
      var close := CloseAt(text, from, Open(m)).value;
      if to < close {
        CloseNearest(text, from, Open(m), to);
        assert false;
      }
      assert !(close < to);
    }
    if MatchMarker(text, pos) == Some(m) && CloseAt(text, from, Open(m)) == Some(to) {
      CloseFree(text, from, Open(m));
      forall k | from <= k < to ensures !StartsWith(text, Open(m), k) && text[k] != NEWLINE {
        CloseNearest(text, from, Open(m), k);
      }
      StartFits(text, Open(m), to);
    }
  }

  lemma OpenFree(m: Marker)
    ensures Open(m) != [] && NEWLINE !in Open(m) && (m == Backtick <==> MarkOf(m) == Monospace)
  {
  }

  lemma StartFits(text: Str, open: Str, pos: nat)
    requires StartsWith(text, open, pos)
    ensures pos + |open| <= |text|
  {
  }

  /** What an enclosed piece makes. */
  function Piece(text: Str, pos: nat, m: Marker, to: nat): Token
    requires pos + |Open(m)| <= to <= |text|
  {
    var inner := text[pos + |Open(m)|..to];
    if m == Backtick then Atom(Code(inner)) else Enclosed(m, inner)
  }

  lemma MarkedPiece(text: Str, pos: nat, m: Marker, to: nat)
    requires pos < |text| && EnclosedHere(text, pos, m, to)
    ensures MarkerToken(text, pos) == Some(Piece(text, pos, m, to))
  {
    hide EnclosedHere, MatchMarker, CloseAt, TokenSpec, Open;
    EnclosedIff(text, pos, m, to);
    EnclosedFits(text, pos, m, to);
    OpenFree(m);
  }

  lemma EnclosedFits(text: Str, pos: nat, m: Marker, to: nat)
    requires EnclosedHere(text, pos, m, to)
    ensures pos + |Open(m)| <= to <= |text|
  {
  }

  lemma UnmarkedPiece(text: Str, pos: nat)
    requires pos < |text| && forall m, to: nat :: !EnclosedHere(text, pos, m, to)
    ensures MarkerToken(text, pos).None?
  {
    hide EnclosedHere, MatchMarker, CloseAt, TokenSpec, Open;
    if MarkerToken(text, pos).Some? {
      var m := MatchMarker(text, pos).value;
      OpenFree(m);
      EnclosedIff(text, pos, m, CloseAt(text, pos + |Open(m)|, Open(m)).value);
      assert false;
    }
  }

  /** The token at a position is the mention, the link or the longest url there, if there is one. */
  lemma TokenIsAtom(text: Str, pos: nat)
    requires pos < |text|
    ensures var t, rest := TokenAt(text, pos), text[pos..];
      && (forall kind, id :: t == Atom(Ref(kind, id)) <==> MentionHere(rest, kind, id))
      && (forall l :: t == Atom(Anchor(l)) <==> LinkHere(rest, l) && IsSafeLinkUrl(l.url))
      && (forall l :: t == Atom(Unsafe(l)) <==> LinkHere(rest, l) && !IsSafeLinkUrl(l.url))
      && (forall u :: t == Atom(BareUrl(u)) <==> UrlHere(rest, u))
  {
    hide AtomAt, MentionHere, LinkHere, UrlHere, TokenSpec, MarkerToken, IsSafeLinkUrl;
    AtomIff(text[pos..]);
    AtomKindsFit(text[pos..]);
    MarkerKindsFit(text, pos);
  }

  /** Where there is none, it is the piece that a marker encloses. */
  lemma TokenIsPiece(text: Str, pos: nat, m: Marker, to: nat)
    requires pos < |text| && !AtomHere(text[pos..]) && EnclosedHere(text, pos, m, to)
    ensures pos + |Open(m)| <= to <= |text| && TokenAt(text, pos) == Piece(text, pos, m, to)
  {
    hide AtomAt, AtomHere, TokenSpec, MarkerToken, EnclosedHere;
    AtomIff(text[pos..]);
    EnclosedFits(text, pos, m, to);
    MarkedPiece(text, pos, m, to);
  }

  /** Where there is neither, and only there, it is one unit of text. */
  lemma TokenIsPlain(text: Str, pos: nat)
    requires pos < |text|
    ensures TokenAt(text, pos) == Atom(Plain(text[pos])) <==>
      !AtomHere(text[pos..]) && forall m, to: nat :: !EnclosedHere(text, pos, m, to)
  {
    hide AtomAt, AtomHere, TokenSpec, MarkerToken, EnclosedHere;
    AtomIff(text[pos..]);
    AtomKindsFit(text[pos..]);
    if AtomAt(text[pos..]).None? {
      if m, to: nat :| EnclosedHere(text, pos, m, to) {
        TokenIsPiece(text, pos, m, to);
      } else {
        UnmarkedPiece(text, pos);
      }
    }
  }

  lemma MarkerKindsFit(text: Str, pos: nat)
    requires pos < |text|
    ensures MarkerToken(text, pos).Some? ==>
      MarkerToken(text, pos).value.Enclosed? || MarkerToken(text, pos).value.step.Code?
  {
    hide TokenSpec;
  }

  lemma AtomKindsFit(rest: Str)
    ensures AtomAt(rest).Some? ==>
      var s := AtomAt(rest).value; s.Ref? || s.Anchor? || s.Unsafe? || s.BareUrl?
  {
  }

  // ---- what a run becomes ---------------------------------------------------------------------

  /** A unit of visible text with its marks, or something that stands for a whole token. */
  datatype Glyph =
    | Letter(c: Unit, marks: seq<TextMark>)
    | Chip(kind: RefKind, id: Str, display: Option<Str>)
    | Hyper(url: Str, caption: Option<Str>)
    | Other(node: Node)

  function Letters(text: Str, marks: seq<TextMark>): seq<Glyph> {
    seq(|text|, i requires 0 <= i < |text| => Letter(text[i], marks))
  }

  /** What the nodes of a run show. */
  function GlyphsOf(ns: seq<Node>): seq<Glyph> {
    if ns == [] then [] else Shown(ns[0]) + GlyphsOf(ns[1..])
  }

  function Shown(n: Node): seq<Glyph> {
    match n
    case TextRun(text, marks) => Letters(text, marks)
    case Mention(kind, id, display) => [Chip(kind, id, display)]
    case Link(url, caption) => [Hyper(url, caption)]
    case _ => [Other(n)]
  }

  /** A name without the blanks around it, if anything is left of it. */
  function Label(name: Option<Str>): Option<Str> {
    if name.None? || AllOf(name.value, IsSpace) then None else Some(Trim(name.value))
  }

  lemma LabelResolves(names: Names, kind: RefKind, id: Str)
    ensures ResolveName(names, kind, id) == Label(match kind
      case UserRef => names.user(id)
      case ChannelRef => names.channel(id)
      case RoleRef => names.role(id))
  {
    hide Trim, AllOf;
    var name := NameOf(names, kind, id);
    if name.Some? {
      TrimSpec(name.value);
    }
  }

  /** What a text is to show: markers are gone and mark what they enclose, the outermost first. */
  function Meant(steps: seq<Step>, marks: seq<TextMark>, names: Names): seq<Glyph>
    decreases steps
  {
    if steps == [] then [] else MeantOne(steps[0], marks, names) + Meant(steps[1..], marks, names)
  }

  function MeantOne(s: Step, marks: seq<TextMark>, names: Names): seq<Glyph>
    decreases s
  {
    match s
    case Plain(c) => [Letter(c, marks)]
    case Unsafe(l) => Letters(LinkToken(l), marks)
    case Ref(UserRef, id) => [Chip(UserRef, id, Label(names.user(id)))]
    case Ref(ChannelRef, id) => [Chip(ChannelRef, id, Label(names.channel(id)))]
    case Ref(RoleRef, id) => [Chip(RoleRef, id, Label(names.role(id)))]
    case Anchor(l) => [Hyper(l.url, if l.caption == [] then None else Some(l.caption))]
    case BareUrl(url) => [Hyper(url, None)]
    case Code(inner) => Letters(inner, marks + [Monospace])
    case Styled(m, steps) => Meant(steps, marks + [MarkOf(m)], names)
  }

  lemma {:induction false} GlyphsAppend(a: seq<Node>, b: seq<Node>)
    ensures GlyphsOf(a + b) == GlyphsOf(a) + GlyphsOf(b)
  {
    if a == [] {
      NoneAdded(b);
    } else {
      TailOfAppend(a, b);
      GlyphsAppend(a[1..], b);
      Assoc(Shown(a[0]), GlyphsOf(a[1..]), GlyphsOf(b));
    }
  }

  lemma LettersAppend(a: Str, b: Str, marks: seq<TextMark>)
    ensures Letters(a + b, marks) == Letters(a, marks) + Letters(b, marks)
  {
  }

  lemma FlushGlyphs(buf: Str, marks: seq<TextMark>)
    ensures GlyphsOf(Flush(buf, marks)) == Letters(buf, marks)
  {
    if buf != [] {
      assert Flush(buf, marks)[1..] == [];
    }
  }

  lemma OneGlyph(n: Node)
    ensures GlyphsOf([n]) == Shown(n)
  {
    assert [n][1..] == [];
  }

  lemma LiteralGlyphs(s: Step, marks: seq<TextMark>, names: Names)
    requires IsLiteral(s)
    ensures Letters(Source(s), marks) == MeantOne(s, marks, names)
  {
  }

  /** The nodes of a run show exactly what its tokens mean: every literal unit once, in order, with
      the marks of the markers around it, every mention and every link. */
  lemma {:induction false} EmitMeans(steps: seq<Step>, buf: Str, marks: seq<TextMark>, names: Names)
    ensures GlyphsOf(Emit.Emit(steps, buf, marks, names)) == Letters(buf, marks) + Meant(steps, marks, names)
    decreases steps
  {
    hide GlyphsOf, Letters, MeantOne, StepNodes, Flush, IsLiteral;
    FlushGlyphs(buf, marks);
    if steps != [] {
      var s := steps[0];
      if IsLiteral(s) {
        EmitMeans(steps[1..], buf + Source(s), marks, names);
        LettersAppend(buf, Source(s), marks);
        LiteralGlyphs(s, marks, names);
      } else {
        EmitMeans(steps[1..], [], marks, names);
        StepMeans(s, marks, names);
        NoLetters(marks);
        var rest := Emit.Emit(steps[1..], [], marks, names);
        GlyphsAppend(Flush(buf, marks) + StepNodes(s, marks, names), rest);
        GlyphsAppend(Flush(buf, marks), StepNodes(s, marks, names));
      }
    }
  }

  lemma NoLetters(marks: seq<TextMark>)
    ensures Letters([], marks) == []
  {
  }

  lemma {:induction false} StepMeans(s: Step, marks: seq<TextMark>, names: Names)
    requires !IsLiteral(s)
    ensures GlyphsOf(StepNodes(s, marks, names)) == MeantOne(s, marks, names)
    decreases s
  {
    hide GlyphsOf, Letters, ResolveName, Label, NameOf;
    match s {
      case Styled(m, steps) =>
        EmitMeans(steps, [], marks + [MarkOf(m)], names);
        NoLetters(marks + [MarkOf(m)]);
      case Ref(kind, id) =>
        LabelResolves(names, kind, id);
        OneGlyph(StepNodes(s, marks, names)[0]);
      case Anchor(_) => OneGlyph(StepNodes(s, marks, names)[0]);
      case BareUrl(_) => OneGlyph(StepNodes(s, marks, names)[0]);
      case Code(_) => OneGlyph(StepNodes(s, marks, names)[0]);
    }
  }

  // ---- the text of a run ------------------------------------------------------------------------

  /** What a glyph adds to the projection. */
  function TextOf(g: Glyph): Str {
    match g
    case Letter(c, _) => [c]
    case Chip(_, _, _) => []
    case Hyper(url, caption) => if caption.Some? then caption.value else url
    case Other(Emoji(name, _)) => [0x3A] + name + [0x3A]
    case Other(n) => AstToPlain(n)
  }

  function TextOfAll(gs: seq<Glyph>): Str {
    if gs == [] then [] else TextOf(gs[0]) + TextOfAll(gs[1..])
  }

  lemma {:induction false} TextAppend(a: seq<Glyph>, b: seq<Glyph>)
    ensures TextOfAll(a + b) == TextOfAll(a) + TextOfAll(b)
  {
    if a == [] {
      NoneAdded(b);
    } else {
      TailOfAppend(a, b);
      TextAppend(a[1..], b);
      Assoc(TextOf(a[0]), TextOfAll(a[1..]), TextOfAll(b));
    }
  }

  lemma {:induction false} LettersText(text: Str, marks: seq<TextMark>)
    ensures TextOfAll(Letters(text, marks)) == text
  {
    if text != [] {
      LettersText(text[1..], marks);
      assert Letters(text, marks)[1..] == Letters(text[1..], marks);
    }
  }

  /** The projection of nodes is the text of what they show: letters without their marks, nothing of
      a mention, the caption of a link or else its url, an emoji's name between colons. */
  lemma {:induction false} PlainShows(ns: seq<Node>)
    ensures PlainOf(ns) == TextOfAll(GlyphsOf(ns))
  {
    hide Letters;
    if ns != [] {
      PlainShows(ns[1..]);
      assert ns == [ns[0]] + ns[1..];
      GlyphsAppend([ns[0]], ns[1..]);
      OneGlyph(ns[0]);
      OneText(ns[0]);
      TextAppend(GlyphsOf([ns[0]]), GlyphsOf(ns[1..]));
    }
  }

  lemma OneText(n: Node)
    ensures TextOfAll(GlyphsOf([n])) == AstToPlain(n)
  {
    hide Letters;
    OneGlyph(n);
    if n.TextRun? {
      LettersText(n.text, n.marks);
    } else {
      assert |GlyphsOf([n])| == 1 && GlyphsOf([n])[1..] == [];
    }
  }

  /** The projection of a text is what its tokens mean. */
  lemma RunText(text: Str, names: Names)
    ensures PlainOf(Emit.Emit(Lex(text, 0), [], [], names)) == TextOfAll(Meant(Lex(text, 0), [], names))
  {
    hide GlyphsOf, Letters, Meant, TextOfAll, Lex, PlainOf, Emit.Emit;
    EmitMeans(Lex(text, 0), [], [], names);
    NoLetters([]);
    NoneAdded(Meant(Lex(text, 0), [], names));
    PlainShows(Emit.Emit(Lex(text, 0), [], [], names));
  }

  // ---- what is checked --------------------------------------------------------------------------

  /** The depths that are checked in a run, in order. */
  function Nests(es: seq<Event>): seq<nat> {
    if es == [] then [] else (if es[0].Nest? then [es[0].depth] else []) + Nests(es[1..])
  }

  /** How deep each styled piece lies, in order. */
  function StyledDepths(steps: seq<Step>, depth: nat): seq<nat>
    decreases steps
  {
    if steps == [] then [] else StyledDepthsOf(steps[0], depth) + StyledDepths(steps[1..], depth)
  }

  function StyledDepthsOf(s: Step, depth: nat): seq<nat>
    decreases s
  {
    match s
    case Styled(_, steps) => [depth + 1] + StyledDepths(steps, depth + 1)
    case _ => []
  }

  lemma {:induction false} NestsAppend(a: seq<Event>, b: seq<Event>)
    ensures Nests(a + b) == Nests(a) + Nests(b)
  {
    if a == [] {
      NoneAdded(b);
    } else {
      TailOfAppend(a, b);
      NestsAppend(a[1..], b);
      Assoc((if a[0].Nest? then [a[0].depth] else []), Nests(a[1..]), Nests(b));
    }
  }

  lemma NoNests(pos: nat, pending: bool)
    ensures Nests(PeekAt(pos)) == [] && Nests(FlushChecks(pending)) == []
  {
  }

  /** Every styled piece has its own depth checked, and nothing else has. */
  lemma {:induction false} ChecksDepths(steps: seq<Step>, pos: nat, pending: bool, depth: nat)
    ensures Nests(Checks(steps, pos, pending, depth)) == StyledDepths(steps, depth)
    decreases steps
  {
    hide PeekAt, FlushChecks, StepChecks, StyledDepthsOf, Nests, Source;
    NoNests(pos, pending);
    if steps != [] {
      var s, next := steps[0], pos + |Source(steps[0])|;
      if IsLiteral(s) {
        ChecksDepths(steps[1..], next, true, depth);
        NestsAppend(PeekAt(pos), Checks(steps[1..], next, true, depth));
        LiteralDepths(s, depth);
      } else {
        ChecksDepths(steps[1..], next, false, depth);
        StepDepths(s, depth);
        NestsAppend(PeekAt(pos), FlushChecks(pending));
        NestsAppend(PeekAt(pos) + FlushChecks(pending), StepChecks(s, depth));
        NestsAppend(PeekAt(pos) + FlushChecks(pending) + StepChecks(s, depth), Checks(steps[1..], next, false, depth));
      }
    }
  }

  /** The looks at the clock from the scanning loop: one for every turn at a multiple of 1024. */
  function Peeks(es: seq<Event>): nat {
    if es == [] then 0 else (if es[0] == Peek then 1 else 0) + Peeks(es[1..])
  }

  /** How many steps begin at such a position, each text counted from its own start. */
  function Marked(steps: seq<Step>, pos: nat): nat
    decreases steps
  {
    if steps == [] then 0
    else (if pos % 1024 == 0 then 1 else 0) + MarkedIn(steps[0]) + Marked(steps[1..], pos + |Source(steps[0])|)
  }

  function MarkedIn(s: Step): nat
    decreases s
  {
    if s.Styled? then Marked(s.steps, 0) else 0
  }

  lemma {:induction false} PeeksAppend(a: seq<Event>, b: seq<Event>)
    ensures Peeks(a + b) == Peeks(a) + Peeks(b)
  {
    if a == [] {
      NoneAdded(b);
    } else {
      TailOfAppend(a, b);
      PeeksAppend(a[1..], b);
    }
  }

  lemma OnePeek(pos: nat, pending: bool)
    ensures Peeks(PeekAt(pos)) == (if pos % 1024 == 0 then 1 else 0) && Peeks(FlushChecks(pending)) == 0
  {
  }

  lemma {:induction false} ChecksPeek(steps: seq<Step>, pos: nat, pending: bool, depth: nat)
    ensures Peeks(Checks(steps, pos, pending, depth)) == Marked(steps, pos)
    decreases steps
  {
    hide PeekAt, FlushChecks, StepChecks, MarkedIn, Peeks, Source;
    OnePeek(pos, pending);
    if steps != [] {
      var s, next := steps[0], pos + |Source(steps[0])|;
      if IsLiteral(s) {
        ChecksPeek(steps[1..], next, true, depth);
        PeeksAppend(PeekAt(pos), Checks(steps[1..], next, true, depth));
        LiteralUnmarked(s);
      } else {
        ChecksPeek(steps[1..], next, false, depth);
        StepPeeks(s, depth);
        PeeksAppend(PeekAt(pos), FlushChecks(pending));
        PeeksAppend(PeekAt(pos) + FlushChecks(pending), StepChecks(s, depth));
        PeeksAppend(PeekAt(pos) + FlushChecks(pending) + StepChecks(s, depth), Checks(steps[1..], next, false, depth));
      }
    }
  }

  lemma LiteralUnmarked(s: Step)
    requires IsLiteral(s)
    ensures MarkedIn(s) == 0
  {
  }

  lemma {:induction false} StepPeeks(s: Step, depth: nat)
    requires !IsLiteral(s)
    ensures Peeks(StepChecks(s, depth)) == MarkedIn(s)
    decreases s
  {
    if s.Styled? {
      ChecksPeek(s.steps, 0, false, depth + 1);
      PeeksAppend([Nest(depth + 1)], Checks(s.steps, 0, false, depth + 1));
    }
  }

  lemma LiteralDepths(s: Step, depth: nat)
    requires IsLiteral(s)
    ensures StyledDepthsOf(s, depth) == []
  {
  }

  lemma {:induction false} StepDepths(s: Step, depth: nat)
    requires !IsLiteral(s)
    ensures Nests(StepChecks(s, depth)) == StyledDepthsOf(s, depth)
    decreases s
  {
    if s.Styled? {
      ChecksDepths(s.steps, 0, false, depth + 1);
      NestsAppend([Nest(depth + 1)], Checks(s.steps, 0, false, depth + 1));
    }
  }
}
