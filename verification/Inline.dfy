/** The inline language: what a run of text means. `Lex` reads the text as steps, one for
    each turn of the scanner; `Emit` turns steps into nodes, gathering literal text; `Checks`
    is the sequence of budget checks the scanner makes on the way. */
module Inline {
  import opened Wrappers
  import opened Chars
  import opened RichText
  import opened Tokens

  datatype Step =
    | Plain(c: Unit)                          // no token here
    | Unsafe(link: LinkParts)                 // a link with an active scheme, kept as text
    | Ref(kind: RefKind, id: Str)
    | Anchor(link: LinkParts)
    | BareUrl(url: Str)
    | Code(inner: Str)
    | Styled(marker: Marker, steps: seq<Step>)

  /** The source text of a step. */
  function Source(s: Step): Str
    decreases s
  {
    match s
    case Plain(c) => [c]
    case Unsafe(link) => LinkToken(link)
    case Ref(kind, id) => RefToken(kind, id)
    case Anchor(link) => LinkToken(link)
    case BareUrl(url) => url
    case Code(inner) => Open(Backtick) + inner + Open(Backtick)
    case Styled(m, steps) => Open(m) + SourceOf(steps) + Open(m)
  }

  function SourceOf(steps: seq<Step>): Str
    decreases steps
  {
    if steps == [] then [] else Source(steps[0]) + SourceOf(steps[1..])
  }

  // ---- lexing ------------------------------------------------------------------

  datatype Token = Atom(step: Step) | Enclosed(marker: Marker, inner: Str)

  function Width(t: Token): nat {
    match t
    case Atom(step) => |Source(step)|
    case Enclosed(m, inner) => 2 * |Open(m)| + |inner|
  }

  /** A token is a non-empty piece of the text, and an enclosed piece is free of its own
      marker and of newlines. */
  ghost predicate TokenSpec(text: Str, pos: nat, t: Token) {
    && 0 < Width(t) && pos + Width(t) <= |text|
    && match t
       case Atom(step) => !step.Styled? && Source(step) == text[pos..pos + Width(t)]
       case Enclosed(m, inner) =>
         var from := pos + |Open(m)|;
         && m != Backtick && StartsWith(text, Open(m), pos) && inner == text[from..from + |inner|]
         && StartsWith(text, Open(m), from + |inner|)
         && (forall k :: from <= k < from + |inner| ==> !StartsWith(text, Open(m), k))
         && NEWLINE !in inner
  }

  /** The pieces around an enclosed text. */
  lemma EnclosedSlice(text: Str, pos: nat, from: nat, to: nat, open: Str)
    requires StartsWith(text, open, pos) && from == pos + |open| && from <= to && StartsWith(text, open, to)
    ensures text[pos..to + |open|] == open + text[from..to] + open
  {
    assert text[pos..to + |open|] == text[pos..from] + text[from..to] + text[to..to + |open|];
  }

  lemma SlicePrefix(text: Str, pos: nat, piece: Str)
    requires pos <= |text| && piece <= text[pos..]
    ensures pos + |piece| <= |text| && text[pos..pos + |piece|] == piece
  {
    assert text[pos..pos + |piece|] == text[pos..][..|piece|];
  }

  /** Up to its nearest close, a text holds neither the marker nor a newline. */
  lemma CloseFree(text: Str, from: nat, open: Str)
    requires open != [] && NEWLINE !in open && CloseAt(text, from, open).Some?
    ensures var to := CloseAt(text, from, open).value;
      && from <= to <= |text| && NEWLINE !in text[from..to]
      && (forall k :: from <= k < to ==> !StartsWith(text, open, k))
  {
    var to := CloseAt(text, from, open).value;
    forall k | from <= k < to
      ensures !StartsWith(text, open, k) && text[k] != NEWLINE
    {
      CloseNearest(text, from, open, k);
    }
  }

  lemma StyledSpec(text: Str, pos: nat, m: Marker, to: nat)
    requires m != Backtick && StartsWith(text, Open(m), pos)
    requires pos + |Open(m)| <= to && to + |Open(m)| <= |text| && StartsWith(text, Open(m), to)
    requires NEWLINE !in text[pos + |Open(m)|..to]
    requires forall k :: pos + |Open(m)| <= k < to ==> !StartsWith(text, Open(m), k)
    ensures TokenSpec(text, pos, Enclosed(m, text[pos + |Open(m)|..to]))
  {
    hide Open, StartsWith;
  }

  lemma CodeSpec(text: Str, pos: nat, to: nat)
    requires StartsWith(text, Open(Backtick), pos) && pos + 1 <= to && StartsWith(text, Open(Backtick), to)
    ensures TokenSpec(text, pos, Atom(Code(text[pos + 1..to])))
  {
    EnclosedSlice(text, pos, pos + 1, to, Open(Backtick));
  }

  /** A marker at `pos` and its nearest close give a token. */
  lemma EnclosedSpec(text: Str, pos: nat, m: Marker, to: nat)
    requires StartsWith(text, Open(m), pos)
    requires CloseAt(text, pos + |Open(m)|, Open(m)) == Some(to)
    ensures pos + |Open(m)| <= to <= |text|
    ensures m != Backtick ==> TokenSpec(text, pos, Enclosed(m, text[pos + |Open(m)|..to]))
    ensures m == Backtick ==> TokenSpec(text, pos, Atom(Code(text[pos + |Open(m)|..to])))
  {
    hide CloseAt, TokenSpec;
    CloseFree(text, pos + |Open(m)|, Open(m));
    if m == Backtick {
      CodeSpec(text, pos, to);
    } else {
      StyledSpec(text, pos, m, to);
    }
  }

  /** The token of a marker that has a close. */
  function MarkerToken(text: Str, pos: nat): (t: Option<Token>)
    requires pos < |text|
    ensures t.Some? ==> TokenSpec(text, pos, t.value)
  {
    var marker := MatchMarker(text, pos);
    if marker.None? then None
    else
      var from := pos + |Open(marker.value)|;
      var close := CloseAt(text, from, Open(marker.value));
      if close.None? then None
      else
        EnclosedSpec(text, pos, marker.value, close.value);
        if MarkOf(marker.value) == Monospace then Some(Atom(Code(text[from..close.value])))
        else Some(Enclosed(marker.value, text[from..close.value]))
  }

  /** The mention or link `rest` starts with. */
  function AtomAt(rest: Str): Option<Step> {
    if MatchRef(UserRef, rest).Some? then Some(Ref(UserRef, MatchRef(UserRef, rest).value))
    else if MatchRef(ChannelRef, rest).Some? then Some(Ref(ChannelRef, MatchRef(ChannelRef, rest).value))
    else if MatchRef(RoleRef, rest).Some? then Some(Ref(RoleRef, MatchRef(RoleRef, rest).value))
    else if MatchLink(rest).Some? then
      var link := MatchLink(rest).value;
      if IsSafeLinkUrl(link.url) then Some(Anchor(link)) else Some(Unsafe(link))
    else if MatchUrl(rest).Some? then Some(BareUrl(rest[..MatchUrl(rest).value]))
    else None
  }

  lemma AtomFits(rest: Str)
    ensures var s := AtomAt(rest);
      s.Some? ==> !s.value.Styled? && Source(s.value) != [] && Source(s.value) <= rest
  {
    hide MatchRef, MatchLink, MatchUrl, IsSafeLinkUrl, IsTokenId, LinkForm;
    var s := AtomAt(rest);
    if s.Some? && s.value.Ref? {
      assert RefToken(s.value.kind, s.value.id) <= rest;
    } else if s.Some? && s.value.BareUrl? {
      assert UrlForm(s.value.url);
    }
  }

  /** The token at `pos`, tried in the scanner's order: mentions, link, bare url, marker. */
  function TokenAt(text: Str, pos: nat): (t: Token)
    requires pos < |text|
    ensures TokenSpec(text, pos, t)
  {
    var atom := AtomAt(text[pos..]);
    if atom.Some? then
      AtomFits(text[pos..]);
      SlicePrefix(text, pos, Source(atom.value));
      Atom(atom.value)
    else
      var marked := MarkerToken(text, pos);
      if marked.Some? then marked.value else Atom(Plain(text[pos]))
  }

  /** The steps of `text` from `pos` on. */
  function Lex(text: Str, pos: nat): seq<Step>
    requires pos <= |text|
    decreases |text|, |text| - pos
  {
    if pos == |text| then []
    else
      var t := TokenAt(text, pos);
      var step := match t
        case Atom(step) => step
        case Enclosed(m, inner) => Styled(m, Lex(inner, 0));
      [step] + Lex(text, pos + Width(t))
  }

  /** The step the scanner takes at `pos`. */
  function StepAt(text: Str, pos: nat): Step
    requires pos < |text|
  {
    match TokenAt(text, pos)
    case Atom(step) => step
    case Enclosed(m, inner) => Styled(m, Lex(inner, 0))
  }

  function NextAt(text: Str, pos: nat): (next: nat)
    requires pos < |text|
    ensures pos < next <= |text|
  {
    pos + Width(TokenAt(text, pos))
  }

  lemma LexUnfold(text: Str, pos: nat)
    requires pos < |text|
    ensures Lex(text, pos) == [StepAt(text, pos)] + Lex(text, NextAt(text, pos))
  {
    hide TokenAt, TokenSpec;
  }

  lemma SourceCons(s: Step, rest: seq<Step>)
    ensures SourceOf([s] + rest) == Source(s) + SourceOf(rest)
  {
    assert ([s] + rest)[1..] == rest;
  }

  /** Lexing loses nothing: the steps are a partition of the text. */
  lemma {:induction false} LexSource(text: Str, pos: nat)
    requires pos <= |text|
    ensures SourceOf(Lex(text, pos)) == text[pos..]
    decreases |text|, |text| - pos
  {
    hide TokenAt;
    if pos < |text| {
      var next := NextAt(text, pos);
      LexSource(text, next);
      StepSource(text, pos);
      LexUnfold(text, pos);
      SourceCons(StepAt(text, pos), Lex(text, next));
      SliceSplit(text, pos, next);
    }
  }

  lemma EnclosedSource(text: Str, pos: nat, m: Marker, inner: Str)
    requires TokenSpec(text, pos, Enclosed(m, inner))
    ensures Open(m) + inner + Open(m) == text[pos..pos + Width(Enclosed(m, inner))]
  {
    hide Open;
    EnclosedSlice(text, pos, pos + |Open(m)|, pos + |Open(m)| + |inner|, Open(m));
  }

  lemma StyledSource(text: Str, pos: nat, m: Marker, inner: Str, steps: seq<Step>)
    requires TokenSpec(text, pos, Enclosed(m, inner)) && SourceOf(steps) == inner
    ensures Source(Styled(m, steps)) == text[pos..pos + Width(Enclosed(m, inner))]
  {
    hide TokenSpec, SourceOf, Open;
    EnclosedSource(text, pos, m, inner);
  }

  lemma InnerShorter(text: Str, pos: nat, t: Token)
    requires TokenSpec(text, pos, t) && t.Enclosed?
    ensures t.marker != Backtick && |t.inner| < |text|
  {
  }

  lemma AtomSource(text: Str, pos: nat, step: Step)
    requires TokenSpec(text, pos, Atom(step))
    ensures Source(step) == text[pos..pos + Width(Atom(step))]
  {
  }

  lemma {:induction false} StepSource(text: Str, pos: nat)
    requires pos < |text|
    ensures Source(StepAt(text, pos)) == text[pos..NextAt(text, pos)]
    decreases |text|, |text| - pos, 0
  {
    hide TokenAt, TokenSpec, Source, SourceOf, Open;
    var t := TokenAt(text, pos);
    match t {
      case Atom(step) => AtomSource(text, pos, step);
      case Enclosed(m, inner) =>
        InnerShorter(text, pos, t);
        LexSource(inner, 0);
        WholeSlice(inner);
        StyledSource(text, pos, m, inner, Lex(inner, 0));
        assert StepAt(text, pos) == Styled(m, Lex(inner, 0));
        assert NextAt(text, pos) == pos + Width(Enclosed(m, inner));
    }
  }
}
