/** From steps to nodes, and the budget checks made on the way. */
module Emit {
  import opened Wrappers
  import opened Sets
  import opened Chars
  import opened RichText
  import opened Tokens
  import opened Budget
  import opened Inline

  /** The display names the caller resolves mentions with; `None` stands for undefined or null,
      and for a resolver that is not given. */
  datatype Names = Names(user: Str -> Option<Str>, channel: Str -> Option<Str>, role: Str -> Option<Str>)

  /** What the resolver of a kind of mention answers. */
  function NameOf(names: Names, kind: RefKind, id: Str): Option<Str> {
    match kind
    case UserRef => names.user(id)
    case ChannelRef => names.channel(id)
    case RoleRef => names.role(id)
  }

  /** `resolveLabel`: the name without the blanks around it; missing and blank names count as
      none. */
  function ResolveName(names: Names, kind: RefKind, id: Str): (r: Option<Str>)
    ensures r.None? <==> NameOf(names, kind, id).None? || AllOf(NameOf(names, kind, id).value, IsSpace)
    ensures r.Some? ==>
      && r.value != [] && !IsSpace(r.value[0]) && !IsSpace(r.value[|r.value| - 1])
      && exists lead: nat :: TrimmedFrom(r.value, NameOf(names, kind, id).value, lead)
  {
    var raw := NameOf(names, kind, id);
    if raw.None? then None
    else
      TrimSpec(raw.value);
      if Trim(raw.value) == [] then None else Some(Trim(raw.value))
  }

  predicate IsLiteral(s: Step) { s.Plain? || s.Unsafe? }

  /** The pending text as a node. */
  function Flush(buf: Str, marks: seq<TextMark>): seq<Node> {
    if buf == [] then [] else [TextRun(buf, marks)]
  }

  /** The nodes of `steps` when `buf` is the text gathered so far. */
  function Emit(steps: seq<Step>, buf: Str, marks: seq<TextMark>, names: Names): seq<Node>
    decreases steps
  {
    if steps == [] then Flush(buf, marks)
    else if IsLiteral(steps[0]) then Emit(steps[1..], buf + Source(steps[0]), marks, names)
    else Flush(buf, marks) + StepNodes(steps[0], marks, names) + Emit(steps[1..], [], marks, names)
  }

  function StepNodes(s: Step, marks: seq<TextMark>, names: Names): seq<Node>
    decreases s
  {
    match s
    case Ref(kind, id) => [Mention(kind, id, ResolveName(names, kind, id))]
    case Anchor(l) => [Link(l.url, if l.caption == [] then None else Some(l.caption))]
    case BareUrl(url) => [Link(url, None)]
    case Code(inner) => [TextRun(inner, marks + [Monospace])]
    case Styled(m, steps) => Emit(steps, [], marks + [MarkOf(m)], names)
    case _ => []
  }

  function PeekAt(pos: nat): seq<Event> {
    if pos % 1024 == 0 then [Peek] else []
  }

  function FlushChecks(pending: bool): seq<Event> {
    if pending then [Bump] else []
  }

  /** The checks made while scanning `steps` from `pos` at nesting depth `depth`. */
  function Checks(steps: seq<Step>, pos: nat, pending: bool, depth: nat): seq<Event>
    decreases steps
  {
    if steps == [] then FlushChecks(pending)
    else
      var next := pos + |Source(steps[0])|;
      if IsLiteral(steps[0]) then PeekAt(pos) + Checks(steps[1..], next, true, depth)
      else PeekAt(pos) + FlushChecks(pending) + StepChecks(steps[0], depth) + Checks(steps[1..], next, false, depth)
  }

  function StepChecks(s: Step, depth: nat): seq<Event>
    decreases s
  {
    match s
    case Styled(_, steps) => [Nest(depth + 1)] + Checks(steps, 0, false, depth + 1)
    case _ => [Bump]
  }

  // ---- every node is paid for ------------------------------------------------------

  /** The scanner counts exactly the nodes it emits. */
  lemma {:induction false} ChecksPayForNodes(steps: seq<Step>, pos: nat, buf: Str, marks: seq<TextMark>,
        names: Names, depth: nat)
    ensures Bumps(Checks(steps, pos, buf != [], depth)) == |Emit(steps, buf, marks, names)|
    decreases steps
  {
    hide StepNodes, StepChecks;
    if steps != [] {
      var s := steps[0];
      var next := pos + |Source(s)|;
      if IsLiteral(s) {
        LiteralSource(s);
        ChecksPayForNodes(steps[1..], next, buf + Source(s), marks, names, depth);
        BumpsAppend(PeekAt(pos), Checks(steps[1..], next, true, depth));
      } else {
        ChecksPayForNodes(steps[1..], next, [], marks, names, depth);
        StepPaysForNodes(s, marks, names, depth);
        BumpsOfStep(pos, buf != [], StepChecks(s, depth), Checks(steps[1..], next, false, depth));
      }
    }
  }

  lemma BumpsOfStep(pos: nat, pending: bool, step: seq<Event>, rest: seq<Event>)
    ensures Bumps(PeekAt(pos) + FlushChecks(pending) + step + rest) ==
      (if pending then 1 else 0) + Bumps(step) + Bumps(rest)
  {
    BumpsAppend(PeekAt(pos) + FlushChecks(pending) + step, rest);
    BumpsAppend(PeekAt(pos) + FlushChecks(pending), step);
    BumpsAppend(PeekAt(pos), FlushChecks(pending));
  }

  lemma {:induction false} StepPaysForNodes(s: Step, marks: seq<TextMark>, names: Names, depth: nat)
    requires !IsLiteral(s)
    ensures Bumps(StepChecks(s, depth)) == |StepNodes(s, marks, names)|
    decreases s
  {
    if s.Styled? {
      ChecksPayForNodes(s.steps, 0, [], marks + [MarkOf(s.marker)], names, depth + 1);
      BumpsAppend([Nest(depth + 1)], Checks(s.steps, 0, false, depth + 1));
    }
  }

  lemma LiteralSource(s: Step)
    requires IsLiteral(s)
    ensures Source(s) != []
  {
  }

  // ---- no text is invented ---------------------------------------------------------

  /** The plain text of the nodes is read off the source of the steps, skipping. */
  lemma {:induction false} EmitDraws(steps: seq<Step>, buf: Str, marks: seq<TextMark>, names: Names)
    ensures Draws(PlainOf(Emit(steps, buf, marks, names)), buf + SourceOf(steps))
    decreases steps
  {
    hide StepNodes, LinkToken;
    if steps == [] {
      DrawsSelf(buf);
      NoneAdded(buf);
      PlainOfFlush(buf, marks);
    } else {
      var s := steps[0];
      var rest := steps[1..];
      if IsLiteral(s) {
        EmitDraws(rest, buf + Source(s), marks, names);
        Assoc(buf, Source(s), SourceOf(rest));
      } else {
        EmitDraws(rest, [], marks, names);
        StepDraws(s, marks, names);
        PlainOfFlush(buf, marks);
        DrawsSelf(buf);
        var left := Flush(buf, marks) + StepNodes(s, marks, names);
        var right := Emit(rest, [], marks, names);
        PlainAppend(Flush(buf, marks), StepNodes(s, marks, names));
        PlainAppend(left, right);
        DrawsConcat(buf, buf, PlainOf(StepNodes(s, marks, names)), Source(s));
        NoneAdded(SourceOf(rest));
        DrawsConcat(PlainOf(left), buf + Source(s), PlainOf(right), SourceOf(rest));
        Assoc(buf, Source(s), SourceOf(rest));
      }
    }
  }

  lemma PlainOfFlush(buf: Str, marks: seq<TextMark>)
    ensures PlainOf(Flush(buf, marks)) == buf
  {
    if buf != [] { PlainOfOne(TextRun(buf, marks)); }
  }

  lemma PlainOfOne(n: Node)
    ensures PlainOf([n]) == AstToPlain(n)
  {
    assert PlainOf([n]) == AstToPlain(n) + PlainOf([]);
  }

  lemma {:induction false} StepDraws(s: Step, marks: seq<TextMark>, names: Names)
    requires !IsLiteral(s)
    ensures Draws(PlainOf(StepNodes(s, marks, names)), Source(s))
    decreases s
  {
    match s {
      case Ref(kind, id) =>
        PlainOfOne(Mention(kind, id, ResolveName(names, kind, id)));
      case Anchor(l) =>
        var plain := if l.caption == [] then l.url else l.caption;
        PlainOfOne(StepNodes(s, marks, names)[0]);
        AnchorDraws(l, plain);
      case BareUrl(url) =>
        PlainOfOne(Link(url, None));
        DrawsSelf(url);
      case Code(inner) =>
        PlainOfOne(TextRun(inner, marks + [Monospace]));
        DrawsInside(inner, inner, Open(Backtick));
      case Styled(m, steps) =>
        EmitDraws(steps, [], marks + [MarkOf(m)], names);
        assert [] + SourceOf(steps) == SourceOf(steps);
        DrawsInside(PlainOf(StepNodes(s, marks, names)), SourceOf(steps), Open(m));
      case _ =>
    }
  }

  lemma DrawsInside(p: Str, r: Str, fence: Str)
    requires Draws(p, r) || p == r
    ensures Draws(p, fence + r + fence)
  {
    if p == r { DrawsSelf(p); }
    DrawsPad(p, fence, r);
    DrawsConcat(p, fence + r, [], fence);
    assert p + [] == p;
  }

  lemma AnchorDraws(l: LinkParts, plain: Str)
    requires plain == l.url || plain == l.caption
    ensures Draws(plain, LinkToken(l))
  {
    var left := [0x5B] + l.caption + [0x5D, 0x28];
    DrawsSelf(plain);
    if plain == l.url {
      DrawsPad(plain, left, l.url);
      DrawsConcat(plain, left + l.url, [], [0x29]);
      assert plain + [] == plain;
    } else {
      DrawsPad(plain, [0x5B], l.caption);
      DrawsConcat(plain, [0x5B] + l.caption, [], [0x5D, 0x28] + l.url + [0x29]);
      assert plain + [] == plain;
      assert ([0x5B] + l.caption) + ([0x5D, 0x28] + l.url + [0x29]) == LinkToken(l);
    }
  }

  // ---- every node is well formed -----------------------------------------------------

  predicate StepValid(s: Step)
    decreases s
  {
    match s
    case Ref(_, id) => IsTokenId(id)
    case Anchor(l) => LinkForm(l) && IsSafeLinkUrl(l.url)
    case BareUrl(url) => UrlForm(url)
    case Styled(m, steps) => m != Backtick && StepsValid(steps)
    case _ => true
  }

  predicate StepsValid(steps: seq<Step>)
    decreases steps
  {
    steps == [] || (StepValid(steps[0]) && StepsValid(steps[1..]))
  }

  lemma AtomValid(rest: Str)
    ensures AtomAt(rest).Some? ==> StepValid(AtomAt(rest).value)
  {
  }

  lemma StepsValidCons(s: Step, rest: seq<Step>)
    requires StepValid(s) && StepsValid(rest)
    ensures StepsValid([s] + rest)
  {
    assert ([s] + rest)[1..] == rest;
  }

  lemma {:induction false} LexValid(text: Str, pos: nat)
    requires pos <= |text|
    ensures StepsValid(Lex(text, pos))
    decreases |text|, |text| - pos
  {
    hide TokenAt, TokenSpec;
    if pos < |text| {
      LexValid(text, NextAt(text, pos));
      TokenValid(text, pos);
      var t := TokenAt(text, pos);
      if t.Enclosed? {
        InnerShorter(text, pos, t);
        LexValid(t.inner, 0);
      }
      StepsValidCons(StepAt(text, pos), Lex(text, NextAt(text, pos)));
      LexUnfold(text, pos);
    }
  }

  lemma TokenValid(text: Str, pos: nat)
    requires pos < |text|
    ensures TokenAt(text, pos).Atom? ==> StepValid(TokenAt(text, pos).step)
  {
    AtomValid(text[pos..]);
  }

  /** A bare url is a safe link. */
  lemma UrlSafe(u: Str)
    requires UrlForm(u)
    ensures IsSafeLinkUrl(u)
  {
    assert forall i :: 0 <= i < |u| ==> !IsSpace(u[i]) by {
      forall i | 0 <= i < |u| ensures !IsSpace(u[i]) {
        var p := UrlHead(u);
        if i < p {
          assert u[i] in [0x68, 0x74, 0x70, 0x73, 0x3A, 0x2F];
        }
      }
    }
    assert !IsSpace(u[0]);
    assert Run(u, 0, IsSpace) == 0;
    assert u[0..] == u;
    assert Trim(u) == u;
    assert HasHttpScheme(u);
  }

  /** The nodes the scanner makes: no custom emoji, safe links, well-formed mention ids. */
  predicate Sound(n: Node) {
    match n
    case TextRun(_, _) => true
    case Mention(_, id, display) => IsTokenId(id) && display != Some([])
    case Link(url, _) => IsSafeLinkUrl(url)
    case _ => false
  }

  lemma {:induction false} EmitSound(steps: seq<Step>, buf: Str, marks: seq<TextMark>, names: Names)
    requires StepsValid(steps)
    ensures forall n :: n in Emit(steps, buf, marks, names) ==> Sound(n)
    decreases steps
  {
    if steps != [] {
      if IsLiteral(steps[0]) {
        EmitSound(steps[1..], buf + Source(steps[0]), marks, names);
      } else {
        EmitSound(steps[1..], [], marks, names);
        StepSound(steps[0], marks, names);
      }
    }
  }

  lemma {:induction false} StepSound(s: Step, marks: seq<TextMark>, names: Names)
    requires StepValid(s)
    ensures forall n :: n in StepNodes(s, marks, names) ==> Sound(n)
    decreases s
  {
    match s {
      case BareUrl(url) => UrlSafe(url);
      case Styled(m, steps) => EmitSound(steps, [], marks + [MarkOf(m)], names);
      case _ =>
    }
  }

  // ---- nesting ------------------------------------------------------------------------

  /** Along every nesting chain no marker repeats, and none of `used` occurs. */
  predicate Chain(steps: seq<Step>, used: set<Marker>)
    decreases steps
  {
    steps == [] || (StepChain(steps[0], used) && Chain(steps[1..], used))
  }

  predicate StepChain(s: Step, used: set<Marker>)
    decreases s
  {
    s.Styled? ==> s.marker !in used && s.marker != Backtick && Chain(s.steps, used + {s.marker})
  }

  ghost predicate Free(text: Str, m: Marker) {
    forall k: nat :: !StartsWith(text, Open(m), k)
  }

  lemma InnerFree(text: Str, from: nat, inner: Str, m: Marker)
    requires from + |inner| <= |text| && inner == text[from..from + |inner|]
    requires forall k :: from <= k < from + |inner| ==> !StartsWith(text, Open(m), k)
    ensures Free(inner, m)
  {
    var open := Open(m);
    forall k: nat ensures !StartsWith(inner, open, k) {
      if k + |open| <= |inner| {
        SliceOfSlice(text, from, from + |inner|, k, k + |open|);
        assert !StartsWith(text, open, from + k);
      }
    }
  }

  lemma SliceOfSlice(text: Str, from: nat, to: nat, a: nat, b: nat)
    requires from <= to <= |text| && a <= b <= to - from
    ensures text[from..to][a..b] == text[from + a..from + b]
  {
    assert forall i :: 0 <= i < b - a ==> text[from..to][a..b][i] == text[from + a + i];
  }

  /** A marker that opens a span is not among those the text is free of, and its inner text
      is free of one more. */
  lemma EnclosedFree(text: Str, pos: nat, t: Token, used: set<Marker>)
    requires pos < |text| && t.Enclosed? && TokenSpec(text, pos, t)
    requires forall m :: m in used ==> Free(text, m)
    ensures t.marker !in used && t.marker != Backtick
    ensures forall m :: m in used + {t.marker} ==> Free(t.inner, m)
  {
    var from := pos + |Open(t.marker)|;
    assert StartsWith(text, Open(t.marker), pos);
    InnerFree(text, from, t.inner, t.marker);
    forall m | m in used ensures Free(t.inner, m) {
      InnerFree(text, from, t.inner, m);
    }
  }

  /** Nearest-close search leaves every inner piece free of its own marker, so no marker
      repeats along a nesting chain. */
  lemma {:induction false} LexChain(text: Str, pos: nat, used: set<Marker>)
    requires pos <= |text| && forall m :: m in used ==> Free(text, m)
    ensures Chain(Lex(text, pos), used)
    decreases |text|, |text| - pos
  {
    hide TokenAt;
    if pos < |text| {
      LexChain(text, NextAt(text, pos), used);
      var t := TokenAt(text, pos);
      if t.Enclosed? {
        EnclosedFree(text, pos, t, used);
        LexChain(t.inner, 0, used + {t.marker});
      }
      ChainCons(StepAt(text, pos), Lex(text, NextAt(text, pos)), used);
      LexUnfold(text, pos);
    }
  }

  lemma ChainCons(s: Step, rest: seq<Step>, used: set<Marker>)
    requires StepChain(s, used) && Chain(rest, used)
    ensures Chain([s] + rest, used)
  {
    assert ([s] + rest)[1..] == rest;
  }

  const STYLES: set<Marker> := {DoubleTilde, DoublePipe, DoubleStar, Star, Underscore}

  lemma StylesBound(used: set<Marker>)
    requires Backtick !in used
    ensures |used| <= 5
  {
    assert used <= STYLES by {
      forall m | m in used ensures m in STYLES { assert m != Backtick; }
    }
    SubsetSize(used, STYLES);
    assert |STYLES| == 5;
  }

  lemma DepthsAppend(a: seq<Event>, b: seq<Event>, limit: nat)
    requires DepthsWithin(a, limit) && DepthsWithin(b, limit)
    ensures DepthsWithin(a + b, limit)
  {
  }

  lemma PlainShallow(pos: nat, pending: bool, limit: nat)
    ensures DepthsWithin(PeekAt(pos), limit) && DepthsWithin(FlushChecks(pending), limit)
  {
  }

  /** A chain is never deeper than the five styling markers. */
  lemma {:induction false} ChainDepth(steps: seq<Step>, used: set<Marker>, pos: nat, pending: bool)
    requires Chain(steps, used) && Backtick !in used
    ensures DepthsWithin(Checks(steps, pos, pending, |used|), 5)
    decreases steps
  {
    hide DepthsWithin, Source, StepChecks, IsLiteral, StepChain, PeekAt, FlushChecks;
    PlainShallow(pos, pending, 5);
    if steps != [] {
      var next := pos + |Source(steps[0])|;
      var literal := IsLiteral(steps[0]);
      var rest := Checks(steps[1..], next, literal, |used|);
      ChainDepth(steps[1..], used, next, literal);
      if literal {
        DepthsAppend(PeekAt(pos), rest, 5);
      } else {
        StepChainDepth(steps[0], used);
        DepthsAppend(PeekAt(pos), FlushChecks(pending), 5);
        DepthsAppend(PeekAt(pos) + FlushChecks(pending), StepChecks(steps[0], |used|), 5);
        DepthsAppend(PeekAt(pos) + FlushChecks(pending) + StepChecks(steps[0], |used|), rest, 5);
      }
    }
  }

  lemma {:induction false} StepChainDepth(s: Step, used: set<Marker>)
    requires StepChain(s, used) && Backtick !in used
    ensures DepthsWithin(StepChecks(s, |used|), 5)
    decreases s
  {
    if s.Styled? {
      var more := used + {s.marker};
      StylesBound(more);
      assert |more| == |used| + 1;
      ChainDepth(s.steps, more, 0, false);
      DepthsAppend([Nest(|more|)], Checks(s.steps, 0, false, |more|), 5);
    }
  }

  /** The marks of a text are at most the five styles and `code`. */
  lemma {:induction false} ChainMarks(steps: seq<Step>, used: set<Marker>, buf: Str, marks: seq<TextMark>, names: Names)
    requires Chain(steps, used) && Backtick !in used && |marks| == |used|
    ensures forall n :: n in Emit(steps, buf, marks, names) && n.TextRun? ==> |n.marks| <= 6
    decreases steps
  {
    StylesBound(used);
    if steps != [] {
      ChainMarks(steps[1..], used, [], marks, names);
      ChainMarks(steps[1..], used, buf + Source(steps[0]), marks, names);
      if steps[0].Styled? {
        var m := steps[0].marker;
        assert |used + {m}| == |used| + 1;
        ChainMarks(steps[0].steps, used + {m}, [], marks + [MarkOf(m)], names);
      }
    }
  }
}
