/** The parser itself: scanners that advance a position over the text, share one scan state
    and stop at the first budget that runs out. Each is proved to return what Document says
    and to leave the state it says. */
module Parser {
  import opened Wrappers
  import opened Chars
  import opened RichText
  import opened Tokens
  import opened Budget
  import opened Inline
  import opened Emit
  import opened Document

  /** `r` and the state reached are what performing the checks `es` from `before` allows. */
  ghost predicate Agrees<T>(before: Scan, es: seq<Event>, r: Result<T, ParseError>, value: T, after: Scan) {
    match Consume(before, es)
    case Ok(s) => r == Ok(value) && after == s
    case Err(e) => r == Err(e)
  }

  /** Node counter and clock, shared by a whole parse. */
  class ScanState {
    var nodeCount: nat
    var clock: nat
    const names: Names

    constructor (clock: nat, names: Names)
      ensures State() == Scan(1, clock) && this.names == names
    {
      nodeCount := 1; // root
      this.clock := clock;
      this.names := names;
    }

    ghost function State(): Scan
      reads this
    {
      Scan(nodeCount, clock)
    }

    /** A look at the clock. */
    method Peek() returns (r: Result<(), ParseError>)
      modifies this
      ensures Agrees(old(State()), [Event.Peek], r, (), State())
    {
      if clock == 0 {
        return Err(ParseTimeout);
      }
      clock := clock - 1;
      return Ok(());
    }

    method BumpNode() returns (r: Result<(), ParseError>)
      modifies this
      ensures Agrees(old(State()), [Bump], r, (), State())
    {
      if nodeCount + 1 > MAX_NODES {
        return Err(ParseNodeLimit);
      }
      nodeCount := nodeCount + 1;
      r := Peek();
    }
  }

  // ---- one turn of the scanner ---------------------------------------------------------------

  lemma AtAtom(text: Str, pos: nat)
    requires pos < |text| && AtomAt(text[pos..]).Some?
    ensures var s := AtomAt(text[pos..]).value;
      StepAt(text, pos) == s && NextAt(text, pos) == pos + |Source(s)| && !s.Styled?
  {
    hide AtomAt, TokenSpec, MarkerToken;
    AtomFits(text[pos..]);
    assert TokenAt(text, pos) == Atom(AtomAt(text[pos..]).value);
  }

  lemma AtMarker(text: Str, pos: nat, m: Marker, close: nat)
    requires pos < |text| && AtomAt(text[pos..]).None? && MatchMarker(text, pos) == Some(m)
    requires CloseAt(text, pos + |Open(m)|, Open(m)) == Some(close)
    ensures var from := pos + |Open(m)|;
      && from <= close <= |text| && close + |Open(m)| == NextAt(text, pos)
      && StepAt(text, pos) ==
        if MarkOf(m) == Monospace then Code(text[from..close]) else Styled(m, Lex(text[from..close], 0))
  {
    hide AtomAt, TokenSpec, MatchMarker, CloseAt, StartsWith;
    var from := pos + |Open(m)|;
    EnclosedSpec(text, pos, m, close);
    var inner := text[from..close];
    assert |inner| == close - from;
    if MarkOf(m) == Monospace {
      assert m == Backtick;
      assert MarkerToken(text, pos) == Some(Atom(Code(inner)));
      assert TokenAt(text, pos) == Atom(Code(inner));
      assert StepAt(text, pos) == Code(inner);
      assert Width(Atom(Code(inner))) == |inner| + 2;
      assert NextAt(text, pos) == pos + |inner| + 2;
    } else {
      assert MarkerToken(text, pos) == Some(Enclosed(m, inner));
      assert TokenAt(text, pos) == Enclosed(m, inner);
      assert StepAt(text, pos) == Styled(m, Lex(inner, 0));
      assert NextAt(text, pos) == pos + 2 * |Open(m)| + |inner|;
    }
  }

  lemma AtPlain(text: Str, pos: nat)
    requires pos < |text| && AtomAt(text[pos..]).None?
    requires var m := MatchMarker(text, pos);
      m.Some? ==> CloseAt(text, pos + |Open(m.value)|, Open(m.value)).None?
    ensures StepAt(text, pos) == Plain(text[pos]) && NextAt(text, pos) == pos + 1
  {
    hide AtomAt, TokenSpec, MatchMarker, CloseAt, StartsWith;
    assert TokenAt(text, pos) == Atom(Plain(text[pos]));
  }

  lemma StepWidth(text: Str, pos: nat)
    requires pos < |text|
    ensures pos + |Source(StepAt(text, pos))| == NextAt(text, pos)
  {
    StepSource(text, pos);
    assert |text[pos..NextAt(text, pos)]| == NextAt(text, pos) - pos;
  }

  /** What a turn that only gathers text does to the rest of the run. */
  lemma LiteralTurn(text: Str, pos: nat, buf: Str, marks: seq<TextMark>, names: Names, depth: nat)
    requires pos < |text| && IsLiteral(StepAt(text, pos))
    ensures var next := NextAt(text, pos); var s := StepAt(text, pos);
      && Checks(Lex(text, pos), pos, buf != [], depth) == PeekAt(pos) + Checks(Lex(text, next), next, true, depth)
      && Emit.Emit(Lex(text, pos), buf, marks, names) == Emit.Emit(Lex(text, next), buf + Source(s), marks, names)
      && buf + Source(s) != []
  {
    hide StepAt, NextAt, Lex;
    LexUnfold(text, pos);
    StepWidth(text, pos);
    var steps := [StepAt(text, pos)] + Lex(text, NextAt(text, pos));
    TailOfAppend([StepAt(text, pos)], Lex(text, NextAt(text, pos)));
    NoneAdded(Lex(text, NextAt(text, pos)));
    assert steps[1..] == Lex(text, NextAt(text, pos));
    LiteralSource(StepAt(text, pos));
  }

  /** What a turn that makes nodes does to the rest of the run. */
  lemma NodeTurn(text: Str, pos: nat, buf: Str, marks: seq<TextMark>, names: Names, depth: nat)
    requires pos < |text| && !IsLiteral(StepAt(text, pos))
    ensures var next := NextAt(text, pos); var s := StepAt(text, pos);
      && Checks(Lex(text, pos), pos, buf != [], depth) ==
           PeekAt(pos) + (FlushChecks(buf != []) + StepChecks(s, depth)) + Checks(Lex(text, next), next, false, depth)
      && Emit.Emit(Lex(text, pos), buf, marks, names) ==
           Flush(buf, marks) + StepNodes(s, marks, names) + Emit.Emit(Lex(text, next), [], marks, names)
  {
    hide StepAt, NextAt, Lex;
    LexUnfold(text, pos);
    StepWidth(text, pos);
    var s := StepAt(text, pos);
    TailOfAppend([s], Lex(text, NextAt(text, pos)));
    NoneAdded(Lex(text, NextAt(text, pos)));
    Assoc(PeekAt(pos), FlushChecks(buf != []), StepChecks(s, depth));
  }

  /** Performing three groups of checks one after the other. */
  lemma ConsumeThree(s: Scan, a: seq<Event>, b: seq<Event>, c: seq<Event>)
    ensures Consume(s, a + b + c) ==
      match Consume(s, a)
      case Err(e) => Err(e)
      case Ok(s1) =>
        match Consume(s1, b)
        case Err(e) => Err(e)
        case Ok(s2) => Consume(s2, c)
  {
    ConsumeAppend(s, a + b, c);
    ConsumeAppend(s, a, b);
  }

  method FlushText(buf: Str, marks: seq<TextMark>, state: ScanState) returns (r: Result<seq<Node>, ParseError>)
    modifies state
    ensures Agrees(old(state.State()), FlushChecks(buf != []), r, Flush(buf, marks), state.State())
  {
    if buf == [] {
      return Ok([]);
    }
    var _ :- state.BumpNode();
    return Ok([TextRun(buf, marks)]);
  }

  /** The pending text and one more node. */
  method FlushAndPush(buf: Str, marks: seq<TextMark>, node: Node, state: ScanState) returns (r: Result<seq<Node>,
        ParseError>)
    modifies state
    ensures Agrees(old(state.State()), FlushChecks(buf != []) + [Bump], r, Flush(buf, marks) + [node], state.State())
  {
    ConsumeAppend(state.State(), FlushChecks(buf != []), [Bump]);
    var flushed :- FlushText(buf, marks, state);
    var _ :- state.BumpNode();
    return Ok(flushed + [node]);
  }

  /** The pending text and the nodes of an inner run. */
  method FlushAndNest(buf: Str, marks: seq<TextMark>, inner: Str, mark: TextMark, state: ScanState)
    returns (r: Result<seq<Node>, ParseError>)
    modifies state
    ensures Agrees(old(state.State()), FlushChecks(buf != []) + RunChecks(inner, |marks| + 1), r,
      Flush(buf, marks) + Emit.Emit(Lex(inner, 0), [], marks + [mark], state.names), state.State())
    decreases |inner|, 3
  {
    hide Lex, Checks, Emit.Emit, RunChecks, Consume, FlushChecks, Flush;
    ConsumeAppend(state.State(), FlushChecks(buf != []), RunChecks(inner, |marks| + 1));
    var flushed :- FlushText(buf, marks, state);
    var nodes :- ParseInlineRun(inner, marks + [mark], state);
    return Ok(flushed + nodes);
  }

  /** Where the scanner stands: the nodes made, the text gathered and the position. */
  datatype Progress = Progress(out: seq<Node>, buf: Str, pos: nat)

  ghost function NodesFrom(text: Str, p: Progress, marks: seq<TextMark>, names: Names): seq<Node>
    requires p.pos <= |text|
  {
    p.out + Emit.Emit(Lex(text, p.pos), p.buf, marks, names)
  }

  ghost function ChecksFrom(text: Str, p: Progress, depth: nat): seq<Event>
    requires p.pos <= |text|
  {
    Checks(Lex(text, p.pos), p.pos, p.buf != [], depth)
  }

  /** A turn keeps what the run will produce and what it will check. */
  ghost predicate TurnKeeps(text: Str, p: Progress, marks: seq<TextMark>, names: Names, before: Scan,
        r: Result<Progress, ParseError>, after: Scan)
    requires p.pos <= |text|
  {
    match r
    case Ok(q) =>
      && p.pos < q.pos <= |text|
      && NodesFrom(text, q, marks, names) == NodesFrom(text, p, marks, names)
      && Consume(after, ChecksFrom(text, q, |marks|)) == Consume(before, ChecksFrom(text, p, |marks|))
    case Err(e) => Consume(before, ChecksFrom(text, p, |marks|)) == Err(e)
  }

  /** Gathering one step of text after the clock has been looked at. */
  lemma LiteralKeeps(text: Str, p: Progress, marks: seq<TextMark>, names: Names, before: Scan, after: Scan)
    requires p.pos < |text| && IsLiteral(StepAt(text, p.pos))
    requires Consume(before, PeekAt(p.pos)) == Ok(after)
    ensures var q := Progress(p.out, p.buf + Source(StepAt(text, p.pos)), NextAt(text, p.pos));
      TurnKeeps(text, p, marks, names, before, Ok(q), after)
  {
    hide StepAt, NextAt, Lex, Checks, Emit.Emit, Source;
    LiteralTurn(text, p.pos, p.buf, marks, names, |marks|);
    ConsumeAppend(before, PeekAt(p.pos), Checks(Lex(text, NextAt(text, p.pos)), NextAt(text, p.pos), true, |marks|));
  }

  /** Making the nodes of one step after the clock has been looked at. */
  lemma NodesKeep(text: Str, p: Progress, marks: seq<TextMark>, names: Names, before: Scan, peeked: Scan,
        nodes: Result<seq<Node>, ParseError>, after: Scan)
    requires p.pos < |text| && !IsLiteral(StepAt(text, p.pos))
    requires Consume(before, PeekAt(p.pos)) == Ok(peeked)
    requires Agrees(peeked, FlushChecks(p.buf != []) + StepChecks(StepAt(text, p.pos), |marks|), nodes,
      Flush(p.buf, marks) + StepNodes(StepAt(text, p.pos), marks, names), after)
    ensures var r := match nodes case Ok(ns) => Ok(Progress(p.out + ns, [], NextAt(text, p.pos))) case Err(e) => Err(e);
      TurnKeeps(text, p, marks, names, before, r, after)
  {
    hide StepAt, NextAt, Lex, Checks, Emit.Emit, StepNodes, StepChecks;
    var s := StepAt(text, p.pos);
    var next := NextAt(text, p.pos);
    NodeTurn(text, p.pos, p.buf, marks, names, |marks|);
    ConsumeThree(before, PeekAt(p.pos), FlushChecks(p.buf != []) + StepChecks(s, |marks|),
      Checks(Lex(text, next), next, false, |marks|));
    Assoc(p.out, Flush(p.buf, marks) + StepNodes(s, marks, names), Emit.Emit(Lex(text, next), [], marks, names));
  }

  lemma PeekFails(text: Str, p: Progress, marks: seq<TextMark>, before: Scan, e: ParseError)
    requires p.pos < |text| && Consume(before, PeekAt(p.pos)) == Err(e)
    ensures Consume(before, ChecksFrom(text, p, |marks|)) == Err(e)
  {
    hide StepAt, NextAt, Lex, Checks, Emit.Emit, StepNodes, StepChecks;
    var next := NextAt(text, p.pos);
    var s := StepAt(text, p.pos);
    var names := Names(_ => None, _ => None, _ => None);
    if IsLiteral(s) {
      LiteralTurn(text, p.pos, p.buf, marks, names, |marks|);
      ConsumeAppend(before, PeekAt(p.pos), Checks(Lex(text, next), next, true, |marks|));
    } else {
      NodeTurn(text, p.pos, p.buf, marks, names, |marks|);
      ConsumeThree(before, PeekAt(p.pos), FlushChecks(p.buf != []) + StepChecks(s, |marks|),
        Checks(Lex(text, next), next, false, |marks|));
    }
  }

  /** The clock is looked at every 1024 positions. */
  method PeekEvery(pos: nat, state: ScanState) returns (r: Result<(), ParseError>)
    modifies state
    ensures Agrees(old(state.State()), PeekAt(pos), r, (), state.State())
  {
    if pos % 1024 == 0 {
      r := state.Peek();
    } else {
      return Ok(());
    }
  }

  /** The node of a mention or a link. */
  method MakeNode(s: Step, marks: seq<TextMark>, names: Names) returns (node: Node)
    requires s.Ref? || s.Anchor? || s.BareUrl?
    ensures StepNodes(s, marks, names) == [node] && StepChecks(s, |marks|) == [Bump]
  {
    match s {
      case Ref(kind, id) => node := Mention(kind, id, ResolveName(names, kind, id));
      case Anchor(l) => node := Link(l.url, if l.caption == [] then None else Some(l.caption));
      case BareUrl(url) => node := Link(url, None);
    }
  }

  lemma AtomKinds(rest: Str)
    requires AtomAt(rest).Some?
    ensures var s := AtomAt(rest).value; s.Unsafe? || s.Ref? || s.Anchor? || s.BareUrl?
  {
    hide MatchRef, MatchLink, MatchUrl, IsSafeLinkUrl;
  }

  /** One turn of the scanner at a mention or a link. */
  method AtomTurn(text: Str, p: Progress, activeMarks: seq<TextMark>, state: ScanState, ghost before: Scan)
    returns (r: Result<Progress, ParseError>)
    requires p.pos < |text| && AtomAt(text[p.pos..]).Some?
    requires Consume(before, PeekAt(p.pos)) == Ok(state.State())
    modifies state
    ensures TurnKeeps(text, p, activeMarks, state.names, before, r, state.State())
  {
    hide StepAt, NextAt, Lex, AtomAt, Checks, Emit.Emit, StepNodes, StepChecks, TurnKeeps, LinkToken;
    var step := AtomAt(text[p.pos..]).value;
    AtomKinds(text[p.pos..]);
    AtAtom(text, p.pos);
    ghost var peeked := state.State();
    if step.Unsafe? {
      // an active scheme: the whole token stays literal text
      LiteralKeeps(text, p, activeMarks, state.names, before, peeked);
      return Ok(Progress(p.out, p.buf + LinkToken(step.link), p.pos + |LinkToken(step.link)|));
    }
    var node := MakeNode(step, activeMarks, state.names);
    var nodes := FlushAndPush(p.buf, activeMarks, node, state);
    NodesKeep(text, p, activeMarks, state.names, before, peeked, nodes, state.State());
    if nodes.Err? {
      return Err(nodes.error);
    }
    return Ok(Progress(p.out + nodes.value, [], p.pos + |Source(step)|));
  }

  /** One turn of the scanner at a marker that has a close. */
  method MarkerTurn(text: Str, p: Progress, marker: Marker, close: nat, activeMarks: seq<TextMark>,
        state: ScanState, ghost before: Scan)
    returns (r: Result<Progress, ParseError>)
    requires p.pos < |text| && AtomAt(text[p.pos..]).None? && MatchMarker(text, p.pos) == Some(marker)
    requires CloseAt(text, p.pos + |Open(marker)|, Open(marker)) == Some(close)
    requires Consume(before, PeekAt(p.pos)) == Ok(state.State())
    modifies state
    ensures TurnKeeps(text, p, activeMarks, state.names, before, r, state.State())
    decreases |text|, 0
  {
    hide StepAt, NextAt, Lex, AtomAt, MatchMarker, CloseAt, Checks, Emit.Emit, TurnKeeps, MarkOf, Open;
    AtMarker(text, p.pos, marker, close);
    var innerRaw := text[p.pos + |Open(marker)|..close];
    ghost var peeked := state.State();
    var nodes: Result<seq<Node>, ParseError>;
    if MarkOf(marker) == Monospace {
      // the contents of inline code are literal
      nodes := FlushAndPush(p.buf, activeMarks, TextRun(innerRaw, activeMarks + [Monospace]), state);
    } else {
      nodes := FlushAndNest(p.buf, activeMarks, innerRaw, MarkOf(marker), state);
    }
    NodesKeep(text, p, activeMarks, state.names, before, peeked, nodes, state.State());
    if nodes.Err? {
      return Err(nodes.error);
    }
    return Ok(Progress(p.out + nodes.value, [], close + |Open(marker)|));
  }

  /** One turn of the scanner. */
  method Turn(text: Str, p: Progress, activeMarks: seq<TextMark>, state: ScanState) returns (r: Result<Progress,
        ParseError>)
    requires p.pos < |text|
    modifies state
    ensures TurnKeeps(text, p, activeMarks, state.names, old(state.State()), r, state.State())
    decreases |text|, 1
  {
    hide StepAt, NextAt, Lex, AtomAt, MatchMarker, CloseAt, Checks, Emit.Emit, Open;
    ghost var before := state.State();
    var peeked := PeekEvery(p.pos, state);
    if peeked.Err? {
      PeekFails(text, p, activeMarks, before, peeked.error);
      return Err(peeked.error);
    }
    if AtomAt(text[p.pos..]).Some? {
      r := AtomTurn(text, p, activeMarks, state, before);
      return;
    }
    var marker := MatchMarker(text, p.pos);
    if marker.Some? {
      var closeIdx := FindClose(text, p.pos + |Open(marker.value)|, Open(marker.value));
      if closeIdx != -1 {
        r := MarkerTurn(text, p, marker.value, closeIdx, activeMarks, state, before);
        return;
      }
    }
    // no token, or a marker without a close: one literal unit
    AtPlain(text, p.pos);
    LiteralKeeps(text, p, activeMarks, state.names, before, state.State());
    return Ok(Progress(p.out, p.buf + [text[p.pos]], p.pos + 1));
  }

  lemma RunEnds(text: Str, p: Progress, marks: seq<TextMark>, names: Names, depth: nat)
    requires p.pos == |text|
    ensures ChecksFrom(text, p, depth) == FlushChecks(p.buf != [])
    ensures NodesFrom(text, p, marks, names) == p.out + Flush(p.buf, marks)
  {
  }

  method ParseInlineRun(text: Str, activeMarks: seq<TextMark>, state: ScanState) returns (r: Result<seq<Node>,
        ParseError>)
    modifies state
    ensures Agrees(old(state.State()), RunChecks(text, |activeMarks|), r,
      Emit.Emit(Lex(text, 0), [], activeMarks, state.names), state.State())
    decreases |text|, 2
  {
    hide Lex, Checks, Emit.Emit;
    ghost var depth := |activeMarks|;
    ghost var before := state.State();
    ConsumeAppend(before, [Nest(depth)], Checks(Lex(text, 0), 0, false, depth));
    if |activeMarks| > MAX_DEPTH {
      return Err(ParseDepthExceeded);
    }
    var p := Progress([], [], 0);
    NoneAdded(Emit.Emit(Lex(text, 0), [], activeMarks, state.names));
    while p.pos < |text|
      invariant p.pos <= |text|
      invariant Consume(state.State(), ChecksFrom(text, p, depth)) == Consume(before, RunChecks(text, depth))
      invariant NodesFrom(text, p, activeMarks, state.names) == Emit.Emit(Lex(text, 0), [], activeMarks, state.names)
      decreases |text| - p.pos
    {
      p :- Turn(text, p, activeMarks, state);
    }
    RunEnds(text, p, activeMarks, state.names, depth);
    var last :- FlushText(p.buf, activeMarks, state);
    return Ok(p.out + last);
  }
}
