/** The parser's budgets: node count, nesting depth and the time limit, as the sequence of
    checks a parse performs. A check that fails ends the parse, so only the first reading of
    the clock that comes after the deadline matters: `clock` is the number of readings
    before it, and any nat is possible. */
module Budget {
  import opened Wrappers
  import opened RichText

  datatype ParseError = ParseTimeout | ParseDepthExceeded | ParseNodeLimit

  datatype Scan = Scan(nodeCount: nat, clock: nat)

  datatype Event =
    | Bump               // bumpNode: one more node, then a look at the clock
    | Peek               // a look at the clock from the scanning loop
    | Nest(depth: nat)   // a depth to compare with MAX_DEPTH

  function Perform(s: Scan, e: Event): Result<Scan, ParseError> {
    match e
    case Bump =>
      if s.nodeCount + 1 > MAX_NODES then Err(ParseNodeLimit)
      else if s.clock == 0 then Err(ParseTimeout)
      else Ok(Scan(s.nodeCount + 1, s.clock - 1))
    case Peek => if s.clock == 0 then Err(ParseTimeout) else Ok(Scan(s.nodeCount, s.clock - 1))
    case Nest(d) => if d > MAX_DEPTH then Err(ParseDepthExceeded) else Ok(s)
  }

  function Consume(s: Scan, es: seq<Event>): Result<Scan, ParseError>
    decreases es
  {
    if es == [] then Ok(s)
    else
      match Perform(s, es[0])
      case Ok(s') => Consume(s', es[1..])
      case Err(e) => Err(e)
  }

  lemma {:induction false} ConsumeAppend(s: Scan, a: seq<Event>, b: seq<Event>)
    ensures Consume(s, a + b) ==
      match Consume(s, a) case Ok(s') => Consume(s', b) case Err(e) => Err(e)
    decreases a
  {
    if a == [] {
      assert a + b == b;
    } else {
      assert (a + b)[1..] == a[1..] + b;
      match Perform(s, a[0]) {
        case Ok(s') => ConsumeAppend(s', a[1..], b);
        case Err(_) =>
      }
    }
  }

  function Bumps(es: seq<Event>): nat {
    if es == [] then 0 else (if es[0] == Bump then 1 else 0) + Bumps(es[1..])
  }

  /** How often the clock is read. */
  function Readings(es: seq<Event>): nat {
    if es == [] then 0 else (if es[0].Nest? then 0 else 1) + Readings(es[1..])
  }

  predicate DepthsWithin(es: seq<Event>, limit: nat) {
    forall i :: 0 <= i < |es| && es[i].Nest? ==> es[i].depth <= limit
  }

  lemma {:induction false} BumpsAppend(a: seq<Event>, b: seq<Event>)
    ensures Bumps(a + b) == Bumps(a) + Bumps(b)
  {
    if a == [] {
      assert a + b == b;
    } else {
      assert (a + b)[1..] == a[1..] + b;
      BumpsAppend(a[1..], b);
    }
  }

  /** A sequence of checks passes exactly when every budget covers the whole of it, and then
      the counters have moved by exactly the checks made. */
  lemma {:induction false} ConsumeOk(s: Scan, es: seq<Event>)
    requires s.nodeCount <= MAX_NODES
    ensures Consume(s, es).Ok? <==>
      s.nodeCount + Bumps(es) <= MAX_NODES && Readings(es) <= s.clock && DepthsWithin(es, MAX_DEPTH)
    ensures Consume(s, es).Ok? ==>
      Consume(s, es).value == Scan(s.nodeCount + Bumps(es), s.clock - Readings(es))
    decreases es
  {
    if es != [] {
      assert DepthsWithin(es, MAX_DEPTH) <==>
        (es[0].Nest? ==> es[0].depth <= MAX_DEPTH) && DepthsWithin(es[1..], MAX_DEPTH) by {
        assert forall i :: 1 <= i < |es| ==> es[i] == es[1..][i - 1];
      }
      match Perform(s, es[0]) {
        case Ok(s') => ConsumeOk(s', es[1..]);
        case Err(_) =>
      }
    }
  }

  /** Without an excessive depth there is no depth error. */
  lemma {:induction false} NoDepthError(s: Scan, es: seq<Event>)
    requires DepthsWithin(es, MAX_DEPTH)
    ensures Consume(s, es) != Err(ParseDepthExceeded)
    decreases es
  {
    if es != [] && Perform(s, es[0]).Ok? {
      assert forall i :: 0 <= i < |es[1..]| ==> es[1..][i] == es[i + 1];
      NoDepthError(Perform(s, es[0]).value, es[1..]);
    }
  }
}
