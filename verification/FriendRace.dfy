/** Friendship operations one table access at a time: what a call reads, and the write that
    follows from it, with any number of other calls in between. The table is unique only on the
    ordered pair, and what a call has read is changed by row id alone. */
module FriendRace {
  import opened Wrappers
  import opened Friends
  import FriendCap

  type Caller = nat

  /** How far a call has come. */
  datatype Phase =
    | Unfound(op: Op)                       // no row found: on to create one
    | Found(op: Op, id: RowId, seen: Row)   // on to change row `id`, which it read as `seen`
    | Refused(op: Op)                       // the table refused a counter-block: on to look again
    | Blocking(id: RowId)                   // on to block whatever row it found then
    | Done

  /** `used` are the row ids ever drawn; no id is drawn twice. */
  datatype State = State(rows: Rows, used: set<RowId>, callers: map<Caller, Phase>)

  /** The lookup of a pair answers any row there is. */
  datatype Access =
    | Read(c: Caller, op: Op, found: Option<RowId>)
    | Write(c: Caller)
    | ReadAgain(c: Caller, found: Option<RowId>)

  const START := State(map[], {}, map[])

  // ---- reading ----------------------------------------------------------------------------------

  /** `found` is an answer of `findRow`. */
  predicate Answers(rows: Rows, a: Id, b: Id, found: Option<RowId>) {
    if found.Some? then found.value in rows && Between(rows[found.value], a, b)
    else forall i :: i in rows ==> !Between(rows[i], a, b)
  }

  /** The other user of an operation on a pair. */
  function OtherOf(op: Op): Option<Id> {
    match op
    case Request(_, target, _, _, _) => target
    case Block(_, other, _) => Some(other)
    case Unblock(_, other) => Some(other)
    case _ => None
  }

  /** What an operation's first access can answer. */
  predicate CanRead(rows: Rows, op: Op, found: Option<RowId>) {
    match op
    case Accept(_, id) => found == if id in rows then Some(id) else None
    case Reject(_, id) => found == if id in rows then Some(id) else None
    case Remove(_, id) => found == if id in rows then Some(id) else None
    case _ => OtherOf(op).Some? ==> Answers(rows, op.me, OtherOf(op).value, found)
  }

  /** Whether the operation goes on to change a row it has read so. */
  predicate GoesOn(op: Op, seen: Row) {
    match op
    case Request(me, _, _, _, _) => seen.status == Pending && seen.addressee == me
    case Accept(me, _) => seen.status == Pending && seen.addressee == me
    case Reject(me, _) => seen.status == Pending && seen.addressee == me
    case Remove(me, _) => seen.status == Accepted && (seen.requester == me || seen.addressee == me)
    case Block(_, _, _) => true
    case Unblock(me, _) => seen.status == Blocked && seen.requester == me
  }

  /** What is left to do after the first access. */
  function Plan(rows: Rows, op: Op, found: Option<RowId>): Phase
    requires CanRead(rows, op, found)
  {
    if (op.Request? && op.target.None?) || OtherOf(op) == Some(op.me) then Done
    else if found.None? then (if op.Request? || op.Block? then Unfound(op) else Done)
    else if GoesOn(op, rows[found.value]) then Found(op, found.value, rows[found.value])
    else Done
  }

  // ---- writing ----------------------------------------------------------------------------------

  /** The rows a counter-block creates its row beside. */
  function Beside(rows: Rows, p: Phase): Rows {
    if p.Found? then rows - {p.id} else rows
  }

  /** The row that a write creates, if it comes to creating one. */
  ghost function Created(s: State, p: Phase): Option<Row> {
    if p.Unfound? && p.op.Request? && p.op.target.Some? && p.op.drawn !in s.used && Does(LateRequest(s.rows, p.op)) then
      Some(Row(p.op.me, p.op.target.value, Pending))
    else if p.Unfound? && p.op.Block? && p.op.drawn !in s.used && Does(LateBlock(s.rows, p.op)) then
      Some(Row(p.op.me, p.op.other, Blocked))
    else if p.Found? && p.op.Block? && p.seen.requester != p.op.me && p.id in s.rows && p.op.drawn !in s.used
      && CanCreate(s.rows - {p.id}, p.op.drawn, p.op.me, p.op.other) then
      Some(Row(p.op.me, p.op.other, Blocked))
    else None
  }

  ghost function Changed(s: State, c: Caller, rows: Rows, p: Phase): State {
    s.(rows := rows, callers := s.callers[c := p])
  }

  ghost function Wrote(s: State, c: Caller): State
    requires c in s.callers
  {
    var p, created := s.callers[c], Created(s, s.callers[c]);
    if created.Some? then
      State(Beside(s.rows, p)[p.op.drawn := created.value], s.used + {p.op.drawn}, s.callers[c := Done])
    else if p.Unfound? then Changed(s, c, s.rows, Done)
    else if p.Found? && p.id in s.rows then
      match p.op
      case Request(_, _, _, _, _) => Changed(s, c, s.rows[p.id := s.rows[p.id].(status := Accepted)], Done)
      case Accept(_, _) => Changed(s, c, s.rows[p.id := s.rows[p.id].(status := Accepted)], Done)
      case Block(me, _, _) =>
        if p.seen.requester == me then Changed(s, c, s.rows[p.id := s.rows[p.id].(status := Blocked)], Done)
        else Changed(s, c, s.rows, Refused(p.op))
      case _ => Changed(s, c, s.rows - {p.id}, Done)
    else if p.Blocking? && p.id in s.rows then
      Changed(s, c, s.rows[p.id := s.rows[p.id].(status := Blocked)], Done)
    else if p.Refused? then s
    else Changed(s, c, s.rows, Done)   // the row is gone, which is an error
  }

  ghost function Next(s: State, e: Access): State {
    match e
    case Read(c, op, found) =>
      if c in s.callers || !CanRead(s.rows, op, found) then s
      else s.(callers := s.callers[c := Plan(s.rows, op, found)])
    case Write(c) => if c in s.callers then Wrote(s, c) else s
    case ReadAgain(c, found) =>
      if c !in s.callers || !s.callers[c].Refused? then s
      else
        var op := s.callers[c].op;
        if !op.Block? || !Answers(s.rows, op.me, op.other, found) then s
        else s.(callers := s.callers[c := if found.Some? then Blocking(found.value) else Done])
  }

  ghost function After(es: seq<Access>): State {
    if es == [] then START else Next(After(es[..|es| - 1]), es[|es| - 1])
  }

  /** The state before access `k`. */
  ghost function At(es: seq<Access>, k: nat): State
    requires k <= |es|
  {
    After(es[..k])
  }

  lemma AtNext(es: seq<Access>, k: nat)
    requires k < |es|
    ensures At(es, k + 1) == Next(At(es, k), es[k])
  {
    assert es[..k + 1][..k] == es[..k];
  }

  // ---- undisturbed ------------------------------------------------------------------------------

  ghost function LookUp(rows: Rows, op: Op): Option<RowId> {
    match op
    case Accept(_, id) => if id in rows then Some(id) else None
    case Reject(_, id) => if id in rows then Some(id) else None
    case Remove(_, id) => if id in rows then Some(id) else None
    case _ => if OtherOf(op).Some? then FindRow(rows, op.me, OtherOf(op).value) else None
  }

  /** With nothing between its read and its write an operation is the step it is serially. */
  lemma PromptIsWhole(s: State, c: Caller, op: Op)
    requires OneAPair(s.rows) && s.rows.Keys <= s.used && c !in s.callers
    requires op.Request? || op.Block? ==> op.drawn !in s.used
    ensures CanRead(s.rows, op, LookUp(s.rows, op))
    ensures Next(Next(s, Read(c, op, LookUp(s.rows, op))), Write(c)).rows == Step(s.rows, op).rows
  {
    hide OneAPair, Between, Step;
    var read := Next(s, Read(c, op, LookUp(s.rows, op)));
    match op {
      case Request(_, _, _, _, _) =>
        assert read.rows == s.rows && read.used == s.used;
        PromptRequest(s, c, op);
      case Block(_, _, _) => PromptBlock(s, c, op);
      case Unblock(_, _) => PromptUnblock(s, c, op);
      case _ => PromptAnswer(s, c, op);
    }
  }

  lemma PromptRequest(s: State, c: Caller, op: Op)
    requires c !in s.callers && op.Request? && op.drawn !in s.used && s.rows.Keys <= s.used
    ensures Next(Next(s, Read(c, op, LookUp(s.rows, op))), Write(c)).rows == Step(s.rows, op).rows
  {
    hide LateRequest, CanCreate, Between;
    if OtherOf(op).Some? && LookUp(s.rows, op).None? {
      RequestCreates(s, op);
    }
  }

  lemma RequestCreates(s: State, op: Op)
    requires op.Request? && op.target.Some?
    ensures LateRequest(s.rows, op).rows ==
      if Does(LateRequest(s.rows, op)) then s.rows[op.drawn := Row(op.me, op.target.value, Pending)] else s.rows
  {
  }

  lemma PromptBlock(s: State, c: Caller, op: Op)
    requires OneAPair(s.rows) && s.rows.Keys <= s.used && c !in s.callers && op.Block? && op.drawn !in s.used
    ensures Next(Next(s, Read(c, op, LookUp(s.rows, op))), Write(c)).rows == Step(s.rows, op).rows
  {
    hide Between;
    var found := LookUp(s.rows, op);
    if found.Some? && op.me != op.other && s.rows[found.value].requester != op.me {
      FlipCreates(s.rows, op, found.value);
    }
  }

  /** The row of a counter-block is never refused while there is one row a pair. */
  lemma FlipCreates(rows: Rows, op: Op, id: RowId)
    requires OneAPair(rows) && op.Block? && op.drawn !in rows && id in rows && Between(rows[id], op.me, op.other)
    ensures CanCreate(rows - {id}, op.drawn, op.me, op.other)
  {
    forall i | i in rows && i != id ensures !(rows[i].requester == op.me && rows[i].addressee == op.other) {
      OnlyRow(rows, id, i, op.me, op.other);
    }
  }

  /** A counter-block that the table refuses looks again and blocks the row it finds, as it does
      serially. */
  lemma PromptRefused(s: State, c: Caller, op: Op)
    requires OneAPair(s.rows) && s.rows.Keys <= s.used && c !in s.callers && op.Block? && op.me != op.other
    requires LookUp(s.rows, op).Some? && s.rows[LookUp(s.rows, op).value].requester != op.me
    requires op.drawn in s.rows && op.drawn != LookUp(s.rows, op).value
    ensures var found := LookUp(s.rows, op);
      var refused := Next(Next(s, Read(c, op, found)), Write(c));
      && refused.rows == s.rows
      && Next(Next(refused, ReadAgain(c, found)), Write(c)).rows == Step(s.rows, op).rows
      && Step(s.rows, op).rows == s.rows[found.value := s.rows[found.value].(status := Blocked)]
  {
    hide Between, OneAPair;
  }

  lemma PromptAnswer(s: State, c: Caller, op: Op)
    requires c !in s.callers && (op.Accept? || op.Reject? || op.Remove?)
    ensures Next(Next(s, Read(c, op, LookUp(s.rows, op))), Write(c)).rows == Step(s.rows, op).rows
  {
    hide CanCreate, LateRequest, LateBlock;
  }

  lemma PromptUnblock(s: State, c: Caller, op: Op)
    requires OneAPair(s.rows) && c !in s.callers && op.Unblock?
    ensures Next(Next(s, Read(c, op, LookUp(s.rows, op))), Write(c)).rows == Step(s.rows, op).rows
  {
    hide CanCreate, LateRequest, LateBlock;
    if op.me == op.other {
      assert forall i :: i in s.rows ==> !Between(s.rows[i], op.me, op.me);
    }
  }

  // ---- what holds throughout ----------------------------------------------------------------------

  predicate SamePair(a: Row, b: Row) { a.requester == b.requester && a.addressee == b.addressee }

  /** A call is about what its operation names, and the row it is on to has kept its users. */
  predicate Sound(s: State, p: Phase) {
    match p
    case Unfound(op) => (op.Request? || op.Block?) && OtherOf(op).Some? && OtherOf(op).value != op.me
    case Found(op, id, seen) =>
      && GoesOn(op, seen) && id in s.used && (id in s.rows ==> SamePair(s.rows[id], seen))
      && (OtherOf(op).Some? ==> Between(seen, op.me, OtherOf(op).value) && OtherOf(op).value != op.me)
    case _ => true
  }

  predicate Sane(s: State) {
    && s.rows.Keys <= s.used
    && (forall i :: i in s.rows ==> s.rows[i].requester != s.rows[i].addressee)
    && (forall c :: c in s.callers ==> Sound(s, s.callers[c]))
  }

  /** A row id is drawn once: a row keeps its users, and once gone stays gone. */
  lemma RowStays(s: State, e: Access, id: RowId)
    requires id in s.used
    ensures id in Next(s, e).used
    ensures id in Next(s, e).rows ==> id in s.rows && SamePair(Next(s, e).rows[id], s.rows[id])
  {
    hide LateRequest, CanCreate, Answers;
  }

  lemma NextSane(s: State, e: Access)
    requires Sane(s)
    ensures Sane(Next(s, e))
  {
    hide Wrote, Answers, Plan, CanRead;
    var after := Next(s, e);
    NewRowsSane(s, e);
    forall c | c in after.callers ensures Sound(after, after.callers[c]) {
      if c !in s.callers {
        FirstRead(s, e, c);
        PlanSound(s, e.op, e.found);
      } else {
        NextSound(s, e, c);
      }
    }
  }

  lemma NewRowsSane(s: State, e: Access)
    requires Sane(s)
    ensures Next(s, e).rows.Keys <= Next(s, e).used
    ensures forall i :: i in Next(s, e).rows ==> Next(s, e).rows[i].requester != Next(s, e).rows[i].addressee
  {
    hide LateRequest, LateBlock, CanCreate, Answers, GoesOn;
  }

  lemma PlanSound(s: State, op: Op, found: Option<RowId>)
    requires s.rows.Keys <= s.used && CanRead(s.rows, op, found)
    ensures Sound(s, Plan(s.rows, op, found))
  {
  }

  lemma NextSound(s: State, e: Access, c: Caller)
    requires c in s.callers && Sound(s, s.callers[c])
    ensures c in Next(s, e).callers && Sound(Next(s, e), Next(s, e).callers[c])
  {
    hide GoesOn, Between;
    PhaseMoves(s, e, c);
    if s.callers[c].Found? {
      RowStays(s, e, s.callers[c].id);
    }
  }

  /** A call's plan stays until the call carries it out. */
  lemma PhaseMoves(s: State, e: Access, c: Caller)
    requires c in s.callers
    ensures c in Next(s, e).callers
    ensures var p := Next(s, e).callers[c]; p == s.callers[c] || p.Refused? || p.Blocking? || p.Done?
  {
    hide Created, Answers;
  }

  lemma {:induction false} SaneAt(es: seq<Access>, n: nat)
    requires n <= |es|
    ensures Sane(At(es, n))
    decreases n
  {
    hide After, Next, At;
    if n == 0 {
      StartIsClean(es);
    } else {
      SaneAt(es, n - 1);
      NextSane(At(es, n - 1), es[n - 1]);
      AtNext(es, n - 1);
    }
  }

  lemma StartIsClean(es: seq<Access>)
    ensures At(es, 0) == START && Sane(START) && OneAPair(START.rows)
  {
  }

  /** A row there was and is has the users it had; whatever was there has its id used. */
  lemma {:induction false} RowKept(es: seq<Access>, j: nat, l: nat, id: RowId)
    requires j <= l <= |es| && id in At(es, j).rows
    ensures id in At(es, l).used
    ensures id in At(es, l).rows ==> SamePair(At(es, l).rows[id], At(es, j).rows[id])
    decreases l
  {
    hide After, Next, At;
    SaneAt(es, j);
    if j < l {
      RowKept(es, j, l - 1, id);
      RowStays(At(es, l - 1), es[l - 1], id);
      AtNext(es, l - 1);
    }
  }

  // ---- a write and its read -----------------------------------------------------------------------

  /** Access `j` is the read that the write `l` acts on. */
  ghost predicate ActsOn(es: seq<Access>, l: nat, j: nat)
    requires j < l < |es|
  {
    && es[j].Read? && es[l].Write? && es[j].c == es[l].c && es[j].c !in At(es, j).callers
    && CanRead(At(es, j).rows, es[j].op, es[j].found)
    && es[l].c in At(es, l).callers
    && At(es, l).callers[es[l].c] == Plan(At(es, j).rows, es[j].op, es[j].found)
  }

  predicate Planned(p: Phase) { p.Unfound? || p.Found? }

  lemma {:induction false} PlannedByRead(es: seq<Access>, n: nat, c: Caller) returns (j: nat)
    requires n <= |es| && c in At(es, n).callers && Planned(At(es, n).callers[c])
    ensures j < n && es[j].Read? && es[j].c == c && c !in At(es, j).callers
    ensures CanRead(At(es, j).rows, es[j].op, es[j].found)
    ensures At(es, n).callers[c] == Plan(At(es, j).rows, es[j].op, es[j].found)
    decreases n
  {
    hide After, At, CanRead, Plan, Wrote;
    if n == 0 {
      StartIsClean(es);
      assert false;
    } else {
      AtNext(es, n - 1);
      var s, e := At(es, n - 1), es[n - 1];
      if c in s.callers {
        PhaseMoves(s, e, c);
        j := PlannedByRead(es, n - 1, c);
      } else {
        FirstRead(s, e, c);
        j := n - 1;
      }
    }
  }

  lemma FirstRead(s: State, e: Access, c: Caller)
    requires c !in s.callers && c in Next(s, e).callers
    ensures e.Read? && e.c == c && CanRead(s.rows, e.op, e.found)
    ensures Next(s, e).callers[c] == Plan(s.rows, e.op, e.found)
  {
    hide Answers, Created;
  }

  // ---- one row a pair -----------------------------------------------------------------------------

  predicate Opposite(a: Row, b: Row) { a.requester == b.addressee && a.addressee == b.requester }

  /** A write creates a row beside the opposite one. */
  ghost predicate Crosses(s: State, e: Access) {
    && e.Write? && e.c in s.callers
    && var p := s.callers[e.c];
       Created(s, p).Some? && exists i :: i in Beside(s.rows, p) && Opposite(Beside(s.rows, p)[i], Created(s, p).value)
  }

  /** One access breaks the rule of one row a pair exactly when it creates a row beside the
      opposite one. */
  lemma AccessKeepsPairIff(s: State, e: Access)
    requires Sane(s) && OneAPair(s.rows)
    ensures OneAPair(Next(s, e).rows) <==> !Crosses(s, e)
  {
    hide Created, OneAPair;
    if e.Write? && e.c in s.callers && Created(s, s.callers[e.c]).Some? {
      var p := s.callers[e.c];
      var beside, r := Beside(s.rows, p), Created(s, p).value;
      CreatedFits(s, p);
      StillOneAPair(s.rows, beside);
      var after := beside[p.op.drawn := r];
      assert Next(s, e).rows == after;
      if i :| i in beside && Opposite(beside[i], r) {
        TwoOfAPair(after, i, p.op.drawn);
      } else {
        forall i | i in beside ensures !Between(beside[i], r.requester, r.addressee) {
        }
        NewRowOneAPair(beside, p.op.drawn, r);
      }
    } else {
      NothingCreated(s, e);
      StillOneAPair(s.rows, Next(s, e).rows);
    }
  }

  lemma TwoOfAPair(rows: Rows, i: RowId, j: RowId)
    requires i in rows && j in rows && i != j && Opposite(rows[i], rows[j])
    ensures !OneAPair(rows)
  {
    assert Between(rows[i], rows[j].requester, rows[j].addressee);
  }

  /** What a write creates is a row of two users, under a new id, and the only one that way. */
  lemma CreatedFits(s: State, p: Phase)
    requires Sane(s) && Sound(s, p) && Created(s, p).Some?
    ensures (p.Unfound? || p.Found?) && (p.op.Request? || p.op.Block?)
    ensures var r, beside := Created(s, p).value, Beside(s.rows, p);
      && r.requester == p.op.me && OtherOf(p.op) == Some(r.addressee) && r.requester != r.addressee
      && p.op.drawn !in s.used && (r.status == Blocked <==> p.op.Block?)
      && forall i :: i in beside ==> !SamePair(beside[i], r)
  {
    hide AcceptedOf;
  }

  lemma NothingCreated(s: State, e: Access)
    requires !(e.Write? && e.c in s.callers && Created(s, s.callers[e.c]).Some?)
    ensures forall i :: i in Next(s, e).rows ==> i in s.rows && SamePair(Next(s, e).rows[i], s.rows[i])
  {
    hide Created, Answers;
  }

  /** The write `l` creates a row while the opposite row `id` has come since the call's own
      lookup, `j`. */
  ghost predicate Overtaken(es: seq<Access>, j: nat, l: nat, id: RowId)
    requires j < l < |es|
  {
    && ActsOn(es, l, j) && id !in At(es, j).rows && id in At(es, l).rows
    && var r := Created(At(es, l), At(es, l).callers[es[l].c]);
       r.Some? && Opposite(At(es, l).rows[id], r.value)
  }

  lemma OvertakenCrosses(es: seq<Access>, j: nat, l: nat, id: RowId)
    requires j < l < |es| && Overtaken(es, j, l, id)
    ensures Crosses(At(es, l), es[l])
  {
    hide After, At, Created;
    var p := At(es, l).callers[es[l].c];
    assert id in Beside(At(es, l).rows, p);
  }

  lemma CrossesOvertaken(es: seq<Access>, l: nat) returns (j: nat, id: RowId)
    requires l < |es| && OneAPair(At(es, l).rows) && Crosses(At(es, l), es[l])
    ensures j < l && Overtaken(es, j, l, id)
  {
    hide After, At, OneAPair, Plan, CanRead;
    SaneAt(es, l);
    var s, c := At(es, l), es[l].c;
    var p := s.callers[c];
    CreatedFits(s, p);
    id :| id in Beside(s.rows, p) && Opposite(Beside(s.rows, p)[id], Created(s, p).value);
    j := PlannedByRead(es, l, c);
    if p.Found? {
      FlipIsAlone(s, p, id);
      assert false;
    }
    if id in At(es, j).rows {
      RowKept(es, j, l, id);
      NoneWasThere(At(es, j).rows, es[j].op, es[j].found);
      assert false;
    }
  }

  /** A counter-block takes the only row of its pair away. */
  lemma FlipIsAlone(s: State, p: Phase, id: RowId)
    requires OneAPair(s.rows) && Sound(s, p) && p.Found? && Created(s, p).Some? && id in s.rows && id != p.id
    ensures !Opposite(s.rows[id], Created(s, p).value)
  {
    if Opposite(s.rows[id], Created(s, p).value) {
      OnlyRow(s.rows, p.id, id, p.op.me, p.op.other);
    }
  }

  lemma NoneWasThere(rows: Rows, op: Op, found: Option<RowId>)
    requires CanRead(rows, op, found) && Plan(rows, op, found).Unfound?
    ensures Plan(rows, op, found).op == op && (OtherOf(op).Some? ==>
      forall i :: i in rows ==> !Between(rows[i], op.me, OtherOf(op).value))
  {
  }

  ghost predicate PairsUpTo(es: seq<Access>, n: nat)
    requires n <= |es|
  {
    forall k :: 0 <= k <= n ==> OneAPair(At(es, k).rows)
  }

  ghost predicate NobodyOvertaken(es: seq<Access>) {
    forall j, l, id :: 0 <= j < l < |es| ==> !Overtaken(es, j, l, id)
  }

  lemma {:induction false} PairsSoFar(es: seq<Access>, n: nat)
    requires n <= |es| && NobodyOvertaken(es)
    ensures PairsUpTo(es, n)
    decreases n
  {
    hide After, At, Next, OneAPair, Crosses, Overtaken;
    if n == 0 {
      StartIsClean(es);
    } else {
      PairsSoFar(es, n - 1);
      SaneAt(es, n - 1);
      AtNext(es, n - 1);
      AccessKeepsPairIff(At(es, n - 1), es[n - 1]);
      if Crosses(At(es, n - 1), es[n - 1]) {
        var j, id := CrossesOvertaken(es, n - 1);
        assert false;
      }
    }
  }

  /** In every run there is one row a pair throughout exactly when no request or block creates a
      row while the opposite row has come since its own lookup. */
  lemma PairKeptIff(es: seq<Access>)
    ensures PairsUpTo(es, |es|) <==> NobodyOvertaken(es)
  {
    hide After, At, Next, OneAPair, Crosses, Overtaken;
    if NobodyOvertaken(es) {
      PairsSoFar(es, |es|);
    } else {
      var j, l, id :| 0 <= j < l < |es| && Overtaken(es, j, l, id);
      OvertakenCrosses(es, j, l, id);
      SaneAt(es, l);
      AtNext(es, l);
      if OneAPair(At(es, l).rows) {
        AccessKeepsPairIff(At(es, l), es[l]);
      }
    }
  }

  // ---- when a block ends --------------------------------------------------------------------------

  ghost predicate IsBlocked(s: State, id: RowId) { id in s.rows && s.rows[id].status == Blocked }

  /** The write `l`, acting on the read `j` of the blocked row `id`, is the blocker's unblock, a
      counter-block that goes through, or a write whose read came before the block. */
  ghost predicate Unblocks(es: seq<Access>, j: nat, l: nat, id: RowId)
    requires j < l < |es|
  {
    && ActsOn(es, l, j) && es[j].found == Some(id) && id in At(es, j).rows && id in At(es, l).rows
    && Planned(At(es, l).callers[es[l].c])
    && var op, b := es[j].op, At(es, l).rows[id];
       || op == Unblock(b.requester, b.addressee)
       || (op.Block? && op.me == b.addressee && op.other == b.requester
           && Created(At(es, l), At(es, l).callers[es[l].c]).Some?)
       || (!op.Block? && At(es, j).rows[id].status != Blocked)
  }

  /** A write by row id ends a block whatever it is about, unless it blocks. */
  lemma Ends(s: State, e: Access, id: RowId)
    requires Sane(s) && IsBlocked(s, id)
    ensures !IsBlocked(Next(s, e), id) <==>
      && e.Write? && e.c in s.callers && s.callers[e.c].Found? && s.callers[e.c].id == id
      && (s.callers[e.c].op.Block? ==> Created(s, s.callers[e.c]).Some?)
  {
    hide LateRequest, LateBlock, CanCreate, Answers;
  }

  lemma FoundWas(rows: Rows, op: Op, found: Option<RowId>)
    requires CanRead(rows, op, found) && Plan(rows, op, found).Found?
    ensures found.Some? && found.value in rows && Plan(rows, op, found) == Found(op, found.value, rows[found.value])
  {
  }

  lemma EndsAs(s: State, p: Phase)
    requires Sound(s, p) && p.Found? && IsBlocked(s, p.id) && (p.op.Block? ==> Created(s, p).Some?)
    ensures var b := s.rows[p.id];
      || p.op == Unblock(b.requester, b.addressee)
      || (p.op.Block? && p.op.me == b.addressee && p.op.other == b.requester && Created(s, p).Some?)
      || (!p.op.Block? && p.seen.status != Blocked)
  {
    hide LateRequest, LateBlock, CanCreate;
  }

  /** In every run a block ends with the blocker's unblock, with the other side's counter-block,
      or with an accept, reject, remove or request whose read came before the block, and with
      nothing else. */
  lemma BlockEndsIff(es: seq<Access>, l: nat, id: RowId)
    requires l < |es| && IsBlocked(At(es, l), id)
    ensures !IsBlocked(At(es, l + 1), id) <==> exists j :: 0 <= j < l && Unblocks(es, j, l, id)
  {
    hide After, At, CanRead, Created;
    SaneAt(es, l);
    AtNext(es, l);
    var s, e := At(es, l), es[l];
    Ends(s, e, id);
    if !IsBlocked(Next(s, e), id) {
      var j := PlannedByRead(es, l, e.c);
      FoundWas(At(es, j).rows, es[j].op, es[j].found);
      EndsAs(s, s.callers[e.c]);
      assert Unblocks(es, j, l, id);
    }
  }

  /** What such a write leaves: a late accept or request a friendship, a counter-block the other
      block, anything else no row. */
  lemma BlockEndsAs(es: seq<Access>, j: nat, l: nat, id: RowId)
    requires j < l < |es| && IsBlocked(At(es, l), id) && Unblocks(es, j, l, id)
    ensures var rows, op, b := At(es, l + 1).rows, es[j].op, At(es, l).rows[id];
      if op.Request? || op.Accept? then id in rows && rows[id] == b.(status := Accepted)
      else id !in rows && (op.Block? ==> op.drawn in rows && rows[op.drawn] == Row(b.addressee, b.requester, Blocked))
  {
    hide After, At, CanRead, CanCreate, LateRequest, LateBlock;
    SaneAt(es, l);
    AtNext(es, l);
    FoundWas(At(es, j).rows, es[j].op, es[j].found);
  }

  // ---- the cap --------------------------------------------------------------------------------------

  /** A user within the cap stays within it at every access exactly unless, being at the cap, it
      turns a row of theirs into a friendship. */
  lemma CapKeptIff(s: State, e: Access, user: Id)
    requires Sane(s) && FriendCap.FriendsOf(s.rows, user) <= FRIEND_CAP
    ensures FriendCap.FriendsOf(Next(s, e).rows, user) <= FRIEND_CAP <==>
      !(FriendCap.FriendsOf(s.rows, user) == FRIEND_CAP && exists id ::
          Befriends(s, e, id) && FriendCap.Concerns(s.rows[id], user))
  {
    hide FriendCap.FriendsOf, Created, Answers, CanRead, Plan;
    if id :| Befriends(s, e, id) {
      BefriendsSo(s, e, id);
      FriendCap.OneMoreFriend(s.rows, id, user);
    } else {
      OthersBefriendNobody(s, e);
      FriendCap.NoMoreFriends(s.rows, Next(s, e).rows, user);
    }
  }

  /** The access makes the row, not yet one, a friendship. */
  predicate Befriends(s: State, e: Access, id: RowId) {
    && e.Write? && e.c in s.callers && s.callers[e.c].Found? && s.callers[e.c].id == id && id in s.rows
    && (s.callers[e.c].op.Request? || s.callers[e.c].op.Accept?) && s.rows[id].status != Accepted
  }

  lemma BefriendsSo(s: State, e: Access, id: RowId)
    requires Befriends(s, e, id)
    ensures Next(s, e).rows == s.rows[id := s.rows[id].(status := Accepted)]
  {
    hide LateRequest, LateBlock, CanCreate;
  }

  lemma OthersBefriendNobody(s: State, e: Access)
    requires Sane(s) && forall id :: id in s.rows ==> !Befriends(s, e, id)
    ensures forall i :: i in Next(s, e).rows && Next(s, e).rows[i].status == Accepted ==>
      i in s.rows && s.rows[i] == Next(s, e).rows[i]
  {
    hide LateRequest, LateBlock, CanCreate, Answers;
  }

  // ---- runs that break the rules --------------------------------------------------------------------

  lemma AfterSnoc(es: seq<Access>, e: Access)
    ensures After(es + [e]) == Next(After(es), e)
  {
    assert (es + [e])[..|es|] == es;
  }

  lemma AfterFour(a: Access, b: Access, c: Access, d: Access)
    ensures After([a, b]) == Next(Next(START, a), b)
    ensures After([a, b, c, d]) == Next(Next(After([a, b]), c), d)
  {
    hide Next;
    assert [a] == [] + [a] && [a, b] == [a] + [b] && [a, b, c] == [a, b] + [c] && [a, b, c, d] == [a, b, c] + [d];
    AfterSnoc([], a);
    AfterSnoc([a], b);
    AfterSnoc([a, b], c);
    AfterSnoc([a, b, c], d);
  }

  /** Two operations of two users on each other, neither of which finds a row. */
  lemma BothFindNone(a: Op, b: Op)
    requires (a.Request? && a.target.Some?) || a.Block?
    requires (b.Request? && b.target.Some?) || b.Block?
    requires OtherOf(a) == Some(b.me) && OtherOf(b) == Some(a.me) && a.me != b.me
    ensures After([Read(0, a, None), Read(1, b, None)]) == START.(callers := map[0 := Unfound(a), 1 := Unfound(b)])
    ensures After([Read(0, a, None), Read(1, b, None), Write(0), Write(1)]) ==
      Next(Next(After([Read(0, a, None), Read(1, b, None)]), Write(0)), Write(1))
  {
    hide Wrote;
    AfterFour(Read(0, a, None), Read(1, b, None), Write(0), Write(1));
  }

  /** Two users who ask each other at once. */
  lemma BothAsk()
    ensures var a, b := Request(1, Some(2), Everyone, false, 10), Request(2, Some(1), Everyone, false, 11);
      After([Read(0, a, None), Read(1, b, None), Write(0), Write(1)]).rows ==
        map[10 := Row(1, 2, Pending), 11 := Row(2, 1, Pending)]
  {
    hide After, LateRequest;
    var a, b := Request(1, Some(2), Everyone, false, 10), Request(2, Some(1), Everyone, false, 11);
    BothFindNone(a, b);
    assert AcceptedOf(map[], 1) == {};
    AskCreates(map[], a);
    assert AcceptedOf(map[10 := Row(1, 2, Pending)], 2) == {};
    AskCreates(map[10 := Row(1, 2, Pending)], b);
  }

  /** Two users who block each other at once. */
  lemma BothBlock()
    ensures var a, b := Block(1, 2, 10), Block(2, 1, 11);
      After([Read(0, a, None), Read(1, b, None), Write(0), Write(1)]).rows ==
        map[10 := Row(1, 2, Blocked), 11 := Row(2, 1, Blocked)]
  {
    hide After;
    BothFindNone(Block(1, 2, 10), Block(2, 1, 11));
  }

  /** A user accepts a request that its sender has meanwhile turned into a block: the two are
      friends. */
  lemma LateAccept()
    ensures var es := [Read(0, Request(1, Some(2), Everyone, false, 10), None), Write(0),
        Read(1, Accept(2, 10), Some(10)), Read(2, Block(1, 2, 11), Some(10))];
      After(es + [Write(2)]).rows == map[10 := Row(1, 2, Blocked)]
      && After(es + [Write(2)] + [Write(1)]).rows == map[10 := Row(1, 2, Accepted)]
  {
    hide After, LateRequest;
    var ask := Request(1, Some(2), Everyone, false, 10);
    var es := [Read(0, ask, None), Write(0), Read(1, Accept(2, 10), Some(10)), Read(2, Block(1, 2, 11), Some(10))];
    AfterFour(Read(0, ask, None), Write(0), Read(1, Accept(2, 10), Some(10)), Read(2, Block(1, 2, 11), Some(10)));
    AfterSnoc(es, Write(2));
    AfterSnoc(es + [Write(2)], Write(1));
    FirstAsked(ask);
    var asked := After([Read(0, ask, None), Write(0)]);
    var read := After(es);
    assert read == asked.(callers := map[0 := Done, 1 := Found(Accept(2, 10), 10, Row(1, 2, Pending)),
      2 := Found(Block(1, 2, 11), 10, Row(1, 2, Pending))]);
  }

  lemma FirstAsked(ask: Op)
    requires ask == Request(1, Some(2), Everyone, false, 10)
    ensures Next(Next(START, Read(0, ask, None)), Write(0)) ==
      State(map[10 := Row(1, 2, Pending)], {10}, map[0 := Done])
  {
    hide LateRequest;
    var asking := START.(callers := map[0 := Unfound(ask)]);
    assert Next(START, Read(0, ask, None)) == asking;
    assert AcceptedOf(map[], 1) == {};
    AskCreates(map[], ask);
  }

  /** A request that nothing stands against. */
  lemma AskCreates(rows: Rows, ask: Op)
    requires ask.Request? && ask.target.Some? && ask.policy == Everyone && AcceptedOf(rows, ask.me) == {}
    requires CanCreate(rows, ask.drawn, ask.me, ask.target.value)
    ensures LateRequest(rows, ask) == Outcome(rows[ask.drawn := Row(ask.me, ask.target.value, Pending)],
      Ok(Some(Event(ask.me, ask.target.value, Requested))))
  {
  }
}
