/** Friendship rows and the operations on them, run one after another. A row is directed; it
    stands for the relation of its two users. */
module Friends {
  import opened Wrappers

  type Id = nat
  type RowId = nat

  const FRIEND_CAP := 1000

  datatype Status = Pending | Accepted | Blocked

  datatype Row = Row(requester: Id, addressee: Id, status: Status)

  type Rows = map<RowId, Row>

  datatype FriendError =
    | TargetNotFound | CannotSelf | IsBlocked | Already | Duplicate | RequestBlocked | CapReached
    | NotFound | InvalidState | StoreConflict

  /** Who takes friend requests from whom. */
  datatype Policy = Everyone | Nobody | MutualWorkspace

  datatype Op =
    | Request(me: Id, target: Option<Id>, policy: Policy, shareWorkspace: bool, drawn: RowId)
    | Accept(me: Id, row: RowId)
    | Reject(me: Id, row: RowId)
    | Remove(me: Id, row: RowId)
    | Block(me: Id, other: Id, drawn: RowId)
    | Unblock(me: Id, other: Id)

  /** What an operation did: `actor` did it to `other`. */
  datatype Deed = Requested | CounterRequested | AcceptedIt | Rejected | Removed | BlockedThem | Unblocked
  datatype Event = Event(actor: Id, other: Id, deed: Deed)

  datatype Outcome = Outcome(rows: Rows, result: Result<Option<Event>, FriendError>)

  // ---- rows ---------------------------------------------------------------------------------------

  predicate Between(r: Row, a: Id, b: Id) {
    (r.requester == a && r.addressee == b) || (r.requester == b && r.addressee == a)
  }

  /** At most one row for a pair of users, whichever way it points, and none with oneself. */
  predicate OneAPair(rows: Rows) {
    && (forall i, j :: i in rows && j in rows && Between(rows[i], rows[j].requester, rows[j].addressee) ==> i == j)
    && (forall i :: i in rows ==> rows[i].requester != rows[i].addressee)
  }

  ghost function FindRow(rows: Rows, a: Id, b: Id): (r: Option<RowId>)
    ensures r.Some? ==> r.value in rows && Between(rows[r.value], a, b)
    ensures r.None? ==> forall i :: i in rows ==> !Between(rows[i], a, b)
  {
    if exists i :: i in rows && Between(rows[i], a, b) then
      var i :| i in rows && Between(rows[i], a, b);
      Some(i)
    else None
  }

  /** The table refuses a second row in one direction and a taken row id. */
  predicate CanCreate(rows: Rows, id: RowId, requester: Id, addressee: Id) {
    id !in rows && forall i :: i in rows ==> !(rows[i].requester == requester && rows[i].addressee == addressee)
  }

  function AcceptedOf(rows: Rows, user: Id): set<RowId> {
    set i | i in rows && rows[i].status == Accepted && (rows[i].requester == user || rows[i].addressee == user)
  }

  // ---- operations ---------------------------------------------------------------------------------

  predicate Takes(policy: Policy, shareWorkspace: bool) {
    policy.Everyone? || (policy.MutualWorkspace? && shareWorkspace)
  }

  /** What is left of a request after its lookup found no row, on the rows there are by then: the
      policy, the count and the creation, and a second lookup when the table refuses the row. */
  ghost function LateRequest(rows: Rows, op: Op): Outcome
    requires op.Request? && op.target.Some?
  {
    var me, other := op.me, op.target.value;
    if !Takes(op.policy, op.shareWorkspace) then Outcome(rows, Err(RequestBlocked))
    else if |AcceptedOf(rows, me)| >= FRIEND_CAP then Outcome(rows, Err(CapReached))
    else if !CanCreate(rows, op.drawn, me, other) then
      Outcome(rows, if FindRow(rows, me, other).Some? then Ok(None) else Err(StoreConflict))
    else Outcome(rows[op.drawn := Row(me, other, Pending)], Ok(Some(Event(me, other, Requested))))
  }

  ghost function RequestStep(rows: Rows, op: Op): Outcome
    requires op.Request?
  {
    if op.target.None? then Outcome(rows, Err(TargetNotFound))
    else if op.target.value == op.me then Outcome(rows, Err(CannotSelf))
    else
      var me, other := op.me, op.target.value;
      var existing := FindRow(rows, me, other);
      if existing.Some? then
        var row := rows[existing.value];
        if row.status == Blocked then Outcome(rows, Err(IsBlocked))
        else if row.status == Accepted then Outcome(rows, Err(Already))
        else if row.addressee == me then
          Outcome(rows[existing.value := row.(status := Accepted)], Ok(Some(Event(me, other, CounterRequested))))
        else Outcome(rows, Err(Duplicate))
      else LateRequest(rows, op)
  }

  function AnswerStep(rows: Rows, op: Op): Outcome
    requires op.Accept? || op.Reject? || op.Remove?
  {
    if op.row !in rows then Outcome(rows, if op.Accept? then Err(NotFound) else Ok(None))
    else
      var row := rows[op.row];
      match op
      case Accept(me, id) =>
        if row.addressee != me || row.status != Pending then Outcome(rows, Err(InvalidState))
        else Outcome(rows[id := row.(status := Accepted)], Ok(Some(Event(me, row.requester, AcceptedIt))))
      case Reject(me, id) =>
        if row.addressee != me || row.status != Pending then Outcome(rows, Err(InvalidState))
        else Outcome(rows - {id}, Ok(Some(Event(me, row.requester, Rejected))))
      case Remove(me, id) =>
        if row.requester != me && row.addressee != me then Outcome(rows, Err(NotFound))
        else if row.status != Accepted then Outcome(rows, Err(InvalidState))
        else
          var other := if row.requester == me then row.addressee else row.requester;
          Outcome(rows - {id}, Ok(Some(Event(me, other, Removed))))
  }

  /** What is left of a block after its lookup found no row. */
  function LateBlock(rows: Rows, op: Op): Outcome
    requires op.Block?
  {
    if !CanCreate(rows, op.drawn, op.me, op.other) then Outcome(rows, Err(StoreConflict))
    else
      Outcome(rows[op.drawn := Row(op.me, op.other, Blocked)], Ok(Some(Event(op.me, op.other, BlockedThem))))
  }

  ghost function BlockStep(rows: Rows, op: Op): Outcome
    requires op.Block?
  {
    var me, other := op.me, op.other;
    if me == other then Outcome(rows, Err(CannotSelf))
    else
      var done := Ok(Some(Event(me, other, BlockedThem)));
      var existing := FindRow(rows, me, other);
      if existing.Some? then
        var id := existing.value;
        if rows[id].requester == me then Outcome(rows[id := rows[id].(status := Blocked)], done)
        else
          // the other side's row goes and the blocker's own comes, in one transaction
          var rest := rows - {id};
          if CanCreate(rest, op.drawn, me, other) then Outcome(rest[op.drawn := Row(me, other, Blocked)], done)
          else Outcome(rows[id := rows[id].(status := Blocked)], done)
      else LateBlock(rows, op)
  }

  ghost function UnblockStep(rows: Rows, op: Op): Outcome
    requires op.Unblock?
  {
    var existing := FindRow(rows, op.me, op.other);
    if existing.None? || rows[existing.value].status != Blocked || rows[existing.value].requester != op.me then
      Outcome(rows, Ok(None))
    else Outcome(rows - {existing.value}, Ok(Some(Event(op.me, op.other, Unblocked))))
  }

  ghost function Step(rows: Rows, op: Op): Outcome {
    match op
    case Request(_, _, _, _, _) => RequestStep(rows, op)
    case Block(_, _, _) => BlockStep(rows, op)
    case Unblock(_, _) => UnblockStep(rows, op)
    case _ => AnswerStep(rows, op)
  }

  /** Row ids are drawn fresh. */
  predicate FreshId(rows: Rows, op: Op) {
    (op.Request? || op.Block?) ==> op.drawn !in rows
  }

  // ---- the service --------------------------------------------------------------------------------

  class FriendsService {
    var rows: Rows

    constructor ()
      ensures rows == map[]
    {
      rows := map[];
    }

    method Find(a: Id, b: Id) returns (r: Option<RowId>)
      requires OneAPair(rows)
      ensures r == FindRow(rows, a, b)
    {
      if exists i :: i in rows && Between(rows[i], a, b) {
        var i :| i in rows && Between(rows[i], a, b);
        r := Some(i);
      } else {
        r := None;
      }
    }

    /** `requestByUsername`; `target` is the user of that name, if there is one. */
    method RequestByUsername(me: Id, target: Option<Id>, policy: Policy, shareWorkspace: bool, drawn: RowId)
      returns (r: Result<Option<Event>, FriendError>)
      requires OneAPair(rows)
      modifies this
      ensures Outcome(rows, r) == Step(old(rows), Request(me, target, policy, shareWorkspace, drawn))
    {
      if target.None? {
        return Err(TargetNotFound);
      }
      var other := target.value;
      if other == me {
        return Err(CannotSelf);
      }
      var existing := Find(me, other);
      if existing.Some? {
        var row := rows[existing.value];
        if row.status == Blocked {
          return Err(IsBlocked);
        }
        if row.status == Accepted {
          return Err(Already);
        }
        if row.addressee == me {
          rows := rows[existing.value := row.(status := Accepted)];
          return Ok(Some(Event(me, other, CounterRequested)));
        }
        return Err(Duplicate);
      }
      r := CreateRequest(me, other, policy, shareWorkspace, drawn);
    }

    /** The part of a request after its lookup; others may have written since. */
    method CreateRequest(me: Id, other: Id, policy: Policy, shareWorkspace: bool, drawn: RowId)
      returns (r: Result<Option<Event>, FriendError>)
      requires OneAPair(rows)
      modifies this
      ensures Outcome(rows, r) == LateRequest(old(rows), Request(me, Some(other), policy, shareWorkspace, drawn))
    {
      if policy == Nobody || (policy == MutualWorkspace && !shareWorkspace) {
        return Err(RequestBlocked);
      }
      if |AcceptedOf(rows, me)| >= FRIEND_CAP {
        return Err(CapReached);
      }
      if drawn in rows || exists i :: i in rows && rows[i].requester == me && rows[i].addressee == other {
        // lost a race: read again and answer with the row there is
        var row := Find(me, other);
        return if row.Some? then Ok(None) else Err(StoreConflict);
      }
      rows := rows[drawn := Row(me, other, Pending)];
      r := Ok(Some(Event(me, other, Requested)));
    }

    method Accept(me: Id, id: RowId) returns (r: Result<Option<Event>, FriendError>)
      modifies this
      ensures Outcome(rows, r) == Step(old(rows), Op.Accept(me, id))
    {
      if id !in rows {
        return Err(NotFound);
      }
      var row := rows[id];
      if row.addressee != me || row.status != Pending {
        return Err(InvalidState);
      }
      rows := rows[id := row.(status := Accepted)];
      r := Ok(Some(Event(me, row.requester, AcceptedIt)));
    }

    method Reject(me: Id, id: RowId) returns (r: Result<Option<Event>, FriendError>)
      modifies this
      ensures Outcome(rows, r) == Step(old(rows), Op.Reject(me, id))
    {
      if id !in rows {
        return Ok(None);
      }
      var row := rows[id];
      if row.addressee != me || row.status != Pending {
        return Err(InvalidState);
      }
      rows := rows - {id};
      r := Ok(Some(Event(me, row.requester, Rejected)));
    }

    method Remove(me: Id, id: RowId) returns (r: Result<Option<Event>, FriendError>)
      modifies this
      ensures Outcome(rows, r) == Step(old(rows), Op.Remove(me, id))
    {
      if id !in rows {
        return Ok(None);
      }
      var row := rows[id];
      if row.requester != me && row.addressee != me {
        return Err(NotFound);
      }
      if row.status != Accepted {
        return Err(InvalidState);
      }
      rows := rows - {id};
      r := Ok(Some(Event(me, if row.requester == me then row.addressee else row.requester, Removed)));
    }

    /** `block`; when the table refuses the new row, the transaction is undone and the row there
        is blocks. */
    method Block(me: Id, other: Id, drawn: RowId) returns (r: Result<Option<Event>, FriendError>)
      requires OneAPair(rows)
      modifies this
      ensures Outcome(rows, r) == Step(old(rows), Op.Block(me, other, drawn))
    {
      if me == other {
        return Err(CannotSelf);
      }
      var existing := Find(me, other);
      if existing.Some? {
        var id := existing.value;
        if rows[id].requester == me {
          rows := rows[id := rows[id].(status := Blocked)];
        } else if drawn in rows - {id} {
          rows := rows[id := rows[id].(status := Blocked)];
        } else {
          rows := rows - {id};
          rows := rows[drawn := Row(me, other, Blocked)];
        }
      } else {
        if drawn in rows {
          return Err(StoreConflict);
        }
        rows := rows[drawn := Row(me, other, Blocked)];
      }
      r := Ok(Some(Event(me, other, BlockedThem)));
    }

    method Unblock(me: Id, other: Id) returns (r: Result<Option<Event>, FriendError>)
      requires OneAPair(rows)
      modifies this
      ensures Outcome(rows, r) == Step(old(rows), Op.Unblock(me, other))
    {
      var existing := Find(me, other);
      if existing.None? || rows[existing.value].status != Blocked || rows[existing.value].requester != me {
        return Ok(None);
      }
      rows := rows - {existing.value};
      r := Ok(Some(Event(me, other, Unblocked)));
    }
  }

  // ---- the relation of two users ------------------------------------------------------------------

  datatype Relation = Strangers | Asked(asker: Id) | AreFriends(asker: Id) | BlockedBy(blocker: Id)

  function RelationOf(r: Row): Relation {
    match r.status
    case Pending => Asked(r.requester)
    case Accepted => AreFriends(r.requester)
    case Blocked => BlockedBy(r.requester)
  }

  ghost function Relate(rows: Rows, a: Id, b: Id): Relation {
    var found := FindRow(rows, a, b);
    if found.None? then Strangers else RelationOf(rows[found.value])
  }

  lemma RelateIs(rows: Rows, id: RowId, a: Id, b: Id)
    requires OneAPair(rows) && id in rows && Between(rows[id], a, b)
    ensures FindRow(rows, a, b) == Some(id) && Relate(rows, a, b) == RelationOf(rows[id])
  {
    var found := FindRow(rows, a, b).value;
    assert Between(rows[found], rows[id].requester, rows[id].addressee);
  }

  lemma OnlyRow(rows: Rows, id: RowId, i: RowId, a: Id, b: Id)
    requires OneAPair(rows) && id in rows && i in rows && Between(rows[id], a, b)
    ensures i != id ==> !Between(rows[i], a, b)
  {
    assert Between(rows[i], a, b) ==> Between(rows[i], rows[id].requester, rows[id].addressee);
  }

  predicate About(e: Event, a: Id, b: Id) {
    (e.actor == a && e.other == b) || (e.actor == b && e.other == a)
  }

  /** The relation that a deed makes. */
  function Makes(e: Event): Relation {
    match e.deed
    case Requested => Asked(e.actor)
    case CounterRequested => AreFriends(e.other)
    case AcceptedIt => AreFriends(e.other)
    case BlockedThem => BlockedBy(e.actor)
    case _ => Strangers
  }

  /** The relations in which a deed can be done. */
  predicate May(r: Relation, e: Event) {
    match e.deed
    case Requested => r == Strangers
    case CounterRequested => r == Asked(e.other)
    case AcceptedIt => r == Asked(e.other)
    case Rejected => r == Asked(e.other)
    case Removed => r.AreFriends?
    case BlockedThem => true
    case Unblocked => r == BlockedBy(e.actor)
  }

  predicate Does(o: Outcome) { o.result.Ok? && o.result.value.Some? }

  /** One row changed, for one pair. */
  lemma Replaced(rows: Rows, after: Rows, id: RowId, a: Id, b: Id)
    requires OneAPair(rows) && OneAPair(after)
    requires forall i :: i != id ==> (i in rows <==> i in after) && (i in rows ==> rows[i] == after[i])
    requires id in rows ==> !Between(rows[id], a, b)
    requires id in after ==> !Between(after[id], a, b)
    ensures Relate(after, a, b) == Relate(rows, a, b)
  {
    var found := FindRow(rows, a, b);
    if found.Some? {
      RelateIs(after, found.value, a, b);
    } else {
      forall i | i in after ensures !Between(after[i], a, b) {
      }
    }
  }

  /** What an operation did is what the relation of its two users allowed and made; a relation
      that it is not about stays. */
  ghost predicate Explained(rows: Rows, o: Outcome) {
    if !Does(o) then o.rows == rows
    else
      var e := o.result.value.value;
      && e.actor != e.other
      && May(Relate(rows, e.actor, e.other), e)
      && Relate(o.rows, e.actor, e.other) == Makes(e)
      && forall a, b :: !About(e, a, b) ==> Relate(o.rows, a, b) == Relate(rows, a, b)
  }

  lemma ExplainedBy(rows: Rows, after: Rows, id: RowId, e: Event)
    requires OneAPair(rows) && OneAPair(after) && e.actor != e.other
    requires forall i :: i != id ==> (i in rows <==> i in after) && (i in rows ==> rows[i] == after[i])
    requires id in rows ==> Between(rows[id], e.actor, e.other)
    requires id in after ==> Between(after[id], e.actor, e.other)
    requires id in after ==> RelationOf(after[id]) == Makes(e)
    requires id !in after ==> Makes(e) == Strangers && id in rows
    requires May(Relate(rows, e.actor, e.other), e)
    ensures Explained(rows, Outcome(after, Ok(Some(e))))
  {
    hide May, Makes, RelationOf;
    if id in after {
      RelateIs(after, id, e.actor, e.other);
    } else {
      assert forall i :: i in after ==> !Between(after[i], e.actor, e.other) by {
        forall i | i in after ensures !Between(after[i], e.actor, e.other) {
          OnlyRow(rows, id, i, e.actor, e.other);
        }
      }
    }
    forall a, b | !About(e, a, b) ensures Relate(after, a, b) == Relate(rows, a, b) {
      Replaced(rows, after, id, a, b);
    }
  }

  /** Changing the status of a row, or taking it out, keeps one row a pair. */
  lemma StillOneAPair(rows: Rows, after: Rows)
    requires OneAPair(rows)
    requires forall i :: i in after ==>
      i in rows && after[i].requester == rows[i].requester && after[i].addressee == rows[i].addressee
    ensures OneAPair(after)
  {
  }

  lemma NewRowOneAPair(rows: Rows, id: RowId, r: Row)
    requires OneAPair(rows) && r.requester != r.addressee
    requires forall i :: i in rows && i != id ==> !Between(rows[i], r.requester, r.addressee)
    ensures OneAPair(rows[id := r])
  {
  }

  lemma RequestExplained(rows: Rows, op: Op)
    requires OneAPair(rows) && op.Request?
    ensures OneAPair(RequestStep(rows, op).rows) && Explained(rows, RequestStep(rows, op))
  {
    hide Explained, Relate, OneAPair;
    var o := RequestStep(rows, op);
    if Does(o) {
      var me, other := op.me, op.target.value;
      var existing := FindRow(rows, me, other);
      if existing.Some? {
        RelateIs(rows, existing.value, me, other);
        StillOneAPair(rows, o.rows);
        ExplainedBy(rows, o.rows, existing.value, o.result.value.value);
      } else {
        StrangersAre(rows, me, other);
        NewRowOneAPair(rows, op.drawn, Row(me, other, Pending));
        ExplainedBy(rows, o.rows, op.drawn, o.result.value.value);
      }
    } else {
      NothingDone(rows, o);
    }
  }

  lemma StrangersAre(rows: Rows, a: Id, b: Id)
    requires FindRow(rows, a, b).None?
    ensures Relate(rows, a, b) == Strangers
  {
  }

  lemma NothingDone(rows: Rows, o: Outcome)
    requires !Does(o) && o.rows == rows
    ensures Explained(rows, o)
  {
  }

  lemma AnswerExplained(rows: Rows, op: Op)
    requires OneAPair(rows) && (op.Accept? || op.Reject? || op.Remove?)
    ensures OneAPair(AnswerStep(rows, op).rows) && Explained(rows, AnswerStep(rows, op))
  {
    hide Explained, Relate;
    var o := AnswerStep(rows, op);
    if Does(o) {
      var e := o.result.value.value;
      RelateIs(rows, op.row, e.actor, e.other);
      StillOneAPair(rows, o.rows);
      ExplainedBy(rows, o.rows, op.row, e);
    } else {
      NothingDone(rows, o);
    }
  }

  lemma UnblockExplained(rows: Rows, op: Op)
    requires OneAPair(rows) && op.Unblock?
    ensures OneAPair(UnblockStep(rows, op).rows) && Explained(rows, UnblockStep(rows, op))
  {
    hide Explained, Relate;
    var o := UnblockStep(rows, op);
    if Does(o) {
      var id := FindRow(rows, op.me, op.other).value;
      RelateIs(rows, id, op.me, op.other);
      StillOneAPair(rows, o.rows);
      ExplainedBy(rows, o.rows, id, o.result.value.value);
    } else {
      NothingDone(rows, o);
    }
  }

  lemma BlockExplained(rows: Rows, op: Op)
    requires OneAPair(rows) && op.Block? && op.drawn !in rows
    ensures OneAPair(BlockStep(rows, op).rows) && Explained(rows, BlockStep(rows, op))
  {
    hide Explained, Relate;
    var o := BlockStep(rows, op);
    var me, other := op.me, op.other;
    if !Does(o) {
      NothingDone(rows, o);
    } else {
      var existing := FindRow(rows, me, other);
      if existing.None? {
        NewRowOneAPair(rows, op.drawn, Row(me, other, Blocked));
        ExplainedBy(rows, o.rows, op.drawn, o.result.value.value);
      } else {
        RelateIs(rows, existing.value, me, other);
        if rows[existing.value].requester == me {
          StillOneAPair(rows, o.rows);
          ExplainedBy(rows, o.rows, existing.value, o.result.value.value);
        } else {
          FlipExplained(rows, op, existing.value);
        }
      }
    }
  }

  /** A counter-block puts the blocker's own row in the place of the other side's. */
  lemma FlipExplained(rows: Rows, op: Op, id: RowId)
    requires OneAPair(rows) && op.Block? && op.drawn !in rows && op.me != op.other
    requires FindRow(rows, op.me, op.other) == Some(id) && rows[id].requester != op.me
    ensures OneAPair(BlockStep(rows, op).rows) && Explained(rows, BlockStep(rows, op))
  {
    hide Relate;
    var me, other := op.me, op.other;
    var rest := rows - {id};
    var after := rest[op.drawn := Row(me, other, Blocked)];
    StillOneAPair(rows, rest);
    forall i | i in rest ensures !Between(rest[i], me, other) {
      OnlyRow(rows, id, i, me, other);
    }
    NewRowOneAPair(rest, op.drawn, Row(me, other, Blocked));
    RelateIs(after, op.drawn, me, other);
    forall a, b | !About(Event(me, other, BlockedThem), a, b) ensures Relate(after, a, b) == Relate(rows, a, b) {
      Replaced(rows, rest, id, a, b);
      Replaced(rest, after, op.drawn, a, b);
    }
  }

  /** Every operation keeps one row a pair and is explained by the relation of two users. */
  lemma StepExplained(rows: Rows, op: Op)
    requires OneAPair(rows) && FreshId(rows, op)
    ensures OneAPair(Step(rows, op).rows) && Explained(rows, Step(rows, op))
  {
    hide OneAPair, Explained, RequestStep, BlockStep, UnblockStep, AnswerStep;
    match op {
      case Request(_, _, _, _, _) => RequestExplained(rows, op);
      case Block(_, _, _) => BlockExplained(rows, op);
      case Unblock(_, _) => UnblockExplained(rows, op);
      case _ => AnswerExplained(rows, op);
    }
  }

  // ---- runs -----------------------------------------------------------------------------------------

  /** The rows after a run, and what was done in it. */
  datatype History = History(rows: Rows, log: seq<Event>)

  ghost function Run(ops: seq<Op>): History {
    if ops == [] then History(map[], [])
    else
      var before := Run(ops[..|ops| - 1]);
      var o := Step(before.rows, ops[|ops| - 1]);
      History(o.rows, if Does(o) then before.log + [o.result.value.value] else before.log)
  }

  ghost predicate AllFresh(ops: seq<Op>) {
    ops == [] || (AllFresh(ops[..|ops| - 1]) && FreshId(Run(ops[..|ops| - 1]).rows, ops[|ops| - 1]))
  }

  /** What two users did to each other. */
  function On(log: seq<Event>, a: Id, b: Id): seq<Event> {
    if log == [] then []
    else if About(log[|log| - 1], a, b) then On(log[..|log| - 1], a, b) + [log[|log| - 1]]
    else On(log[..|log| - 1], a, b)
  }

  /** Where two users' deeds have left them. */
  function Tell(deeds: seq<Event>): Relation {
    if deeds == [] then Strangers else Makes(deeds[|deeds| - 1])
  }

  /** Every deed was one that the deeds before it allowed. */
  predicate Legal(deeds: seq<Event>) {
    deeds == [] || (Legal(deeds[..|deeds| - 1]) && May(Tell(deeds[..|deeds| - 1]), deeds[|deeds| - 1]))
  }

  /** The rows tell of any two users exactly what their last deed was, and no deed was out of
      turn. */
  lemma {:induction false} RowsTellHistory(ops: seq<Op>, a: Id, b: Id)
    requires AllFresh(ops) && a != b
    ensures OneAPair(Run(ops).rows)
    ensures Relate(Run(ops).rows, a, b) == Tell(On(Run(ops).log, a, b))
    ensures Legal(On(Run(ops).log, a, b))
    decreases |ops|
  {
    hide Step, OneAPair, Relate, May, Makes, FreshId;
    if ops == [] {
      NoRows(a, b);
    } else {
      var before, op := Run(ops[..|ops| - 1]), ops[|ops| - 1];
      RowsTellHistory(ops[..|ops| - 1], a, b);
      StepExplained(before.rows, op);
      var o := Step(before.rows, op);
      if Does(o) {
        var e := o.result.value.value;
        OnSnoc(before.log, e, a, b);
        if About(e, a, b) {
          RelateSymmetric(before.rows, a, b);
          RelateSymmetric(o.rows, a, b);
          LegalSnoc(On(before.log, a, b), e);
        }
      }
    }
  }

  lemma NoRows(a: Id, b: Id)
    ensures OneAPair(map[]) && Relate(map[], a, b) == Strangers
  {
  }

  lemma OnSnoc(log: seq<Event>, e: Event, a: Id, b: Id)
    ensures On(log + [e], a, b) == if About(e, a, b) then On(log, a, b) + [e] else On(log, a, b)
  {
    assert (log + [e])[..|log|] == log;
  }

  lemma LegalSnoc(deeds: seq<Event>, e: Event)
    requires Legal(deeds) && May(Tell(deeds), e)
    ensures Legal(deeds + [e]) && Tell(deeds + [e]) == Makes(e)
  {
    assert (deeds + [e])[..|deeds|] == deeds;
  }

  lemma RelateSymmetric(rows: Rows, a: Id, b: Id)
    requires OneAPair(rows)
    ensures Relate(rows, a, b) == Relate(rows, b, a)
  {
    var found := FindRow(rows, a, b);
    if found.Some? {
      RelateIs(rows, found.value, b, a);
    } else {
      assert forall i :: i in rows ==> !Between(rows[i], b, a) by {
        forall i | i in rows ensures !Between(rows[i], b, a) {
          assert !Between(rows[i], a, b);
        }
      }
    }
  }

  /** A blocked row's requester is the last of the two to block, and nothing was done between
      them since. */
  lemma BlockerIsTheLast(ops: seq<Op>, id: RowId)
    requires AllFresh(ops) && id in Run(ops).rows && Run(ops).rows[id].status == Blocked
    ensures var r := Run(ops).rows[id];
      var deeds := On(Run(ops).log, r.requester, r.addressee);
      deeds != [] && deeds[|deeds| - 1].deed == BlockedThem && deeds[|deeds| - 1].actor == r.requester
  {
    hide Run, On, AllFresh;
    var rows := Run(ops).rows;
    var r := rows[id];
    OneAPairAfter(ops);
    RowsTellHistory(ops, r.requester, r.addressee);
    RelateIs(rows, id, r.requester, r.addressee);
  }

  lemma OneAPairAfter(ops: seq<Op>)
    requires AllFresh(ops)
    ensures OneAPair(Run(ops).rows)
  {
    hide Step, Relate, On, Tell, Legal, Run, AllFresh;
    RowsTellHistory(ops, 0, 1);
  }

  /** An accepted row was asked for by its requester, and the next thing between the two was the
      addressee's accepting it or asking back; nothing was done since. */
  lemma FriendsWereAsked(ops: seq<Op>, id: RowId)
    requires AllFresh(ops) && id in Run(ops).rows && Run(ops).rows[id].status == Accepted
    ensures var r := Run(ops).rows[id];
      var deeds := On(Run(ops).log, r.requester, r.addressee);
      && |deeds| >= 2
      && deeds[|deeds| - 2] == Event(r.requester, r.addressee, Requested)
      && (deeds[|deeds| - 1] == Event(r.addressee, r.requester, AcceptedIt)
        || deeds[|deeds| - 1] == Event(r.addressee, r.requester, CounterRequested))
  {
    hide Run, AllFresh;
    var rows := Run(ops).rows;
    var r := rows[id];
    OneAPairAfter(ops);
    RowsTellHistory(ops, r.requester, r.addressee);
    RelateIs(rows, id, r.requester, r.addressee);
    OnIsAbout(Run(ops).log, r.requester, r.addressee);
  }

  lemma {:induction false} OnIsAbout(log: seq<Event>, a: Id, b: Id)
    ensures forall i :: 0 <= i < |On(log, a, b)| ==> About(On(log, a, b)[i], a, b)
    decreases |log|
  {
    if log != [] {
      OnIsAbout(log[..|log| - 1], a, b);
    }
  }

  /** Nothing ends a block but the blocker's unblocking or the other side's blocking back. */
  lemma BlockEndsIff(rows: Rows, op: Op, a: Id, b: Id)
    requires OneAPair(rows) && FreshId(rows, op) && a != b && Relate(rows, a, b) == BlockedBy(a)
    ensures Relate(Step(rows, op).rows, a, b) != BlockedBy(a) <==>
      op == Unblock(a, b) || (op.Block? && op.me == b && op.other == a)
    ensures op == Unblock(a, b) ==> Relate(Step(rows, op).rows, a, b) == Strangers
    ensures op.Block? && op.me == b && op.other == a ==> Relate(Step(rows, op).rows, a, b) == BlockedBy(b)
  {
    hide OneAPair, Relate, RequestStep, AnswerStep;
    StepExplained(rows, op);
    var o := Step(rows, op);
    RelateSymmetric(rows, a, b);
    RelateSymmetric(o.rows, a, b);
    if op == Unblock(a, b) {
      BlockedRow(rows, a, b);
    }
    if Does(o) {
      DeedOf(rows, op);
    }
  }

  lemma BlockedRow(rows: Rows, a: Id, b: Id)
    requires Relate(rows, a, b) == BlockedBy(a)
    ensures FindRow(rows, a, b).Some? && rows[FindRow(rows, a, b).value].status == Blocked
      && rows[FindRow(rows, a, b).value].requester == a
  {
  }

  /** A block or an unblock is done by the caller to the user named, and no other operation is
      one. */
  lemma DeedOf(rows: Rows, op: Op)
    requires Does(Step(rows, op))
    ensures var e := Step(rows, op).result.value.value;
      && (e.deed == BlockedThem <==> op.Block?) && (e.deed == Unblocked <==> op.Unblock?)
      && (op.Block? ==> e.actor == op.me && e.other == op.other)
      && (op.Unblock? ==> e.actor == op.me && e.other == op.other)
  {
    hide Relate, OneAPair, CanCreate, AcceptedOf;
  }
}
