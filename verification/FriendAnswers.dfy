/** What every friendship operation answers, read off the rows. */
module FriendAnswers {
  import opened Wrappers
  import opened Friends

  /** There is this row. */
  ghost predicate Has(rows: Rows, requester: Id, addressee: Id, status: Status) {
    exists i :: i in rows && rows[i] == Row(requester, addressee, status)
  }

  ghost predicate HasEither(rows: Rows, a: Id, b: Id, status: Status) {
    Has(rows, a, b, status) || Has(rows, b, a, status)
  }

  ghost predicate Unrelated(rows: Rows, a: Id, b: Id) {
    forall status :: !HasEither(rows, a, b, status)
  }

  /** The target takes no request from the caller. */
  predicate Refuses(policy: Policy, shareWorkspace: bool) {
    policy == Nobody || (policy == MutualWorkspace && !shareWorkspace)
  }

  function FriendCount(rows: Rows, me: Id): nat {
    |set i | i in rows && rows[i].status == Accepted && me in [rows[i].requester, rows[i].addressee]|
  }

  lemma FoundHas(rows: Rows, a: Id, b: Id)
    requires OneAPair(rows)
    ensures var found := FindRow(rows, a, b);
      && (found.None? <==> Unrelated(rows, a, b))
      && (found.Some? ==> var r := rows[found.value];
            && Has(rows, r.requester, r.addressee, r.status)
            && (forall status :: HasEither(rows, a, b, status) ==> status == r.status)
            && (a != b ==> forall status ::
                  && (Has(rows, a, b, status) <==> r.requester == a && r.status == status)
                  && (Has(rows, b, a, status) <==> r.requester == b && r.status == status)))
  {
    var found := FindRow(rows, a, b);
    if found.Some? {
      forall i | i in rows && Between(rows[i], a, b) ensures i == found.value {
        OnlyRow(rows, found.value, i, a, b);
      }
      assert HasEither(rows, a, b, rows[found.value].status);
    }
  }

  /** A request: no such user, oneself, a block, a friendship and a request of one's own are
      refused; a waiting request is accepted; else the target's policy and the cap are asked. */
  lemma RequestAnswers(rows: Rows, op: Op)
    requires OneAPair(rows) && op.Request?
    ensures var r, me := Step(rows, op).result, op.me;
      && (r == Err(TargetNotFound) <==> op.target.None?)
      && (op.target.Some? ==>
            var other := op.target.value;
            && (r == Err(CannotSelf) <==> other == me)
            && (other != me ==>
                  && (r == Err(IsBlocked) <==> HasEither(rows, me, other, Blocked))
                  && (r == Err(Already) <==> HasEither(rows, me, other, Accepted))
                  && (r == Err(Duplicate) <==> Has(rows, me, other, Pending))
                  && (r == Ok(Some(Event(me, other, CounterRequested))) <==> Has(rows, other, me, Pending))))
  {
    hide OneAPair, LateRequest, Has, FindRow;
    if op.target.Some? && op.target.value != op.me {
      FoundHas(rows, op.me, op.target.value);
      LateAnswers(rows, op);
      assert Unrelated(rows, op.me, op.target.value) ==> !HasEither(rows, op.me, op.target.value, Pending);
    }
  }

  lemma LateAnswers(rows: Rows, op: Op)
    requires op.Request? && op.target.Some?
    ensures var r := LateRequest(rows, op).result;
      r in [Err(RequestBlocked), Err(CapReached), Err(StoreConflict), Ok(None),
        Ok(Some(Event(op.me, op.target.value, Requested)))]
  {
    hide CanCreate, AcceptedOf;
  }

  /** A request to somebody with whom there is no row yet. */
  lemma NewRequestAnswers(rows: Rows, op: Op)
    requires OneAPair(rows) && op.Request? && op.target.Some? && op.target.value != op.me
    requires Unrelated(rows, op.me, op.target.value)
    ensures var r, other := Step(rows, op).result, op.target.value;
      var refused, full := Refuses(op.policy, op.shareWorkspace), FriendCount(rows, op.me) >= 1000;
      && (r == Err(RequestBlocked) <==> refused)
      && (r == Err(CapReached) <==> !refused && full)
      && (r == Err(StoreConflict) <==> !refused && !full && op.drawn in rows)
      && (r == Ok(Some(Event(op.me, other, Requested))) <==> !refused && !full && op.drawn !in rows)
  {
    hide OneAPair;
    FoundHas(rows, op.me, op.target.value);
    assert AcceptedOf(rows, op.me)
      == set i | i in rows && rows[i].status == Accepted && op.me in [rows[i].requester, rows[i].addressee];
  }

  /** A creation that the table refuses after all answers with the row that is there. */
  lemma LateConflictAnswers(rows: Rows, op: Op)
    requires op.Request? && op.target.Some? && !Refuses(op.policy, op.shareWorkspace)
    requires FriendCount(rows, op.me) < 1000 && !CanCreate(rows, op.drawn, op.me, op.target.value)
    ensures LateRequest(rows, op) == Outcome(rows,
      if exists i :: i in rows && Between(rows[i], op.me, op.target.value) then Ok(None) else Err(StoreConflict))
  {
    assert AcceptedOf(rows, op.me)
      == set i | i in rows && rows[i].status == Accepted && op.me in [rows[i].requester, rows[i].addressee];
  }

  /** Accepting, rejecting and removing: by the row that is named. */
  lemma AnswerAnswers(rows: Rows, op: Op)
    requires op.Accept? || op.Reject? || op.Remove?
    ensures var r, me, id := Step(rows, op).result, op.me, op.row;
      && (id !in rows ==> r == if op.Accept? then Err(NotFound) else Ok(None))
      && (id in rows ==>
            var row := rows[id];
            && (op.Accept? ==>
                  (r == Ok(Some(Event(me, row.requester, AcceptedIt))) <==> row == Row(row.requester, me, Pending)))
            && (op.Reject? ==>
                  (r == Ok(Some(Event(me, row.requester, Rejected))) <==> row == Row(row.requester, me, Pending)))
            && (op.Accept? || op.Reject? ==>
                  (r == Err(InvalidState) <==> row.addressee != me || row.status == Accepted || row.status == Blocked))
            && (op.Remove? ==>
                  && (r == Err(NotFound) <==> me !in [row.requester, row.addressee])
                  && (r == Err(InvalidState) <==> me in [row.requester, row.addressee] && row.status != Accepted)
                  && (r.Ok? && row.requester == me ==> r == Ok(Some(Event(me, row.addressee, Removed))))
                  && (r.Ok? && row.addressee == me && row.requester != me ==>
                        r == Ok(Some(Event(me, row.requester, Removed)))))
            && (r.Ok? && op.Accept? ==> Step(rows, op).rows == rows[id := Row(row.requester, me, Accepted)])
            && (r.Ok? && !op.Accept? ==> Step(rows, op).rows == rows - {id}))
  {
  }

  /** A block goes through for everybody but oneself, and an unblock clears the caller's own block
      and nothing else. */
  lemma BlockAnswers(rows: Rows, op: Op)
    requires OneAPair(rows) && (op.Block? || op.Unblock?)
    requires op.Block? ==> op.drawn !in rows
    ensures var o, me := Step(rows, op), op.me;
      && (op.Block? ==>
            && (o.result == Err(CannotSelf) <==> op.other == me)
            && (op.other != me ==>
                  o.result == Ok(Some(Event(me, op.other, BlockedThem))) && Has(o.rows, me, op.other, Blocked)))
      && (op.Unblock? && op.other != me ==>
            && (o.result == Ok(Some(Event(me, op.other, Unblocked))) <==> Has(rows, me, op.other, Blocked))
            && (o.result == Ok(None) <==> !Has(rows, me, op.other, Blocked))
            && !Has(o.rows, me, op.other, Blocked))
  {
    hide Has;
    if op.Unblock? && op.other != op.me {
      UnblockClears(rows, op);
    } else if op.Block? && op.other != op.me {
      BlockMakes(rows, op);
    }
  }

  lemma UnblockClears(rows: Rows, op: Op)
    requires OneAPair(rows) && op.Unblock? && op.other != op.me
    ensures var o := Step(rows, op);
      && (o.result == Ok(Some(Event(op.me, op.other, Unblocked))) <==> Has(rows, op.me, op.other, Blocked))
      && (o.result == Ok(None) <==> !Has(rows, op.me, op.other, Blocked))
      && !Has(o.rows, op.me, op.other, Blocked)
  {
    FoundHas(rows, op.me, op.other);
    var found := FindRow(rows, op.me, op.other);
    if found.Some? {
      forall i | i in rows && i != found.value ensures !Between(rows[i], op.me, op.other) {
        OnlyRow(rows, found.value, i, op.me, op.other);
      }
    }
  }

  lemma BlockMakes(rows: Rows, op: Op)
    requires OneAPair(rows) && op.Block? && op.other != op.me && op.drawn !in rows
    ensures var o := Step(rows, op);
      o.result == Ok(Some(Event(op.me, op.other, BlockedThem))) && Has(o.rows, op.me, op.other, Blocked)
  {
    var found := FindRow(rows, op.me, op.other);
    if found.Some? {
      forall i | i in rows && i != found.value ensures !Between(rows[i], op.me, op.other) {
        OnlyRow(rows, found.value, i, op.me, op.other);
      }
      var after := if rows[found.value].requester == op.me then found.value else op.drawn;
      assert after in Step(rows, op).rows && Step(rows, op).rows[after] == Row(op.me, op.other, Blocked);
    } else {
      assert Step(rows, op).rows[op.drawn] == Row(op.me, op.other, Blocked);
    }
  }
}
