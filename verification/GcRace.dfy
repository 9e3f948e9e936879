/** Both loops of the sweep delete what an earlier query selected, object first and then row, by
    id alone, while others link the attachments and complete the sessions. */
module GcRace {
  import opened Gc

  /** A row as a loop sees it: `kept` once it must not be swept, `since` what its age is told by. */
  datatype Row = Row(kept: bool, since: int, key: Id)

  function OfAttachment(a: Attachment): Row { Row(a.linkedAt.Some?, a.createdAt, a.key) }
  function OfSession(s: Session): Row { Row(s.completed, s.expiresAt, s.key) }

  predicate Takes(r: Row, before: int) { !r.kept && r.since < before }

  /** What the two queries select. */
  lemma SelectsTheSame(a: Attachment, s: Session, now: int)
    ensures Orphan(a, now) <==> Takes(OfAttachment(a), now - GRACE_MS)
    ensures Stale(s, now) <==> Takes(OfSession(s), now)
  {
  }

  /** The rows and objects; the ids and keys that were selected, and of these the ones whose
      object the loop has deleted. */
  datatype State = State(rows: map<Id, Row>, objects: set<Id>, batch: map<Id, Id>, reached: set<Id>)

  datatype Event =
    | Select(before: int, chosen: set<Id>)   // the next batch; which of the rows it takes is left open
    | Keep(id: Id)                           // a send links the attachment, or a call completes the session
    | Drop(id: Id)                           // somebody else deletes the row
    | DeleteObject(id: Id)                   // the loop comes to the row
    | DeleteRow(id: Id)

  function Next(s: State, e: Event): State {
    match e
    case Select(before, chosen) =>
      s.(batch := map id | id in chosen && id in s.rows && Takes(s.rows[id], before) :: s.rows[id].key, reached := {})
    case Keep(id) => if id in s.rows then s.(rows := s.rows[id := s.rows[id].(kept := true)]) else s
    case Drop(id) => s.(rows := s.rows - {id})
    case DeleteObject(id) =>
      if id in s.batch then s.(objects := s.objects - {s.batch[id]}, reached := s.reached + {id}) else s
    case DeleteRow(id) => if id in s.reached then s.(rows := s.rows - {id}, reached := s.reached - {id}) else s
  }

  function Run(s: State, es: seq<Event>): State {
    if es == [] then s else Next(Run(s, es[..|es| - 1]), es[|es| - 1])
  }

  /** The state before event `k`. */
  function At(s: State, es: seq<Event>, k: nat): State
    requires k <= |es|
  {
    Run(s, es[..k])
  }

  lemma AtNext(s: State, es: seq<Event>, k: nat)
    requires k < |es|
    ensures At(s, es, k + 1) == Next(At(s, es, k), es[k])
  {
    assert es[..k + 1][..k] == es[..k];
  }

  /** Nothing selected yet, and every row with an object of its own. */
  predicate Start(s: State) {
    && s.batch == map[] && s.reached == {}
    && forall a, b :: a in s.rows && b in s.rows && s.rows[a].key == s.rows[b].key ==> a == b
  }

  lemma AtStart(s: State, es: seq<Event>)
    ensures At(s, es, 0) == s
  {
  }

  // ---- what the events do -----------------------------------------------------------------------

  predicate Selects(s: State, e: Event, id: Id) {
    e.Select? && id in e.chosen && id in s.rows && Takes(s.rows[id], e.before)
  }

  predicate Keeps(s: State, e: Event, id: Id) {
    e == Keep(id) && id in s.rows && !s.rows[id].kept
  }

  predicate TakesObject(s: State, e: Event, id: Id) { e == DeleteObject(id) && id in s.batch }

  /** The loop deletes a row that must not be swept. */
  predicate DeletesKept(s: State, e: Event) {
    e.DeleteRow? && e.id in s.reached && e.id in s.rows && s.rows[e.id].kept
  }

  /** No row comes, and one there is keeps its key and stays kept. */
  lemma {:induction false} RowsStay(s: State, es: seq<Event>, a: nat, b: nat, id: Id)
    requires a <= b <= |es| && id in At(s, es, b).rows
    ensures id in At(s, es, a).rows && At(s, es, a).rows[id].key == At(s, es, b).rows[id].key
    ensures At(s, es, a).rows[id].kept ==> At(s, es, b).rows[id].kept
    decreases b
  {
    hide Run, At;
    if a < b {
      AtNext(s, es, b - 1);
      RowsStay(s, es, a, b - 1, id);
    }
  }

  predicate NoSelect(es: seq<Event>, from: nat, to: nat)
    requires from <= to <= |es|
  {
    forall i :: from <= i < to ==> !es[i].Select?
  }

  /** What is in the batch was selected for it, with its own key. */
  lemma {:induction false} SelectedAt(s: State, es: seq<Event>, k: nat, id: Id) returns (i: nat)
    requires Start(s) && k <= |es| && (id in At(s, es, k).batch || id in At(s, es, k).reached)
    ensures i < k && Selects(At(s, es, i), es[i], id) && NoSelect(es, i + 1, k)
    ensures id in At(s, es, k).batch && At(s, es, k).batch[id] == At(s, es, i).rows[id].key
    decreases k
  {
    hide Run, At;
    if k == 0 {
      AtStart(s, es);
      assert false;
    } else {
      AtNext(s, es, k - 1);
      if es[k - 1].Select? {
        i := k - 1;
      } else {
        i := SelectedAt(s, es, k - 1, id);
      }
    }
  }

  /** With nobody else at work the loop takes the rows it selected, with their objects, and leaves
      every other. */
  lemma AloneSweeps(s: State, id: Id, other: Id, before: int)
    requires Start(s) && id in s.rows && Takes(s.rows[id], before)
    ensures var after := Run(s, [Select(before, {id}), DeleteObject(other), DeleteRow(other)]);
      && after.rows == (if other == id then s.rows - {id} else s.rows)
      && after.objects == (if other == id then s.objects - {s.rows[id].key} else s.objects)
  {
    hide Next, Run;
    RunThree(s, Select(before, {id}), DeleteObject(other), DeleteRow(other));
    ThreeSteps(s, id, other, before);
  }

  /** A row that somebody else has deleted is neither kept nor deleted by the loop. */
  lemma DroppedIsGone(s: State, id: Id)
    ensures id !in Next(s, Drop(id)).rows && !Keeps(Next(s, Drop(id)), Keep(id), id)
    ensures !DeletesKept(Next(s, Drop(id)), DeleteRow(id))
  {
  }

  lemma RunThree(s: State, a: Event, b: Event, c: Event)
    ensures Run(s, [a, b, c]) == Next(Next(Next(s, a), b), c)
  {
    hide Next;
    var es := [a, b, c];
    assert es[..3] == es;
    AtStart(s, es);
    AtNext(s, es, 0);
    AtNext(s, es, 1);
    AtNext(s, es, 2);
  }

  lemma ThreeSteps(s: State, id: Id, other: Id, before: int)
    requires Start(s) && id in s.rows && Takes(s.rows[id], before)
    ensures var after := Next(Next(Next(s, Select(before, {id})), DeleteObject(other)), DeleteRow(other));
      && after.rows == (if other == id then s.rows - {id} else s.rows)
      && after.objects == (if other == id then s.objects - {s.rows[id].key} else s.objects)
  {
    assert Next(s, Select(before, {id})).batch == map[id := s.rows[id].key];
  }

  // ---- rows -------------------------------------------------------------------------------------

  /** The row was kept after the last selection before event `k`. */
  ghost predicate KeptSinceSelect(s: State, es: seq<Event>, k: nat, id: Id)
    requires k <= |es|
  {
    exists j :: 0 <= j < k && Keeps(At(s, es, j), es[j], id) && NoSelect(es, j + 1, k)
  }

  lemma {:induction false} KeptAt(s: State, es: seq<Event>, i: nat, k: nat, id: Id) returns (j: nat)
    requires i <= k <= |es| && id in At(s, es, i).rows && !At(s, es, i).rows[id].kept
    requires id in At(s, es, k).rows && At(s, es, k).rows[id].kept
    ensures i <= j < k && Keeps(At(s, es, j), es[j], id)
    decreases k
  {
    hide Run, At;
    AtNext(s, es, k - 1);
    RowsStay(s, es, k - 1, k, id);
    if At(s, es, k - 1).rows[id].kept {
      j := KeptAt(s, es, i, k - 1, id);
    } else {
      j := k - 1;
    }
  }

  /** A loop deletes a row that must not be swept exactly when it became so between the selection
      of its batch and its turn. */
  lemma KeptIsDeletedIff(s: State, es: seq<Event>, k: nat)
    requires Start(s) && k < |es| && es[k].DeleteRow?
    ensures DeletesKept(At(s, es, k), es[k]) <==>
      es[k].id in At(s, es, k).reached && es[k].id in At(s, es, k).rows && KeptSinceSelect(s, es, k, es[k].id)
  {
    hide Run, At;
    var id, here := es[k].id, At(s, es, k);
    if id in here.reached && id in here.rows {
      var i := SelectedAt(s, es, k, id);
      if here.rows[id].kept {
        var j := KeptAt(s, es, i, k, id);
        assert NoSelect(es, j + 1, k);
      } else if KeptSinceSelect(s, es, k, id) {
        var j :| 0 <= j < k && Keeps(At(s, es, j), es[j], id) && NoSelect(es, j + 1, k);
        AtNext(s, es, j);
        RowsStay(s, es, j + 1, k, id);
      }
    }
  }

  // ---- objects ----------------------------------------------------------------------------------

  lemma {:induction false} ObjectTaken(s: State, es: seq<Event>, n: nat, key: Id) returns (k: nat)
    requires n <= |es| && key in s.objects && key !in At(s, es, n).objects
    ensures k < n && es[k].DeleteObject? && es[k].id in At(s, es, k).batch && At(s, es, k).batch[es[k].id] == key
    decreases n
  {
    hide Run, At;
    AtStart(s, es);
    AtNext(s, es, n - 1);
    if key in At(s, es, n - 1).objects {
      k := n - 1;
    } else {
      k := ObjectTaken(s, es, n - 1, key);
    }
  }

  lemma {:induction false} ObjectStaysGone(s: State, es: seq<Event>, k: nat, n: nat, key: Id)
    requires k <= n <= |es| && key !in At(s, es, k).objects
    ensures key !in At(s, es, n).objects
    decreases n
  {
    hide Run, At;
    if k < n {
      AtNext(s, es, n - 1);
      ObjectStaysGone(s, es, k, n - 1, key);
    }
  }

  /** Something was linked or completed in the run, and its object is gone. */
  ghost predicate Lost(s: State, es: seq<Event>, n: nat, id: Id)
    requires n <= |es| && id in s.rows
  {
    s.rows[id].key !in At(s, es, n).objects && exists j :: 0 <= j < n && Keeps(At(s, es, j), es[j], id)
  }

  /** The batch from which the object is deleted, at `k`, was selected, at `i`, before the row
      became one to keep, at `j`. */
  ghost predicate SweptBeneath(s: State, es: seq<Event>, i: nat, j: nat, k: nat, id: Id)
    requires i < |es| && j < |es| && k < |es|
  {
    && i < j && i < k && NoSelect(es, i + 1, k)
    && Selects(At(s, es, i), es[i], id) && Keeps(At(s, es, j), es[j], id) && TakesObject(At(s, es, k), es[k], id)
  }

  /** A linked attachment, or the one made of a completed session, loses its object to the sweep
      exactly when the link or the completion came after the selection, and whether it came before
      or after the deletion. */
  lemma LostIff(s: State, es: seq<Event>, n: nat, id: Id)
    requires Start(s) && n <= |es| && id in s.rows && s.rows[id].key in s.objects
    ensures Lost(s, es, n, id) <==>
      exists i, j, k :: 0 <= i < n && 0 <= j < n && 0 <= k < n && SweptBeneath(s, es, i, j, k, id)
  {
    hide Run, At;
    var key := s.rows[id].key;
    AtStart(s, es);
    if Lost(s, es, n, id) {
      var j :| 0 <= j < n && Keeps(At(s, es, j), es[j], id);
      var k := ObjectTaken(s, es, n, key);
      var i := SelectedAt(s, es, k, es[k].id);
      RowsStay(s, es, 0, i, es[k].id);
      AtNext(s, es, j);
      if j < i {
        RowsStay(s, es, j + 1, i, id);
        assert false;
      }
      assert SweptBeneath(s, es, i, j, k, id);
    }
    if i, j, k :| 0 <= i < n && 0 <= j < n && 0 <= k < n && SweptBeneath(s, es, i, j, k, id) {
      TakenIsOwn(s, es, i, k, id);
      ObjectStaysGone(s, es, k + 1, n, key);
    }
  }

  lemma TakenIsOwn(s: State, es: seq<Event>, i: nat, k: nat, id: Id)
    requires Start(s) && i < k < |es| && Selects(At(s, es, i), es[i], id) && TakesObject(At(s, es, k), es[k], id)
    ensures id in s.rows && s.rows[id].key !in At(s, es, k + 1).objects
  {
    hide Run, At;
    AtStart(s, es);
    AtNext(s, es, k);
    var last := SelectedAt(s, es, k, id);
    RowsStay(s, es, 0, last, id);
  }

  // ---- runs in which something is lost ------------------------------------------------------------

  lemma FourStates(s: State, es: seq<Event>)
    requires |es| == 4
    ensures At(s, es, 4) == Next(Next(Next(Next(s, es[0]), es[1]), es[2]), es[3])
    ensures At(s, es, 3) == Next(Next(Next(s, es[0]), es[1]), es[2])
  {
    hide Next;
    AtStart(s, es);
    AtNext(s, es, 0);
    AtNext(s, es, 1);
    AtNext(s, es, 2);
    AtNext(s, es, 3);
  }

  /** An attachment is selected, sent with a message, and deleted. */
  lemma SentAndLost(a: Attachment, now: int)
    requires Orphan(a, now)
    ensures var s := State(map[1 := OfAttachment(a)], {a.key}, map[], {});
      var es := [Select(now - GRACE_MS, {1}), Keep(1), DeleteObject(1), DeleteRow(1)];
      Start(s) && DeletesKept(At(s, es, 3), es[3])
  {
    var s := State(map[1 := OfAttachment(a)], {a.key}, map[], {});
    FourStates(s, [Select(now - GRACE_MS, {1}), Keep(1), DeleteObject(1), DeleteRow(1)]);
  }

  /** A call passes its checks before the session expires; the expired session is selected, the
      call completes it, and the attachment it made loses its object. */
  lemma CompletedAndLost(session: Session, checkedAt: int, now: int)
    requires !session.completed && checkedAt < session.expiresAt < now
    ensures var s := State(map[1 := OfSession(session)], {session.key}, map[], {});
      var es := [Select(now, {1}), Keep(1), DeleteObject(1), DeleteRow(1)];
      Start(s) && Lost(s, es, 4, 1) && DeletesKept(At(s, es, 3), es[3])
  {
    hide Run, At;
    var s := State(map[1 := OfSession(session)], {session.key}, map[], {});
    var es := [Select(now, {1}), Keep(1), DeleteObject(1), DeleteRow(1)];
    FourStates(s, es);
    AtStart(s, es);
    AtNext(s, es, 0);
    assert Keeps(At(s, es, 1), es[1], 1);
  }
}
