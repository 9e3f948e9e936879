/** The sweep over orphan attachments and expired upload sessions: two batched loops in which
    any try at a row may fail, differently in every batch. */
module Gc {
  import opened Wrappers
  import opened Sets

  type Id = nat

  const BATCH := 500
  const GRACE_MS := 86_400_000

  datatype Attachment = Attachment(linkedAt: Option<int>, createdAt: int, key: Id, blocked: bool)

  datatype Session = Session(completed: bool, expiresAt: int, key: Id)

  predicate Orphan(a: Attachment, now: int) {
    a.linkedAt.None? && a.createdAt < now - GRACE_MS
  }

  predicate Stale(s: Session, now: int) {
    !s.completed && s.expiresAt < now
  }

  function Orphans(attachments: map<Id, Attachment>, now: int): set<Id> {
    set id | id in attachments && Orphan(attachments[id], now)
  }

  function StaleSessions(sessions: map<Id, Session>, now: int): set<Id> {
    set id | id in sessions && Stale(sessions[id], now)
  }

  /** What happens when a batch comes to a row. `mismatch`: its type has a signature and the
      stored bytes do not show it. */
  datatype Try = ReadFails | Checked(mismatch: bool, markFails: bool, objectFails: bool, rowFails: bool)

  predicate Marks(t: Try) { t.Checked? && t.mismatch && !t.markFails }
  predicate ReachesObject(t: Try) { t.Checked? && !(t.mismatch && t.markFails) && !t.objectFails }
  predicate Removes(t: Try) { ReachesObject(t) && !t.rowFails }

  /** The accesses of a whole try in order, and whether each goes through: the bytes are read, a
      mismatch is marked, the object is deleted, the row is deleted. */
  function Accesses(t: Try): seq<bool> {
    match t
    case ReadFails => [false]
    case Checked(mismatch, markFails, objectFails, rowFails) =>
      [true] + (if mismatch then [!markFails] else []) + [!objectFails, !rowFails]
  }

  /** A try stops at the first access that fails. */
  lemma TryStops(t: Try)
    ensures Removes(t) <==> forall i :: 0 <= i < |Accesses(t)| ==> Accesses(t)[i]
    ensures ReachesObject(t) <==> |Accesses(t)| >= 3 && forall i :: 0 <= i < |Accesses(t)| - 1 ==> Accesses(t)[i]
    ensures Marks(t) <==> |Accesses(t)| == 4 && Accesses(t)[0] && Accesses(t)[1]
  {
    var a := Accesses(t);
    if t.Checked? {
      assert a[0] && a[|a| - 2] == !t.objectFails && a[|a| - 1] == !t.rowFails;
      assert t.mismatch ==> a[1] == !t.markFails;
    } else {
      assert !a[0];
    }
  }

  /** The tries of a sweep, by batch and row. A session is not checked or marked. */
  type Tries = (nat, Id) -> Try

  // ---- batches ----------------------------------------------------------------------------------

  predicate Distinct(s: seq<Id>) {
    forall i, j :: 0 <= i < j < |s| ==> s[i] != s[j]
  }

  /** The first `BATCH` of the candidates by age; fewer only when there are no more. */
  predicate IsBatch(batch: seq<Id>, candidates: map<Id, int>) {
    && Distinct(batch) && |batch| <= BATCH
    && (forall i :: 0 <= i < |batch| ==> batch[i] in candidates)
    && (forall i, id :: 0 <= i < |batch| && id in candidates && id !in batch ==> candidates[batch[i]] <= candidates[id])
    && (|batch| < BATCH ==> forall id :: id in candidates ==> id in batch)
  }

  predicate Oldest(candidates: map<Id, int>, id: Id) {
    id in candidates && forall other :: other in candidates ==> candidates[id] <= candidates[other]
  }

  lemma {:induction false} OldestExists(candidates: map<Id, int>)
    requires candidates != map[]
    ensures exists id :: Oldest(candidates, id)
    decreases |candidates|
  {
    var x :| x in candidates;
    var rest := candidates - {x};
    if rest == map[] {
      assert forall other :: other in candidates ==> other == x || other in rest;
      assert Oldest(candidates, x);
    } else {
      OldestExists(rest);
      var y :| Oldest(rest, y);
      assert forall other :: other in candidates ==> other == x || (other in rest && rest[y] <= rest[other]);
      assert Oldest(candidates, if candidates[x] <= candidates[y] then x else y);
    }
  }

  /** The start of a batch: nothing left out is older. */
  predicate Taken(batch: seq<Id>, candidates: map<Id, int>, rest: map<Id, int>) {
    && Distinct(batch)
    && (forall i :: 0 <= i < |batch| ==> batch[i] in candidates)
    && (forall id :: id in rest ==> id in candidates && id !in batch && rest[id] == candidates[id])
    && (forall id :: id in candidates ==> id in batch || id in rest)
    && (forall i, id :: 0 <= i < |batch| && id in rest ==> candidates[batch[i]] <= candidates[id])
  }

  lemma TakeNext(batch: seq<Id>, candidates: map<Id, int>, rest: map<Id, int>, id: Id)
    requires Taken(batch, candidates, rest) && Oldest(rest, id)
    ensures Taken(batch + [id], candidates, rest - {id})
  {
    assert forall x :: x in batch + [id] <==> x in batch || x == id;
  }

  lemma TakenIsBatch(batch: seq<Id>, candidates: map<Id, int>, rest: map<Id, int>)
    requires Taken(batch, candidates, rest) && |batch| <= BATCH && (rest == map[] || |batch| == BATCH)
    ensures IsBatch(batch, candidates)
  {
    forall i, id | 0 <= i < |batch| && id in candidates && id !in batch ensures candidates[batch[i]] <= candidates[id] {
      assert id in rest;
    }
  }

  /** `ORDER BY age ASC LIMIT 500`; rows of one age come in any order. */
  method TakeOldest(candidates: map<Id, int>) returns (batch: seq<Id>)
    ensures IsBatch(batch, candidates)
    ensures |batch| == if |candidates| < 500 then |candidates| else 500
  {
    hide Taken, Oldest, IsBatch;
    batch := [];
    var rest := candidates;
    NothingTaken(candidates);
    while rest != map[] && |batch| < BATCH
      invariant Taken(batch, candidates, rest) && |batch| <= BATCH
      invariant |batch| + |rest| == |candidates|
      decreases |rest|
    {
      var id := PickOldest(rest);
      TakeNext(batch, candidates, rest, id);
      batch := batch + [id];
      rest := rest - {id};
    }
    TakenIsBatch(batch, candidates, rest);
  }

  lemma NothingTaken(candidates: map<Id, int>)
    ensures Taken([], candidates, candidates)
  {
  }

  method PickOldest(candidates: map<Id, int>) returns (id: Id)
    requires candidates != map[]
    ensures id in candidates && Oldest(candidates, id)
  {
    OldestExists(candidates);
    id :| id in candidates && Oldest(candidates, id);
  }

  // ---- what a batch does --------------------------------------------------------------------------

  /** The rows after the first `k` of a batch were tried. */
  function Tried(rows: map<Id, Attachment>, batch: seq<Id>, k: nat, tries: Tries, round: nat): map<Id, Attachment>
    requires k <= |batch|
  {
    map id | id in rows && !(id in batch[..k] && Removes(tries(round, id))) ::
      if id in batch[..k] && Marks(tries(round, id)) then rows[id].(blocked := true) else rows[id]
  }

  /** A sweep's own count of what it did. */
  datatype Counters = Counters(attachmentsDeleted: nat, attachmentsBlocked: nat, sessionsDeleted: nat, failures: nat)

  // ---- when a loop may stop -----------------------------------------------------------------------

  /** A loop stops when every row that is left to it has just failed, or when a full batch of
      such rows has just failed altogether. */
  ghost predicate Settled(left: set<Id>, tries: Tries, round: nat) {
    || (forall id :: id in left ==> !Removes(tries(round, id)))
    || (exists batch: seq<Id> :: FailedBatch(batch, left, tries, round))
  }

  ghost predicate FailedBatch(batch: seq<Id>, left: set<Id>, tries: Tries, round: nat) {
    && |batch| == BATCH && Distinct(batch)
    && (forall i :: 0 <= i < |batch| ==> batch[i] in left && !Removes(tries(round, batch[i])))
  }

  lemma {:induction false} DistinctFits(s: seq<Id>, within: set<Id>)
    requires Distinct(s) && forall i :: 0 <= i < |s| ==> s[i] in within
    ensures |s| <= |within|
    decreases |s|
  {
    if s != [] {
      var x := s[0];
      assert forall i :: 0 <= i < |s[1..]| ==> s[1..][i] == s[i + 1] && s[i + 1] != x;
      DistinctFits(s[1..], within - {x});
    }
  }

  /** While fewer rows than a batch ever fail, a settled loop leaves none but those. With no
      failures it leaves nothing. */
  lemma FewFailuresLeaveOnlyThemselves(left: set<Id>, tries: Tries, round: nat, failing: set<Id>)
    requires Settled(left, tries, round) && |failing| < BATCH
    requires forall n, id :: id !in failing ==> Removes(tries(n, id))
    ensures left <= failing
  {
    if batch: seq<Id> :| FailedBatch(batch, left, tries, round) {
      DistinctFits(batch, failing);
    }
  }

  function TriedRow(rows: map<Id, Attachment>, id: Id, t: Try): (r: map<Id, Attachment>)
    requires id in rows
  {
    if Removes(t) then rows - {id} else if Marks(t) then rows[id := rows[id].(blocked := true)] else rows
  }

  /** What a sweep counts. */
  datatype Kind = Removed | Failed | Marked

  predicate Counts(kind: Kind, t: Try) {
    match kind
    case Removed => Removes(t)
    case Failed => !Removes(t)
    case Marked => Marks(t)
  }

  /** How many of the first `k` tries of a batch are of a kind. */
  function CountIn(batch: seq<Id>, k: nat, tries: Tries, round: nat, kind: Kind): nat
    requires k <= |batch|
  {
    if k == 0 then 0
    else CountIn(batch, k - 1, tries, round, kind) + if Counts(kind, tries(round, batch[k - 1])) then 1 else 0
  }

  /** How many of all tries of some batches are of a kind. */
  function Total(batches: seq<seq<Id>>, tries: Tries, kind: Kind): nat {
    if batches == [] then 0
    else
      var n := |batches| - 1;
      Total(batches[..n], tries, kind) + CountIn(batches[n], |batches[n]|, tries, n, kind)
  }

  lemma TotalSnoc(batches: seq<seq<Id>>, batch: seq<Id>, tries: Tries, kind: Kind)
    ensures Total(batches + [batch], tries, kind) ==
      Total(batches, tries, kind) + CountIn(batch, |batch|, tries, |batches|, kind)
  {
    assert (batches + [batch])[..|batches|] == batches;
  }

  /** The batches of a sweep: no row twice in one of them, and all of them of rows it may take. */
  predicate Batches(batches: seq<seq<Id>>, candidates: set<Id>) {
    forall r :: 0 <= r < |batches| ==> Distinct(batches[r]) && AllIn(batches[r], candidates)
  }

  function AttachmentKeys(rows: map<Id, Attachment>): map<Id, Id> { map id | id in rows :: rows[id].key }

  function SessionKeys(rows: map<Id, Session>): (keys: map<Id, Id>)
    ensures keys.Keys == rows.Keys
  {
    map id | id in rows :: rows[id].key
  }

  /** The storage keys whose objects the first `k` tries of a batch delete. */
  function KeysReached(keys: map<Id, Id>, batch: seq<Id>, k: nat, tries: Tries, round: nat): set<Id>
    requires k <= |batch| && forall i :: 0 <= i < |batch| ==> batch[i] in keys
  {
    if k == 0 then {}
    else
      var before := KeysReached(keys, batch, k - 1, tries, round);
      if ReachesObject(tries(round, batch[k - 1])) then before + {keys[batch[k - 1]]} else before
  }

  lemma {:induction false} KeyReached(keys: map<Id, Id>, batch: seq<Id>, k: nat, tries: Tries, round: nat, key: Id)
    requires k <= |batch| && forall i :: 0 <= i < |batch| ==> batch[i] in keys
    requires key in KeysReached(keys, batch, k, tries, round)
    ensures exists i :: 0 <= i < k && keys[batch[i]] == key
    decreases k
  {
    if k > 0 && key in KeysReached(keys, batch, k - 1, tries, round) {
      KeyReached(keys, batch, k - 1, tries, round, key);
    }
  }

  lemma NothingTried(rows: map<Id, Attachment>, batch: seq<Id>, tries: Tries, round: nat)
    requires forall i :: 0 <= i < |batch| ==> batch[i] in rows
    ensures Tried(rows, batch, 0, tries, round) == rows
    ensures KeysReached(AttachmentKeys(rows), batch, 0, tries, round) == {}
  {
  }

  /** Trying one more row of a batch. */
  lemma NextTried(rows: map<Id, Attachment>, batch: seq<Id>, k: nat, tries: Tries, round: nat)
    requires Distinct(batch) && k < |batch| && forall i :: 0 <= i < |batch| ==> batch[i] in rows
    ensures var id, t, m := batch[k], tries(round, batch[k]), Tried(rows, batch, k, tries, round);
      && id in m && m[id] == rows[id] && Tried(rows, batch, k + 1, tries, round) == TriedRow(m, id, t)
      && |TriedRow(m, id, t)| == |m| - (if Removes(t) then 1 else 0)
      && KeysReached(AttachmentKeys(rows), batch, k + 1, tries, round)
           == KeysReached(AttachmentKeys(rows), batch, k, tries, round)
             + (if ReachesObject(t) then {rows[id].key} else {})
  {
    hide Tried, TriedRow, Marks, Removes, ReachesObject, Distinct;
    TriedGrows(rows, batch, k, tries, round);
  }

  lemma PrefixGrows(batch: seq<Id>, k: nat)
    requires Distinct(batch) && k < |batch|
    ensures batch[k] !in batch[..k] && forall id :: id in batch[..k + 1] <==> id in batch[..k] || id == batch[k]
  {
    assert batch[..k + 1] == batch[..k] + [batch[k]];
  }

  lemma TriedGrows(rows: map<Id, Attachment>, batch: seq<Id>, k: nat, tries: Tries, round: nat)
    requires Distinct(batch) && k < |batch| && batch[k] in rows
    ensures var id, t, m := batch[k], tries(round, batch[k]), Tried(rows, batch, k, tries, round);
      && id in m && m[id] == rows[id] && Tried(rows, batch, k + 1, tries, round) == TriedRow(m, id, t)
      && |TriedRow(m, id, t)| == |m| - (if Removes(t) then 1 else 0)
  {
    hide Removes, Marks, Distinct;
    var id, t, m := batch[k], tries(round, batch[k]), Tried(rows, batch, k, tries, round);
    PrefixGrows(batch, k);
    assert Tried(rows, batch, k + 1, tries, round) == TriedRow(m, id, t);
    if Removes(t) {
      MinusOne(m, id);
    }
  }

  // ---- sessions ------------------------------------------------------------------------------------

  /** The rows that the first `k` tries of a batch remove. */
  function Gone(batch: seq<Id>, k: nat, tries: Tries, round: nat): set<Id>
    requires k <= |batch|
  {
    set i | 0 <= i < k && Removes(tries(round, batch[i])) :: batch[i]
  }

  function LeftSessions(rows: map<Id, Session>, batch: seq<Id>, k: nat, tries: Tries, round: nat): map<Id, Session>
    requires k <= |batch|
  {
    rows - Gone(batch, k, tries, round)
  }

  lemma NextGone(rows: map<Id, Session>, batch: seq<Id>, k: nat, tries: Tries, round: nat)
    requires Distinct(batch) && k < |batch| && batch[k] in rows
    ensures var id, t, m := batch[k], tries(round, batch[k]), LeftSessions(rows, batch, k, tries, round);
      && id in m && m[id] == rows[id] && |m - {id}| == |m| - 1
      && LeftSessions(rows, batch, k + 1, tries, round) == if Removes(t) then m - {id} else m
  {
    hide Removes, Gone;
    GoneGrows(batch, k, tries, round);
    MinusOne(LeftSessions(rows, batch, k, tries, round), batch[k]);
    MinusBoth(rows, Gone(batch, k, tries, round), batch[k]);
  }

  lemma NextSession(rows: map<Id, Session>, batch: seq<Id>, k: nat, tries: Tries, round: nat)
    requires Distinct(batch) && k < |batch| && forall i :: 0 <= i < |batch| ==> batch[i] in rows
    ensures var id, t, m := batch[k], tries(round, batch[k]), LeftSessions(rows, batch, k, tries, round);
      && id in m && m[id] == rows[id]
      && LeftSessions(rows, batch, k + 1, tries, round) == (if Removes(t) then m - {id} else m)
      && |LeftSessions(rows, batch, k + 1, tries, round)| == |m| - (if Removes(t) then 1 else 0)
      && KeysReached(SessionKeys(rows), batch, k + 1, tries, round)
           == KeysReached(SessionKeys(rows), batch, k, tries, round) + (if ReachesObject(t) then {rows[id].key} else {})
  {
    hide LeftSessions, Removes, ReachesObject;
    NextGone(rows, batch, k, tries, round);
  }

  lemma MinusBoth<T>(m: map<Id, T>, s: set<Id>, id: Id)
    ensures m - (s + {id}) == m - s - {id}
  {
  }

  lemma GoneGrows(batch: seq<Id>, k: nat, tries: Tries, round: nat)
    requires Distinct(batch) && k < |batch|
    ensures Gone(batch, k + 1, tries, round) ==
      Gone(batch, k, tries, round) + if Removes(tries(round, batch[k])) then {batch[k]} else {}
    ensures batch[k] !in Gone(batch, k, tries, round)
  {
    hide Removes;
    var before, after := Gone(batch, k, tries, round), Gone(batch, k + 1, tries, round);
    forall id | id in after ensures id in before || (id == batch[k] && Removes(tries(round, batch[k]))) {
      var i :| 0 <= i < k + 1 && Removes(tries(round, batch[i])) && batch[i] == id;
    }
  }

  // ---- what holds during a loop ---------------------------------------------------------------

  /** A sweep of `before` has got to `after`, having deleted that many: it took only orphans and
      changed nothing else but the mark on orphans. */
  ghost predicate Swept(before: map<Id, Attachment>, after: map<Id, Attachment>, now: int, deleted: nat) {
    && after.Keys <= before.Keys && |after| + deleted == |before|
    && (forall id :: id in after ==>
          || after[id] == before[id]
          || (Orphan(before[id], now) && after[id] == before[id].(blocked := true)))
    && (forall id :: id in before && id !in after ==> Orphan(before[id], now))
  }

  ghost predicate SweptSessions(before: map<Id, Session>, after: map<Id, Session>, now: int, deleted: nat) {
    && after.Keys <= before.Keys && |after| + deleted == |before|
    && (forall id :: id in after ==> after[id] == before[id])
    && (forall id :: id in before && id !in after ==> Stale(before[id], now))
  }

  /** Only objects of orphans are gone. */
  ghost predicate OrphansObjects(before: map<Id, Attachment>, stored: set<Id>, objects: set<Id>, now: int) {
    && objects <= stored
    && (forall k :: k in stored && k !in objects ==>
          exists id :: id in before && Orphan(before[id], now) && before[id].key == k)
  }

  ghost predicate StaleObjects(before: map<Id, Session>, stored: set<Id>, objects: set<Id>, now: int) {
    && objects <= stored
    && (forall k :: k in stored && k !in objects ==>
          exists id :: id in before && Stale(before[id], now) && before[id].key == k)
  }

  predicate AllIn(batch: seq<Id>, s: set<Id>) {
    forall i :: 0 <= i < |batch| ==> batch[i] in s
  }

  lemma BatchSweeps(before: map<Id, Attachment>, rows: map<Id, Attachment>, batch: seq<Id>, tries: Tries,
        round: nat, now: int, done: nat, deleted: nat)
    requires Swept(before, rows, now, done) && AllIn(batch, Orphans(rows, now))
    requires var after := Tried(rows, batch, |batch|, tries, round); |after| + deleted == |rows|
    ensures Swept(before, Tried(rows, batch, |batch|, tries, round), now, done + deleted)
  {
    hide Removes, Marks;
    var after := Tried(rows, batch, |batch|, tries, round);
    assert batch[..|batch|] == batch;
    forall id | id in batch ensures id in rows && Orphan(rows[id], now) && Orphan(before[id], now) {
      var i :| 0 <= i < |batch| && batch[i] == id;
    }
  }

  lemma BatchReaches(before: map<Id, Attachment>, rows: map<Id, Attachment>, batch: seq<Id>, tries: Tries,
        round: nat, now: int, done: nat, stored: set<Id>, objects: set<Id>)
    requires Swept(before, rows, now, done) && AllIn(batch, Orphans(rows, now))
    requires OrphansObjects(before, stored, objects, now)
    ensures OrphansObjects(before, stored,
      objects - KeysReached(AttachmentKeys(rows), batch, |batch|, tries, round), now)
  {
    hide ReachesObject;
    var left := objects - KeysReached(AttachmentKeys(rows), batch, |batch|, tries, round);
    forall k | k in stored && k !in left
      ensures exists id :: id in before && Orphan(before[id], now) && before[id].key == k
    {
      if k in KeysReached(AttachmentKeys(rows), batch, |batch|, tries, round) {
        KeyReached(AttachmentKeys(rows), batch, |batch|, tries, round, k);
        var i :| 0 <= i < |batch| && AttachmentKeys(rows)[batch[i]] == k;
        assert batch[i] in Orphans(rows, now);
        assert Orphan(before[batch[i]], now) && before[batch[i]].key == k;
      }
    }
  }

  lemma SessionBatchSweeps(before: map<Id, Session>, rows: map<Id, Session>, batch: seq<Id>, tries: Tries,
        round: nat, now: int, done: nat, deleted: nat, stored: set<Id>, objects: set<Id>)
    requires SweptSessions(before, rows, now, done) && AllIn(batch, StaleSessions(rows, now))
    requires |LeftSessions(rows, batch, |batch|, tries, round)| + deleted == |rows|
    requires StaleObjects(before, stored, objects, now)
    ensures SweptSessions(before, LeftSessions(rows, batch, |batch|, tries, round), now, done + deleted)
    ensures StaleObjects(before, stored, objects - KeysReached(SessionKeys(rows), batch, |batch|, tries, round), now)
  {
    hide ReachesObject, Removes;
    var left := objects - KeysReached(SessionKeys(rows), batch, |batch|, tries, round);
    forall k | k in stored && k !in left
      ensures exists id :: id in before && Stale(before[id], now) && before[id].key == k
    {
      if k in KeysReached(SessionKeys(rows), batch, |batch|, tries, round) {
        KeyReached(SessionKeys(rows), batch, |batch|, tries, round, k);
        var i :| 0 <= i < |batch| && SessionKeys(rows)[batch[i]] == k;
        assert batch[i] in StaleSessions(rows, now);
        assert Stale(before[batch[i]], now) && before[batch[i]].key == k;
      }
    }
    forall id | id in Gone(batch, |batch|, tries, round) ensures id in StaleSessions(rows, now) {
    }
  }

  // ---- when a loop stops ----------------------------------------------------------------------------

  /** A short batch was all there was, so what is left of it has failed. */
  lemma ShortBatchSettles(matching: set<Id>, left: set<Id>, batch: seq<Id>, tries: Tries, round: nat)
    requires left <= matching && forall id :: id in matching ==> id in batch
    requires forall i :: 0 <= i < |batch| && batch[i] in left ==> !Removes(tries(round, batch[i]))
    ensures Settled(left, tries, round)
  {
    forall id | id in left ensures !Removes(tries(round, id)) {
      var i :| 0 <= i < |batch| && batch[i] == id;
    }
  }

  lemma FailedBatchSettles(left: set<Id>, batch: seq<Id>, tries: Tries, round: nat)
    requires |batch| == BATCH && Distinct(batch) && AllIn(batch, left)
    requires forall i :: 0 <= i < |batch| ==> !Removes(tries(round, batch[i]))
    ensures Settled(left, tries, round)
  {
    assert FailedBatch(batch, left, tries, round);
  }

  lemma OrphansAfter(rows: map<Id, Attachment>, batch: seq<Id>, tries: Tries, round: nat, now: int)
    ensures var left := Orphans(Tried(rows, batch, |batch|, tries, round), now);
      && left <= Orphans(rows, now)
      && (forall i :: 0 <= i < |batch| && batch[i] in left ==> !Removes(tries(round, batch[i])))
  {
    hide Removes, Marks;
    assert batch[..|batch|] == batch;
  }

  /** A batch that deleted nothing failed at every row. */
  lemma NothingDeleted(rows: map<Id, Attachment>, batch: seq<Id>, tries: Tries, round: nat, now: int)
    requires |Tried(rows, batch, |batch|, tries, round)| == |rows| && AllIn(batch, Orphans(rows, now))
    ensures AllIn(batch, Orphans(Tried(rows, batch, |batch|, tries, round), now))
    ensures forall i :: 0 <= i < |batch| ==> !Removes(tries(round, batch[i]))
  {
    hide Removes, Marks;
    var after := Tried(rows, batch, |batch|, tries, round);
    assert batch[..|batch|] == batch;
    assert after.Keys <= rows.Keys;
    SameSize(after.Keys, rows.Keys);
    forall i | 0 <= i < |batch| ensures !Removes(tries(round, batch[i])) && batch[i] in Orphans(after, now) {
      assert batch[i] in rows.Keys;
      assert batch[i] in after;
    }
  }

  lemma SessionsAfter(rows: map<Id, Session>, batch: seq<Id>, tries: Tries, round: nat, now: int)
    ensures var left := StaleSessions(LeftSessions(rows, batch, |batch|, tries, round), now);
      && left <= StaleSessions(rows, now)
      && (forall i :: 0 <= i < |batch| && batch[i] in left ==> !Removes(tries(round, batch[i])))
  {
    hide Removes;
  }

  lemma StaleAreSessions(rows: map<Id, Session>, batch: seq<Id>, now: int)
    requires AllIn(batch, StaleSessions(rows, now))
    ensures AllIn(batch, rows.Keys)
  {
  }

  lemma NoSessionDeleted(rows: map<Id, Session>, batch: seq<Id>, tries: Tries, round: nat)
    requires |LeftSessions(rows, batch, |batch|, tries, round)| == |rows| && AllIn(batch, rows.Keys)
    ensures LeftSessions(rows, batch, |batch|, tries, round) == rows
    ensures forall i :: 0 <= i < |batch| ==> !Removes(tries(round, batch[i]))
  {
    hide Removes;
    var after := LeftSessions(rows, batch, |batch|, tries, round);
    SameSize(after.Keys, rows.Keys);
    forall i | 0 <= i < |batch| ensures !Removes(tries(round, batch[i])) {
      assert batch[i] in after.Keys;
    }
  }

  // ---- the service -------------------------------------------------------------------------------

  class AttachmentGc {
    var attachments: map<Id, Attachment>
    var sessions: map<Id, Session>
    var objects: set<Id>

    /** One row of a batch, its failure isolated. */
    method TryOrphan(id: Id, t: Try) returns (blocked: bool, failed: bool)
      requires id in attachments
      modifies this`attachments, this`objects
      ensures attachments == TriedRow(old(attachments), id, t)
      ensures objects == if ReachesObject(t) then old(objects) - {old(attachments)[id].key} else old(objects)
      ensures blocked == Marks(t) && failed == !Removes(t)
    {
      blocked, failed := false, true;
      if t.ReadFails? {
        return;
      }
      if t.mismatch {
        if t.markFails {
          return;
        }
        attachments := attachments[id := attachments[id].(blocked := true)];
        blocked := true;
      }
      if t.objectFails {
        return;
      }
      objects := objects - {attachments[id].key};
      if t.rowFails {
        return;
      }
      attachments := attachments - {id};
      failed := false;
      assert attachments == old(attachments) - {id};
    }

    method TryOrphans(batch: seq<Id>, tries: Tries, round: nat) returns (deleted: nat, blocked: nat, failures: nat)
      requires Distinct(batch) && forall i :: 0 <= i < |batch| ==> batch[i] in attachments
      modifies this`attachments, this`objects
      ensures attachments == Tried(old(attachments), batch, |batch|, tries, round)
      ensures |attachments| + deleted == |old(attachments)| && deleted + failures == |batch|
      ensures deleted == CountIn(batch, |batch|, tries, round, Removed)
      ensures failures == CountIn(batch, |batch|, tries, round, Failed)
      ensures blocked == CountIn(batch, |batch|, tries, round, Marked)
      ensures objects == old(objects) - KeysReached(AttachmentKeys(old(attachments)), batch, |batch|, tries, round)
    {
      hide Tried, KeysReached, Distinct, TriedRow, Marks, Removes;
      deleted, blocked, failures := 0, 0, 0;
      ghost var rows, stored := attachments, objects;
      NothingTried(rows, batch, tries, round);
      var k := 0;
      while k < |batch|
        invariant k <= |batch| && attachments == Tried(rows, batch, k, tries, round)
        invariant |attachments| + deleted == |rows| && deleted + failures == k
        invariant deleted == CountIn(batch, k, tries, round, Removed)
        invariant failures == CountIn(batch, k, tries, round, Failed)
        invariant blocked == CountIn(batch, k, tries, round, Marked)
        invariant objects == stored - KeysReached(AttachmentKeys(rows), batch, k, tries, round)
      {
        NextTried(rows, batch, k, tries, round);
        var marked, failed := TryOrphan(batch[k], tries(round, batch[k]));
        if marked {
          blocked := blocked + 1;
        }
        if failed {
          failures := failures + 1;
        } else {
          deleted := deleted + 1;
        }
        k := k + 1;
      }
    }

    method TrySession(id: Id, t: Try) returns (failed: bool)
      requires id in sessions
      modifies this`sessions, this`objects
      ensures sessions == if Removes(t) then old(sessions) - {id} else old(sessions)
      ensures objects == if ReachesObject(t) then old(objects) - {old(sessions)[id].key} else old(objects)
      ensures failed == !Removes(t)
    {
      if !ReachesObject(t) {
        return true;
      }
      objects := objects - {sessions[id].key};
      if t.rowFails {
        return true;
      }
      sessions := sessions - {id};
      failed := false;
    }

    method TrySessions(batch: seq<Id>, tries: Tries, round: nat) returns (deleted: nat, failures: nat)
      requires Distinct(batch) && forall i :: 0 <= i < |batch| ==> batch[i] in sessions
      modifies this`sessions, this`objects
      ensures sessions == LeftSessions(old(sessions), batch, |batch|, tries, round)
      ensures |sessions| + deleted == |old(sessions)| && deleted + failures == |batch|
      ensures deleted == CountIn(batch, |batch|, tries, round, Removed)
      ensures failures == CountIn(batch, |batch|, tries, round, Failed)
      ensures objects == old(objects) - KeysReached(SessionKeys(old(sessions)), batch, |batch|, tries, round)
    {
      hide LeftSessions, KeysReached, Distinct, Removes, ReachesObject, SessionKeys;
      deleted, failures := 0, 0;
      ghost var rows, stored := sessions, objects;
      NothingGone(rows, batch, tries, round);
      var k := 0;
      while k < |batch|
        invariant k <= |batch| && sessions == LeftSessions(rows, batch, k, tries, round)
        invariant |sessions| + deleted == |rows| && deleted + failures == k
        invariant deleted == CountIn(batch, k, tries, round, Removed)
        invariant failures == CountIn(batch, k, tries, round, Failed)
        invariant objects == stored - KeysReached(SessionKeys(rows), batch, k, tries, round)
      {
        NextSession(rows, batch, k, tries, round);
        var id, t := batch[k], tries(round, batch[k]);
        var failed := TrySession(id, t);
        if failed {
          failures := failures + 1;
        } else {
          deleted := deleted + 1;
        }
        k := k + 1;
      }
    }

    /** The first loop. */
    method SweepAttachments(tries: Tries, now: int)
      returns (deleted: nat, blocked: nat, failures: nat, ghost last: nat, ghost batches: seq<seq<Id>>)
      modifies this`attachments, this`objects
      ensures Swept(old(attachments), attachments, now, deleted)
      ensures OrphansObjects(old(attachments), old(objects), objects, now)
      ensures Settled(Orphans(attachments, now), tries, last)
      ensures Batches(batches, Orphans(old(attachments), now))
      ensures deleted == Total(batches, tries, Removed) && failures == Total(batches, tries, Failed)
      ensures blocked == Total(batches, tries, Marked)
    {
      hide Swept, OrphansObjects, Settled, Tried, KeysReached, Orphans, Orphan, CountIn, Total, Distinct;
      ghost var before, stored := attachments, objects;
      NothingSwept(before, stored, now);
      deleted, blocked, failures, last, batches := 0, 0, 0, 0, [];
      NoBatches(tries, Orphans(before, now));
      var round := 0;
      while true
        invariant Swept(before, attachments, now, deleted)
        invariant OrphansObjects(before, stored, objects, now)
        invariant |batches| == round && Batches(batches, Orphans(before, now))
        invariant deleted == Total(batches, tries, Removed) && failures == Total(batches, tries, Failed)
        invariant blocked == Total(batches, tries, Marked)
        decreases |attachments|
      {
        var orphans := SelectOrphans(now);
        last := round;
        if |orphans| == 0 {
          ShortBatchSettles(Orphans(attachments, now), Orphans(attachments, now), orphans, tries, round);
          break;
        }
        ghost var rows, reached := attachments, objects;
        var d, b, f := TryOrphans(orphans, tries, round);
        BatchSweeps(before, rows, orphans, tries, round, now, deleted, d);
        BatchReaches(before, rows, orphans, tries, round, now, deleted, stored, reached);
        OrphansAfter(rows, orphans, tries, round, now);
        deleted, blocked, failures := deleted + d, blocked + b, failures + f;
        OrphansWere(before, rows, now, deleted - d);
        NextBatch(batches, orphans, tries, Orphans(rows, now), Orphans(before, now));
        batches := batches + [orphans];
        if |orphans| < BATCH {
          ShortBatchSettles(Orphans(rows, now), Orphans(attachments, now), orphans, tries, round);
          break;
        }
        if d == 0 {
          NothingDeleted(rows, orphans, tries, round, now);
          FailedBatchSettles(Orphans(attachments, now), orphans, tries, round);
          break;
        }
        round := round + 1;
      }
    }

    method SelectOrphans(now: int) returns (batch: seq<Id>)
      ensures Distinct(batch) && AllIn(batch, Orphans(attachments, now)) && |batch| <= BATCH
      ensures forall i :: 0 <= i < |batch| ==> batch[i] in attachments
      ensures forall i, id :: 0 <= i < |batch| && id in Orphans(attachments, now) && id !in batch ==>
        attachments[batch[i]].createdAt <= attachments[id].createdAt
      ensures |batch| < BATCH ==> forall id :: id in Orphans(attachments, now) ==> id in batch
    {
      batch := TakeOldest(map id | id in Orphans(attachments, now) :: attachments[id].createdAt);
    }

    method SelectSessions(now: int) returns (batch: seq<Id>)
      ensures Distinct(batch) && AllIn(batch, StaleSessions(sessions, now)) && |batch| <= BATCH
      ensures forall i :: 0 <= i < |batch| ==> batch[i] in sessions
      ensures forall i, id :: 0 <= i < |batch| && id in StaleSessions(sessions, now) && id !in batch ==>
        sessions[batch[i]].expiresAt <= sessions[id].expiresAt
      ensures |batch| < BATCH ==> forall id :: id in StaleSessions(sessions, now) ==> id in batch
    {
      batch := TakeOldest(map id | id in StaleSessions(sessions, now) :: sessions[id].expiresAt);
    }

    /** The second loop. */
    method SweepSessions(tries: Tries, now: int)
      returns (deleted: nat, failures: nat, ghost last: nat, ghost batches: seq<seq<Id>>)
      modifies this`sessions, this`objects
      ensures SweptSessions(old(sessions), sessions, now, deleted)
      ensures StaleObjects(old(sessions), old(objects), objects, now)
      ensures Settled(StaleSessions(sessions, now), tries, last)
      ensures Batches(batches, StaleSessions(old(sessions), now))
      ensures deleted == Total(batches, tries, Removed) && failures == Total(batches, tries, Failed)
    {
      hide SweptSessions, StaleObjects, Settled, KeysReached, Stale, CountIn, Total, Distinct, StaleSessions,
        LeftSessions, AllIn;
      ghost var before, stored := sessions, objects;
      NoSessionSwept(before, stored, now);
      deleted, failures, last, batches := 0, 0, 0, [];
      NoBatches(tries, StaleSessions(before, now));
      var round := 0;
      while true
        invariant SweptSessions(before, sessions, now, deleted)
        invariant StaleObjects(before, stored, objects, now)
        invariant |batches| == round && Batches(batches, StaleSessions(before, now))
        invariant deleted == Total(batches, tries, Removed) && failures == Total(batches, tries, Failed)
        decreases |sessions|
      {
        var stale := SelectSessions(now);
        last := round;
        if |stale| == 0 {
          ShortBatchSettles(StaleSessions(sessions, now), StaleSessions(sessions, now), stale, tries, round);
          break;
        }
        ghost var rows, reached := sessions, objects;
        var d, f := TrySessions(stale, tries, round);
        SessionBatchSweeps(before, rows, stale, tries, round, now, deleted, d, stored, reached);
        SessionsAfter(rows, stale, tries, round, now);
        deleted, failures := deleted + d, failures + f;
        StaleWere(before, rows, now, deleted - d);
        NextBatch(batches, stale, tries, StaleSessions(rows, now), StaleSessions(before, now));
        batches := batches + [stale];
        if |stale| < BATCH {
          ShortBatchSettles(StaleSessions(rows, now), StaleSessions(sessions, now), stale, tries, round);
          break;
        }
        if d == 0 {
          StaleAreSessions(rows, stale, now);
          NoSessionDeleted(rows, stale, tries, round);
          FailedBatchSettles(StaleSessions(sessions, now), stale, tries, round);
          break;
        }
        round := round + 1;
      }
    }

    /** `sweep`: it takes only orphans past their grace and uncompleted expired sessions, counts
        exactly the rows it removed, the tries that failed and the marks it made, and stops
        settled. */
    method Sweep(attachmentTries: Tries, sessionTries: Tries, now: int)
      returns (c: Counters, ghost a: seq<seq<Id>>, ghost s: seq<seq<Id>>, ghost lastA: nat, ghost lastS: nat)
      modifies this
      ensures Swept(old(attachments), attachments, now, c.attachmentsDeleted)
      ensures SweptSessions(old(sessions), sessions, now, c.sessionsDeleted)
      ensures Settled(Orphans(attachments, now), attachmentTries, lastA)
      ensures Settled(StaleSessions(sessions, now), sessionTries, lastS)
      ensures Batches(a, Orphans(old(attachments), now)) && Batches(s, StaleSessions(old(sessions), now))
      ensures c == Counters(
        Total(a, attachmentTries, Removed), Total(a, attachmentTries, Marked), Total(s, sessionTries, Removed),
        Total(a, attachmentTries, Failed) + Total(s, sessionTries, Failed))
      ensures forall k :: k in old(objects) && k !in objects ==>
        || (exists id :: id in old(attachments) && Orphan(old(attachments)[id], now) && old(attachments)[id].key == k)
        || (exists id :: id in old(sessions) && Stale(old(sessions)[id], now) && old(sessions)[id].key == k)
    {
      hide Swept, SweptSessions, Settled, Batches, Total;
      var deleted, blocked, failed;
      deleted, blocked, failed, lastA, a := SweepAttachments(attachmentTries, now);
      var sessionsDeleted, sessionsFailed;
      sessionsDeleted, sessionsFailed, lastS, s := SweepSessions(sessionTries, now);
      c := Counters(deleted, blocked, sessionsDeleted, failed + sessionsFailed);
    }
  }

  lemma NoBatches(tries: Tries, candidates: set<Id>)
    ensures Batches([], candidates) && forall kind :: Total([], tries, kind) == 0
  {
  }

  lemma NextBatch(batches: seq<seq<Id>>, batch: seq<Id>, tries: Tries, now: set<Id>, candidates: set<Id>)
    requires Batches(batches, candidates) && Distinct(batch) && AllIn(batch, now) && now <= candidates
    ensures Batches(batches + [batch], candidates)
    ensures forall kind {:trigger CountIn(batch, |batch|, tries, |batches|, kind)} ::
      Total(batches + [batch], tries, kind) ==
        Total(batches, tries, kind) + CountIn(batch, |batch|, tries, |batches|, kind)
  {
    hide Total, CountIn, Distinct;
    forall kind: Kind
      ensures Total(batches + [batch], tries, kind) ==
        Total(batches, tries, kind) + CountIn(batch, |batch|, tries, |batches|, kind)
    {
      TotalSnoc(batches, batch, tries, kind);
    }
  }

  /** What is an orphan during a sweep was one at its start. */
  lemma OrphansWere(before: map<Id, Attachment>, rows: map<Id, Attachment>, now: int, done: nat)
    requires Swept(before, rows, now, done)
    ensures Orphans(rows, now) <= Orphans(before, now)
  {
  }

  lemma StaleWere(before: map<Id, Session>, rows: map<Id, Session>, now: int, done: nat)
    requires SweptSessions(before, rows, now, done)
    ensures StaleSessions(rows, now) <= StaleSessions(before, now)
  {
  }

  lemma NothingGone(rows: map<Id, Session>, batch: seq<Id>, tries: Tries, round: nat)
    requires forall i :: 0 <= i < |batch| ==> batch[i] in rows
    ensures LeftSessions(rows, batch, 0, tries, round) == rows
      && KeysReached(SessionKeys(rows), batch, 0, tries, round) == {}
  {
  }

  lemma NothingSwept(before: map<Id, Attachment>, stored: set<Id>, now: int)
    ensures Swept(before, before, now, 0) && OrphansObjects(before, stored, stored, now)
  {
  }

  lemma NoSessionSwept(before: map<Id, Session>, stored: set<Id>, now: int)
    ensures SweptSessions(before, before, now, 0) && StaleObjects(before, stored, stored, now)
  {
  }
}
