/** The read-state tables together with the snapshot stores and the total cache, the steps
    that change them, and what holds over every serial run. */
module UnreadWorld {
  import opened Wrappers
  import opened Permissions
  import opened ReadState
  import opened MarkAll
  import opened Totals

  const SNAPSHOT_TTL_MS := 300_000

  /** A durable snapshot row and its copy in the fast store. */
  datatype SnapshotRow = SnapshotRow(user: Id, workspace: Id, snapshot: Snapshot, expiresAt: int)
  datatype SnapshotKey = SnapshotKey(user: Id, workspace: Id, snapshot: Snapshot)

  /** `cache` is keyed by (workspace, user). */
  datatype World = World(db: Db, rows: map<Id, SnapshotRow>, keys: map<Id, SnapshotKey>, cache: map<(Id, Id), Hash>)

  // ---- invalidation -----------------------------------------------------------------------------

  function Invalidated(w: World, workspace: Id, user: Id): World {
    w.(cache := w.cache - {(workspace, user)})
  }

  /** Drops the entry of the given workspace or else of the channel's own. */
  function InvalidatedFor(w: World, user: Id, channel: Id, workspace: Option<Id>): World {
    if workspace.Some? then Invalidated(w, workspace.value, user)
    else if channel in w.db.channels && w.db.channels[channel].workspace.Some? then
      Invalidated(w, w.db.channels[channel].workspace.value, user)
    else w
  }

  // ---- steps --------------------------------------------------------------------------------------

  /** What went wrong in the stores during a claim. `unreadable`: what the key holds is no snapshot. */
  datatype Faults = Faults(claimFails: bool, deleteFails: bool, unreadable: bool)
  const NO_FAULTS := Faults(false, false, false)

  datatype Op =
    | Ack(user: Id, channel: Id, message: Id, workspace: Option<Id>)
    | MarkUnread(user: Id, channel: Id, message: Id, workspace: Option<Id>)
    | MarkAllRead(user: Id, workspaceId: Id, snapshotId: Id, now: int)
    | Undo(user: Id, workspaceId: Id, snapshotId: Id, now: int, faults: Faults)
    | ReadTotal(workspaceId: Id, user: Id)
    | ExpireTotal(workspaceId: Id, user: Id)
    | ExpireSnapshot(snapshotId: Id)
    | Change(db: Db, dropped: set<(Id, Id)>)   // any other change, with the entries it drops

  ghost function AckStep(w: World, user: Id, channel: Id, i: Id, workspace: Option<Id>): World {
    if !BelongsTo(w.db, i, channel) then w
    else InvalidatedFor(w.(db := Acked(w.db, user, channel, KeyAt(w.db, i))), user, channel, workspace)
  }

  ghost function MarkUnreadStep(w: World, user: Id, channel: Id, i: Id, workspace: Option<Id>): World {
    if !BelongsTo(w.db, i, channel) then w
    else InvalidatedFor(w.(db := MarkedUnread(w.db, user, channel, i)), user, channel, workspace)
  }

  ghost function MarkAllStep(w: World, user: Id, workspace: Id, id: Id, now: int): World {
    var snap := SnapshotOf(w.db, user, workspace);
    var next := World(
      MarkedAllRead(w.db, user, workspace),
      w.rows[id := SnapshotRow(user, workspace, snap, now + SNAPSHOT_TTL_MS)],
      w.keys[id := SnapshotKey(user, workspace, snap)],
      w.cache);
    if snap == map[] then next else Invalidated(next, workspace, user)
  }

  datatype Claim = Claim(snapshot: Option<Snapshot>, world: World)

  /** `loadAndConsumeSnapshot`: the owner-gated claim in the fast store, else the durable row. */
  function ClaimSnapshot(w: World, user: Id, workspace: Id, id: Id, now: int, f: Faults): Claim {
    if id in w.keys && !f.claimFails then
      var k := w.keys[id];
      if k.user != user || k.workspace != workspace then Claim(None, w)
      else
        var rows := if id in w.rows && w.rows[id].user == user && w.rows[id].workspace == workspace && !f.deleteFails
          then w.rows - {id} else w.rows;
        Claim(if f.unreadable then None else Some(k.snapshot), w.(keys := w.keys - {id}, rows := rows))
    else if id in w.rows && w.rows[id].user == user && w.rows[id].workspace == workspace
      && w.rows[id].expiresAt > now then
      Claim(Some(w.rows[id].snapshot), w.(rows := w.rows - {id}))
    else Claim(None, w)
  }

  function UndoStep(w: World, user: Id, workspace: Id, id: Id, now: int, f: Faults): World {
    var claim := ClaimSnapshot(w, user, workspace, id, now, f);
    if claim.snapshot.None? || claim.snapshot.value == map[] then claim.world
    else Invalidated(claim.world.(db := Restored(claim.world.db, user, claim.snapshot.value)), workspace, user)
  }

  /** A hit answers from the cache; a miss fills it. */
  ghost function ReadTotalStep(w: World, workspace: Id, user: Id): World {
    if (workspace, user) in w.cache then w
    else w.(cache := w.cache[(workspace, user) := Encode(Summarize(w.db, workspace, user))])
  }

  ghost function TotalRead(w: World, workspace: Id, user: Id): Total {
    if (workspace, user) in w.cache then HashTotal(w.cache[(workspace, user)])
    else TotalOf(Summarize(w.db, workspace, user))
  }

  ghost function Step(w: World, op: Op): World {
    match op
    case Ack(u, c, i, ws) => AckStep(w, u, c, i, ws)
    case MarkUnread(u, c, i, ws) => MarkUnreadStep(w, u, c, i, ws)
    case MarkAllRead(u, ws, id, now) => MarkAllStep(w, u, ws, id, now)
    case Undo(u, ws, id, now, f) => UndoStep(w, u, ws, id, now, f)
    case ReadTotal(ws, u) => ReadTotalStep(w, ws, u)
    case ExpireTotal(ws, u) => Invalidated(w, ws, u)
    case ExpireSnapshot(id) => w.(keys := w.keys - {id})
    case Change(db, dropped) => w.(db := db, cache := w.cache - dropped)
  }

  // ---- coherence -----------------------------------------------------------------------------------

  /** Every cache entry is what a fresh summary would be encoded as. */
  ghost predicate Coherent(w: World) {
    forall k :: k in w.cache ==> w.cache[k] == Encode(Summarize(w.db, k.0, k.1))
  }

  /** A stored snapshot is about channels of its own workspace. */
  predicate SnapshotsLocal(w: World) {
    && (forall id, c :: id in w.rows && c in w.rows[id].snapshot && c in w.db.channels ==>
          w.db.channels[c].workspace == Some(w.rows[id].workspace))
    && (forall id, c :: id in w.keys && c in w.keys[id].snapshot && c in w.db.channels ==>
          w.db.channels[c].workspace == Some(w.keys[id].workspace))
  }

  /** What the callers and the other services owe: the route's workspace is the channel's, and
      a change elsewhere drops the entries whose summary it changes and moves no channel that
      a snapshot is about to another workspace. */
  ghost predicate Allowed(w: World, op: Op) {
    match op
    case Ack(_, c, _, ws) => ws.Some? ==> c in w.db.channels && w.db.channels[c].workspace == ws
    case MarkUnread(_, c, _, ws) => ws.Some? ==> c in w.db.channels && w.db.channels[c].workspace == ws
    case Change(db, dropped) =>
      && SnapshotsLocal(w.(db := db))
      && forall k :: k in w.cache && k !in dropped ==> Summarize(db, k.0, k.1) == Summarize(w.db, k.0, k.1)
    case _ => true
  }

  /** Moving one user's cursors in some channels changes no summary but those of that user in
      the workspaces of those channels. */
  lemma SummaryLocal(db: Db, next: Db, user: Id, channels: set<Id>, workspace: Id, other: Id)
    requires next.messages == db.messages && next.channels == db.channels
    requires forall u, c :: u != user || c !in channels ==> CursorOf(next, u, c) == CursorOf(db, u, c)
    requires other != user || forall c :: c in channels && c in db.channels ==>
      db.channels[c].workspace != Some(workspace)
    ensures Summarize(next, workspace, other) == Summarize(db, workspace, other)
  {
    assert SummaryChannels(next, workspace, other) == SummaryChannels(db, workspace, other);
    forall c | c in SummaryChannels(db, workspace, other)
      ensures SummaryOf(next, other, c) == SummaryOf(db, other, c)
    {
      assert CursorOf(next, other, c) == CursorOf(db, other, c);
      SameCursorSameSummary(db, next, other, c);
    }
  }

  lemma SameCursorSameSummary(db: Db, next: Db, user: Id, c: Id)
    requires next.messages == db.messages && CursorOf(next, user, c) == CursorOf(db, user, c)
    ensures SummaryOf(next, user, c) == SummaryOf(db, user, c)
  {
    assert Unread(next, user, c) == Unread(db, user, c);
    assert MentionsFor(next, user, c) == MentionsFor(db, user, c);
    var unread := Unread(db, user, c);
    if unread != {} {
      var i := Latest(db, unread).value;
      assert IsLatest(next, unread, i);
      LatestUnique(next, unread, i);
    }
  }

  /** Dropping one entry after moving one user's cursors in channels of that workspace. */
  lemma DropKeepsCoherence(w: World, next: Db, user: Id, channels: set<Id>, workspace: Id)
    requires Coherent(w)
    requires next.messages == w.db.messages && next.channels == w.db.channels
    requires forall u, c :: u != user || c !in channels ==> CursorOf(next, u, c) == CursorOf(w.db, u, c)
    requires forall c :: c in channels && c in w.db.channels ==> w.db.channels[c].workspace == Some(workspace)
    ensures Coherent(Invalidated(w.(db := next), workspace, user))
  {
    forall k | k in w.cache && k != (workspace, user)
      ensures Summarize(next, k.0, k.1) == Summarize(w.db, k.0, k.1)
    {
      SummaryLocal(w.db, next, user, channels, k.0, k.1);
    }
  }

  /** Nothing to drop when the channel belongs to no workspace. */
  lemma NoWorkspaceCoherence(w: World, next: Db, user: Id, channel: Id)
    requires Coherent(w)
    requires next.messages == w.db.messages && next.channels == w.db.channels
    requires forall u, c :: u != user || c != channel ==> CursorOf(next, u, c) == CursorOf(w.db, u, c)
    requires channel in w.db.channels ==> w.db.channels[channel].workspace.None?
    ensures Coherent(w.(db := next))
  {
    forall k | k in w.cache
      ensures Summarize(next, k.0, k.1) == Summarize(w.db, k.0, k.1)
    {
      SummaryLocal(w.db, next, user, {channel}, k.0, k.1);
    }
  }

  lemma CursorStepCoherent(w: World, next: Db, user: Id, channel: Id, workspace: Option<Id>)
    requires Coherent(w)
    requires next.messages == w.db.messages && next.channels == w.db.channels
    requires forall u, c :: u != user || c != channel ==> CursorOf(next, u, c) == CursorOf(w.db, u, c)
    requires workspace.Some? ==> channel in w.db.channels && w.db.channels[channel].workspace == workspace
    ensures Coherent(InvalidatedFor(w.(db := next), user, channel, workspace))
  {
    hide Coherent;
    if workspace.Some? {
      DropKeepsCoherence(w, next, user, {channel}, workspace.value);
    } else if channel in w.db.channels && w.db.channels[channel].workspace.Some? {
      DropKeepsCoherence(w, next, user, {channel}, w.db.channels[channel].workspace.value);
    } else {
      NoWorkspaceCoherence(w, next, user, channel);
    }
  }

  lemma MarkAllCoherent(w: World, user: Id, workspace: Id, id: Id, now: int)
    requires Coherent(w)
    ensures Coherent(MarkAllStep(w, user, workspace, id, now))
  {
    hide Summarize, Encode, Target;
    var next := MarkedAllRead(w.db, user, workspace);
    var moved := Advanced(w.db, user, workspace);
    forall u, c | u != user || c !in moved ensures CursorOf(next, u, c) == CursorOf(w.db, u, c) {
      WithCursorsAt(w.db, user, NewCursors(w.db, user, workspace), u, c);
    }
    DropKeepsCoherence(w, next, user, moved, workspace);
    if SnapshotOf(w.db, user, workspace) == map[] {
      NothingMoved(w.db, user, workspace);
    }
  }

  lemma NothingMoved(db: Db, user: Id, workspace: Id)
    requires SnapshotOf(db, user, workspace) == map[]
    ensures MarkedAllRead(db, user, workspace) == db
  {
    hide Target, Advanced;
    assert SnapshotOf(db, user, workspace).Keys == Advanced(db, user, workspace);
    RestoredKeys(db, user, NewCursors(db, user, workspace));
    assert MarkedAllRead(db, user, workspace).cursors == db.cursors;
  }

  lemma UndoCoherent(w: World, user: Id, workspace: Id, id: Id, now: int, f: Faults)
    requires Coherent(w) && SnapshotsLocal(w)
    ensures Coherent(UndoStep(w, user, workspace, id, now, f))
  {
    hide Summarize, Encode;
    var claim := ClaimSnapshot(w, user, workspace, id, now, f);
    assert claim.world.db == w.db && claim.world.cache == w.cache;
    if claim.snapshot.Some? {
      var snap := claim.snapshot.value;
      var next := Restored(w.db, user, snap);
      forall u, c | u != user || c !in snap.Keys ensures CursorOf(next, u, c) == CursorOf(w.db, u, c) {
        WithCursorsAt(w.db, user, snap, u, c);
      }
      DropKeepsCoherence(w, next, user, snap.Keys, workspace);
    }
  }

  lemma StepCoherent(w: World, op: Op)
    requires Coherent(w) && SnapshotsLocal(w) && Allowed(w, op)
    ensures Coherent(Step(w, op))
  {
    hide SnapshotsLocal, Summarize, Encode, MarkAllStep, UndoStep, CursorBefore;
    match op {
      case Ack(u, c, i, ws) =>
        if BelongsTo(w.db, i, c) {
          AckedCursor(w.db, u, c, KeyAt(w.db, i));
          CursorStepCoherent(w, Acked(w.db, u, c, KeyAt(w.db, i)), u, c, ws);
        }
      case MarkUnread(u, c, i, ws) =>
        if BelongsTo(w.db, i, c) {
          CursorStepCoherent(w, MarkedUnread(w.db, u, c, i), u, c, ws);
        }
      case MarkAllRead(u, ws, id, now) => MarkAllCoherent(w, u, ws, id, now);
      case Undo(u, ws, id, now, f) => UndoCoherent(w, u, ws, id, now, f);
      case ReadTotal(_, _) =>
      case ExpireTotal(_, _) =>
      case ExpireSnapshot(_) =>
      case Change(_, _) =>
    }
  }

  function ReaderIn(db: Db, user: Id, c: Id): Option<(Id, Id)> {
    if c in db.channels && db.channels[c].workspace.Some? then Some((db.channels[c].workspace.value, user)) else None
  }

  /** The (workspace, user) whose summary an operation can change, if there is one. */
  function SubjectOf(w: World, op: Op): Option<(Id, Id)> {
    match op
    case Ack(u, c, _, _) => ReaderIn(w.db, u, c)
    case MarkUnread(u, c, _, _) => ReaderIn(w.db, u, c)
    case MarkAllRead(u, ws, _, _) => Some((ws, u))
    case Undo(u, ws, _, _, _) => Some((ws, u))
    case _ => None
  }

  /** An operation changes the summary of one user in one workspace at most: that of the user who
      calls it, in the workspace of the channels it is about. */
  lemma OthersKeepSummaries(w: World, op: Op, workspace: Id, user: Id)
    requires SnapshotsLocal(w) && !op.Change? && SubjectOf(w, op) != Some((workspace, user))
    ensures Summarize(Step(w, op).db, workspace, user) == Summarize(w.db, workspace, user)
  {
    hide Summarize, Encode, CursorBefore, SnapshotsLocal, Target, Advanced;
    match op {
      case Ack(u, c, i, _) =>
        if BelongsTo(w.db, i, c) {
          AckedCursor(w.db, u, c, KeyAt(w.db, i));
          SummaryLocal(w.db, Acked(w.db, u, c, KeyAt(w.db, i)), u, {c}, workspace, user);
        }
      case MarkUnread(u, c, i, _) =>
        if BelongsTo(w.db, i, c) {
          SummaryLocal(w.db, MarkedUnread(w.db, u, c, i), u, {c}, workspace, user);
        }
      case MarkAllRead(u, ws, id, now) => MarkAllKeepsOthers(w.db, u, ws, workspace, user);
      case Undo(u, ws, id, now, f) => UndoKeepsOthers(w, u, ws, id, now, f, workspace, user);
      case ReadTotal(_, _) =>
      case ExpireTotal(_, _) =>
      case ExpireSnapshot(_) =>
    }
  }

  lemma MarkAllKeepsOthers(db: Db, user: Id, workspace: Id, otherWorkspace: Id, other: Id)
    requires other != user || otherWorkspace != workspace
    ensures Summarize(MarkedAllRead(db, user, workspace), otherWorkspace, other) == Summarize(db, otherWorkspace, other)
  {
    hide Summarize, Target;
    var next := MarkedAllRead(db, user, workspace);
    var moved := Advanced(db, user, workspace);
    forall u, c | u != user || c !in moved ensures CursorOf(next, u, c) == CursorOf(db, u, c) {
      WithCursorsAt(db, user, NewCursors(db, user, workspace), u, c);
    }
    SummaryLocal(db, next, user, moved, otherWorkspace, other);
  }

  lemma UndoKeepsOthers(w: World, user: Id, workspace: Id, id: Id, now: int, f: Faults, otherWorkspace: Id, other: Id)
    requires SnapshotsLocal(w) && (other != user || otherWorkspace != workspace)
    ensures Summarize(UndoStep(w, user, workspace, id, now, f).db, otherWorkspace, other)
      == Summarize(w.db, otherWorkspace, other)
  {
    hide Summarize;
    var claim := ClaimSnapshot(w, user, workspace, id, now, f);
    assert claim.world.db == w.db;
    if claim.snapshot.Some? {
      var snap := claim.snapshot.value;
      var next := Restored(w.db, user, snap);
      forall u, c | u != user || c !in snap.Keys ensures CursorOf(next, u, c) == CursorOf(w.db, u, c) {
        WithCursorsAt(w.db, user, snap, u, c);
      }
      SummaryLocal(w.db, next, user, snap.Keys, otherWorkspace, other);
    }
  }

  lemma MarkAllLocal(w: World, user: Id, workspace: Id, id: Id, now: int)
    requires SnapshotsLocal(w)
    ensures SnapshotsLocal(MarkAllStep(w, user, workspace, id, now))
  {
    hide SnapshotOf, MarkedAllRead;
    SnapshotIsLocal(w.db, user, workspace);
    MarkAllKeepsChannels(w.db, user, workspace);
  }

  /** A snapshot is about channels of the workspace that was marked. */
  lemma SnapshotIsLocal(db: Db, user: Id, workspace: Id)
    ensures forall c :: c in SnapshotOf(db, user, workspace) ==>
      c in db.channels && db.channels[c].workspace == Some(workspace)
  {
    hide QueryVisible, Advances, CursorOf;
  }

  lemma MarkAllKeepsChannels(db: Db, user: Id, workspace: Id)
    ensures MarkedAllRead(db, user, workspace).channels == db.channels
  {
    hide NewCursors;
  }

  /** Keeping the channels and adding no snapshot keeps snapshots local. */
  lemma StaysLocal(w: World, next: World)
    requires SnapshotsLocal(w) && next.db.channels == w.db.channels
    requires forall id :: id in next.rows ==> id in w.rows && next.rows[id] == w.rows[id]
    requires forall id :: id in next.keys ==> id in w.keys && next.keys[id] == w.keys[id]
    ensures SnapshotsLocal(next)
  {
  }

  lemma UndoLocal(w: World, user: Id, workspace: Id, id: Id, now: int, f: Faults)
    requires SnapshotsLocal(w)
    ensures SnapshotsLocal(UndoStep(w, user, workspace, id, now, f))
  {
    hide SnapshotsLocal;
    StaysLocal(w, UndoStep(w, user, workspace, id, now, f));
  }

  lemma AckKeepsChannels(db: Db, user: Id, channel: Id, i: Id)
    ensures i in db.messages ==> MarkedUnread(db, user, channel, i).channels == db.channels
    ensures i in db.messages ==> Acked(db, user, channel, KeyAt(db, i)).channels == db.channels
  {
  }

  lemma StepLocal(w: World, op: Op)
    requires SnapshotsLocal(w) && Allowed(w, op)
    ensures SnapshotsLocal(Step(w, op))
  {
    hide SnapshotsLocal, Summarize, Encode, CursorBefore, MarkAllStep, UndoStep, Beyond, MarkedUnread, Acked;
    match op {
      case MarkAllRead(u, ws, id, now) => MarkAllLocal(w, u, ws, id, now);
      case Undo(u, ws, id, now, f) => UndoLocal(w, u, ws, id, now, f);
      case Ack(u, c, i, _) => AckKeepsChannels(w.db, u, c, i);
                              StaysLocal(w, Step(w, op));
      case MarkUnread(u, c, i, _) => AckKeepsChannels(w.db, u, c, i);
                                     StaysLocal(w, Step(w, op));
      case Change(db, dropped) => StaysLocal(w.(db := db), Step(w, op));
      case _ => StaysLocal(w, Step(w, op));
    }
  }

  // ---- runs ------------------------------------------------------------------------------------------

  ghost function Run(w: World, ops: seq<Op>): World
    decreases ops
  {
    if ops == [] then w else Run(Step(w, ops[0]), ops[1..])
  }

  ghost predicate AllAllowed(w: World, ops: seq<Op>)
    decreases ops
  {
    ops == [] || (Allowed(w, ops[0]) && AllAllowed(Step(w, ops[0]), ops[1..]))
  }

  /** Cache refinement: after any serial run, whatever the cache holds and whatever
      goes wrong in the snapshot stores, a total read from it is
      the total of a fresh summary. */
  lemma {:induction false} TotalsAlwaysFresh(w: World, ops: seq<Op>, workspace: Id, user: Id)
    requires Coherent(w) && SnapshotsLocal(w) && AllAllowed(w, ops)
    ensures var after := Run(w, ops);
      Coherent(after) && TotalRead(after, workspace, user) == TotalOf(Summarize(after.db, workspace, user))
    decreases ops
  {
    hide Allowed, Step, SnapshotsLocal, Summarize, Encode, HashTotal, TotalOf;
    if ops == [] {
      CacheFoldsToTotal(w.db, workspace, user);
    } else {
      StepCoherent(w, ops[0]);
      StepLocal(w, ops[0]);
      TotalsAlwaysFresh(Step(w, ops[0]), ops[1..], workspace, user);
    }
  }

  // ---- snapshots are consumed once, by their owner --------------------------------------------------

  /** Both copies of a snapshot are of the same mark-all-read. */
  predicate SnapshotsMatch(w: World) {
    forall id :: id in w.keys && id in w.rows ==>
      w.keys[id] == SnapshotKey(w.rows[id].user, w.rows[id].workspace, w.rows[id].snapshot)
  }

  predicate Stored(w: World, id: Id) { id in w.keys || id in w.rows }

  /** Whether a step is an undo that gets the snapshot `id`. */
  predicate Consumes(w: World, op: Op, id: Id) {
    op.Undo? && op.snapshotId == id
    && ClaimSnapshot(w, op.user, op.workspaceId, id, op.now, op.faults).snapshot.Some?
  }

  /** How often a run consumes the snapshot `id`. */
  ghost function Consumptions(w: World, ops: seq<Op>, id: Id): nat
    decreases ops
  {
    if ops == [] then 0
    else (if Consumes(w, ops[0], id) then 1 else 0) + Consumptions(Step(w, ops[0]), ops[1..], id)
  }

  /** The run makes no snapshot under this id. */
  predicate NeverMakes(ops: seq<Op>, id: Id) {
    forall i :: 0 <= i < |ops| && ops[i].MarkAllRead? ==> ops[i].snapshotId != id
  }

  /** Snapshot ids are drawn fresh. */
  predicate FreshIds(w: World, ops: seq<Op>) {
    && (forall i :: 0 <= i < |ops| && ops[i].MarkAllRead? ==> !Stored(w, ops[i].snapshotId))
    && (forall i, j :: 0 <= i < j < |ops| && ops[i].MarkAllRead? && ops[j].MarkAllRead? ==>
          ops[i].snapshotId != ops[j].snapshotId)
  }

  /** Only a mark-all-read stores a snapshot, and no step un-matches the copies. */
  lemma StepStores(w: World, op: Op, id: Id)
    requires SnapshotsMatch(w)
    ensures SnapshotsMatch(Step(w, op))
    ensures Stored(Step(w, op), id) ==> Stored(w, id) || (op.MarkAllRead? && op.snapshotId == id)
    ensures Consumes(w, op, id) && op.faults == NO_FAULTS ==> !Stored(Step(w, op), id)
  {
    hide SnapshotsMatch, Stored, ClaimSnapshot, UndoStep, MarkAllStep, AckStep, MarkUnreadStep, ReadTotalStep;
    match op {
      case MarkAllRead(u, ws, made, now) => MarkAllStores(w, u, ws, made, now, id);
      case Undo(u, ws, claimed, now, f) => UndoStores(w, u, ws, claimed, now, f, id);
      case _ => OthersStore(w, op, id);
    }
  }

  lemma MarkAllStores(w: World, user: Id, workspace: Id, made: Id, now: int, id: Id)
    requires SnapshotsMatch(w)
    ensures var after := MarkAllStep(w, user, workspace, made, now);
      SnapshotsMatch(after) && (Stored(after, id) ==> Stored(w, id) || id == made)
  {
    hide SnapshotOf, MarkedAllRead;
  }

  lemma UndoStores(w: World, user: Id, workspace: Id, claimed: Id, now: int, f: Faults, id: Id)
    requires SnapshotsMatch(w)
    ensures var after := UndoStep(w, user, workspace, claimed, now, f);
      && SnapshotsMatch(after) && (Stored(after, id) ==> Stored(w, id))
      && (id == claimed && ClaimSnapshot(w, user, workspace, id, now, f).snapshot.Some? && f == NO_FAULTS ==>
            !Stored(after, id))
  {
    hide Restored;
  }

  lemma OthersStore(w: World, op: Op, id: Id)
    requires SnapshotsMatch(w) && !op.MarkAllRead? && !op.Undo?
    ensures SnapshotsMatch(Step(w, op)) && (Stored(Step(w, op), id) ==> Stored(w, id))
  {
    hide Acked, MarkedUnread, Summarize, Encode, BelongsTo;
  }

  lemma {:induction false} GoneStaysGone(w: World, ops: seq<Op>, id: Id)
    requires SnapshotsMatch(w) && !Stored(w, id) && NeverMakes(ops, id)
    ensures Consumptions(w, ops, id) == 0
    decreases ops
  {
    hide Step;
    if ops != [] {
      StepStores(w, ops[0], id);
      assert forall i :: 0 <= i < |ops[1..]| ==> ops[1..][i] == ops[i + 1];
      GoneStaysGone(Step(w, ops[0]), ops[1..], id);
    }
  }

  /** Both stores are up. */
  predicate Faultless(ops: seq<Op>) {
    forall i :: 0 <= i < |ops| && ops[i].Undo? ==> ops[i].faults == NO_FAULTS
  }

  /** In a serial run without store faults every snapshot is consumed at most once. */
  lemma {:induction false} ConsumedAtMostOnce(w: World, ops: seq<Op>, id: Id)
    requires SnapshotsMatch(w) && FreshIds(w, ops) && Faultless(ops)
    ensures Consumptions(w, ops, id) <= 1
    decreases ops
  {
    hide Step, Stored;
    if ops != [] {
      var next := Step(w, ops[0]);
      StepStores(w, ops[0], id);
      assert forall i :: 0 <= i < |ops[1..]| ==> ops[1..][i] == ops[i + 1];
      if Consumes(w, ops[0], id) {
        ConsumedIsNotMade(w, ops, id);
        GoneStaysGone(next, ops[1..], id);
      } else {
        forall i | 0 <= i < |ops[1..]| && ops[1..][i].MarkAllRead? ensures !Stored(next, ops[1..][i].snapshotId) {
          StepStores(w, ops[0], ops[i + 1].snapshotId);
        }
        ConsumedAtMostOnce(next, ops[1..], id);
      }
    }
  }

  /** A snapshot that can be consumed is stored, so no later step makes it again. */
  lemma ConsumedIsNotMade(w: World, ops: seq<Op>, id: Id)
    requires FreshIds(w, ops) && ops != [] && Consumes(w, ops[0], id)
    ensures NeverMakes(ops[1..], id)
  {
    assert Stored(w, id);
    assert forall i :: 0 <= i < |ops[1..]| ==> ops[1..][i] == ops[i + 1];
  }

  /** A claim succeeds only for the owner, and a claim by anyone else changes nothing. */
  lemma OnlyTheOwner(w: World, user: Id, workspace: Id, id: Id, now: int, f: Faults)
    requires SnapshotsMatch(w)
    requires id in w.keys ==> w.keys[id].user != user || w.keys[id].workspace != workspace
    requires id in w.rows ==> w.rows[id].user != user || w.rows[id].workspace != workspace
    ensures ClaimSnapshot(w, user, workspace, id, now, f) == Claim(None, w)
  {
  }

  /** With store faults a snapshot can be consumed twice, exactly when the claim fell through
      to the durable row while the fast copy was still there, or the fast claim went through
      and the unexpired durable row could not be deleted. */
  lemma SecondClaimIff(w: World, user: Id, workspace: Id, id: Id, now: int, later: int, f: Faults)
    requires SnapshotsMatch(w) && ClaimSnapshot(w, user, workspace, id, now, f).snapshot.Some?
    ensures var first := ClaimSnapshot(w, user, workspace, id, now, f).world;
      ClaimSnapshot(first, user, workspace, id, later, NO_FAULTS).snapshot.Some? <==>
        id in w.keys && (f.claimFails || (f.deleteFails && id in w.rows && w.rows[id].expiresAt > later))
  {
  }

  /** Once the fast store has let its copy go, the durable one can be claimed for five minutes. */
  lemma SnapshotLasts(w: World, user: Id, workspace: Id, id: Id, now: int, later: int)
    ensures var marked := Step(w, MarkAllRead(user, workspace, id, now));
      var gone := Step(marked, ExpireSnapshot(id));
      ClaimSnapshot(gone, user, workspace, id, later, NO_FAULTS).snapshot ==
        if later < now + 300_000 then Some(SnapshotOf(w.db, user, workspace)) else None
  {
    hide SnapshotOf, MarkedAllRead;
  }

  /** A read through the cache leaves an entry that gives the total answered, whatever was there
      before, and changes nothing else. */
  lemma ReadTotalFills(w: World, workspace: Id, user: Id)
    ensures var after := Step(w, ReadTotal(workspace, user));
      && (workspace, user) in after.cache && HashTotal(after.cache[(workspace, user)]) == TotalRead(w, workspace, user)
      && (forall k :: k != (workspace, user) ==> (k in after.cache <==> k in w.cache))
      && (forall k :: k != (workspace, user) && k in w.cache ==> after.cache[k] == w.cache[k])
      && after.db == w.db && after.rows == w.rows && after.keys == w.keys
  {
    hide Encode, HashTotal, Summarize, TotalOf;
    CacheFoldsToTotal(w.db, workspace, user);
  }

  /** A mark-all that finds nothing unread leaves every cached entry, and every cursor, as it was. */
  lemma NothingToMark(w: World, user: Id, workspace: Id, id: Id, now: int)
    requires forall c :: c in VisibleChannels(w.db, user, workspace) ==> Unread(w.db, user, c) == {}
    ensures var after := Step(w, MarkAllRead(user, workspace, id, now)); after.cache == w.cache && after.db == w.db
  {
    hide Unread, RootsAfter, VisibleChannels;
    forall c | c in Advanced(w.db, user, workspace) ensures false {
      MarkAllMoves(w.db, user, workspace, c);
      UnreadSpelled(w.db, user, c);
    }
    assert SnapshotOf(w.db, user, workspace) == map[];
    NothingMoved(w.db, user, workspace);
  }

  /** Marking a message unread moves one cursor, to before the message, so that exactly the roots and
      broadcasts from it on are unread; a message that is not live in the channel moves none. */
  lemma MarkUnreadMoves(w: World, user: Id, channel: Id, i: Id, workspace: Option<Id>, u: Id, c: Id)
    ensures var after := Step(w, MarkUnread(user, channel, i, workspace)).db;
      if u == user && c == channel && IsLiveIn(w.db, channel, i) then
        RootsAfter(after, channel, CursorOf(after, user, channel)) ==
          set j | j in RootsAfter(w.db, channel, None) && !Less(KeyAt(w.db, j), KeyAt(w.db, i))
      else CursorOf(after, u, c) == CursorOf(w.db, u, c)
  {
    hide CursorOf, RootsAfter, Less;
    if BelongsTo(w.db, i, channel) {
      var after := MarkedUnread(w.db, user, channel, i);
      MarkedCursor(w.db, user, channel, i);
      MarkUnreadExact(w.db, user, channel, i);
      UnreadSpelled(after, user, channel);
      CountedSpelled(w.db, channel);
    }
  }

  lemma CountedSpelled(db: Db, channel: Id)
    ensures CountedIn(db, channel) == RootsAfter(db, channel, None)
  {
  }

  /** An undo of a snapshot in which nothing had moved consumes it and changes nothing else. */
  lemma EmptyUndo(w: World, user: Id, workspace: Id, id: Id, now: int, f: Faults)
    requires ClaimSnapshot(w, user, workspace, id, now, f).snapshot == Some(map[])
    ensures Step(w, Undo(user, workspace, id, now, f)) == ClaimSnapshot(w, user, workspace, id, now, f).world
  {
    hide ClaimSnapshot;
  }

  /** After its expiry an entry is filled anew by the next read, and nobody else's is touched. */
  lemma ExpiredIsRefilled(w: World, workspace: Id, user: Id)
    ensures TotalRead(Step(w, ExpireTotal(workspace, user)), workspace, user) ==
      TotalOf(Summarize(w.db, workspace, user))
    ensures forall k :: k != (workspace, user) ==>
      (k in Step(w, ExpireTotal(workspace, user)).cache <==> k in w.cache)
  {
  }

  /** An ack moves one cursor, to the greater of what it was and the message; an ack of a message
      that is not live in the channel moves none, and either way no other. */
  lemma AckMoves(w: World, user: Id, channel: Id, i: Id, workspace: Option<Id>, u: Id, c: Id)
    ensures var before, after := CursorOf(w.db, u, c), CursorOf(Step(w, Ack(user, channel, i, workspace)).db, u, c);
      var moved := u == user && c == channel && IsLiveIn(w.db, channel, i);
      after == if moved then MaxCursor(before, KeyAt(w.db, i)) else before
  {
    hide CursorOf, MaxCursor;
    if BelongsTo(w.db, i, channel) {
      AckedCursor(w.db, user, channel, KeyAt(w.db, i));
    }
  }

  /** Mark-all-read and an undo in time: every cursor of every user reads as before. */
  lemma UndoReverts(w: World, user: Id, workspace: Id, id: Id, now: int, later: int)
    requires !Stored(w, id)
    ensures var undone := Step(Step(w, MarkAllRead(user, workspace, id, now)),
      Undo(user, workspace, id, later, NO_FAULTS));
      && (forall u, c :: CursorOf(undone.db, u, c) == CursorOf(w.db, u, c))
      && (forall u, c :: Unread(undone.db, u, c) == Unread(w.db, u, c))
      && !Stored(undone, id)
  {
    hide CursorOf, Unread, MarkedAllRead, Restored, SnapshotOf;
    UndoRestores(w.db, user, workspace);
    var snap := SnapshotOf(w.db, user, workspace);
    if snap == map[] {
      NothingRestored(MarkedAllRead(w.db, user, workspace), user);
    }
  }

  lemma NothingRestored(db: Db, user: Id)
    ensures Restored(db, user, map[]) == db
  {
    var none: Snapshot := map[];
    RestoredKeys(db, user, none);
    assert Restored(db, user, none).cursors == db.cursors;
  }
}
