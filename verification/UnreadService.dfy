/** The read-state service over its stores. Each operation answers and changes the stores as
    UnreadWorld says; a SQL statement is one step on the tables. */
module UnreadService {
  import opened Wrappers
  import opened ReadState
  import opened MarkAll
  import opened Totals
  import opened UnreadWorld
  import CacheFence

  // ---- queries -----------------------------------------------------------------------------------

  lemma LatestExtends(db: Db, seen: set<Id>, r: Id, i: Id)
    requires seen + {i} <= db.messages.Keys && IsLatest(db, seen, r)
    ensures IsLatest(db, seen + {i}, if Less(KeyAt(db, r), KeyAt(db, i)) then i else r)
  {
  }

  /** `ORDER BY ... DESC LIMIT 1` over some messages. */
  method QueryLatest(db: Db, s: set<Id>) returns (r: Option<Id>)
    requires s <= db.messages.Keys
    ensures r == Latest(db, s)
  {
    hide IsLatest, Less, KeyAt;
    if s == {} {
      return None;
    }
    var best :| best in s;
    var todo := s - {best};
    ghost var seen := {best};
    LatestAlone(db, best);
    while todo != {}
      invariant seen + todo == s && best in seen
      invariant IsLatest(db, seen, best)
      decreases |todo|
    {
      var i :| i in todo;
      LatestExtends(db, seen, best, i);
      if Less(KeyAt(db, best), KeyAt(db, i)) {
        best := i;
      }
      todo := todo - {i};
      seen := seen + {i};
    }
    LatestUnique(db, s, best);
    return Some(best);
  }

  lemma LatestAlone(db: Db, i: Id)
    requires i in db.messages
    ensures IsLatest(db, {i}, i)
  {
  }

  /** The rows of `summarize`. */
  method QuerySummary(db: Db, workspace: Id, user: Id) returns (s: Summary)
    ensures s == Summarize(db, workspace, user)
  {
    hide SummaryChannels, UnreadCountFor, MentionsFor, MentionCountFor;
    var todo := SummaryChannels(db, workspace, user);
    s := map[];
    while todo != {}
      invariant todo <= SummaryChannels(db, workspace, user)
      invariant s.Keys == SummaryChannels(db, workspace, user) - todo
      invariant forall c :: c in s ==> s[c] == SummaryOf(db, user, c)
      decreases |todo|
    {
      var c :| c in todo;
      var latest := QueryLatest(db, Unread(db, user, c));
      var lastAt := if latest.None? then None else Some(db.messages[latest.value].at);
      s := s[c := ChannelSummary(UnreadCountFor(db, user, c), MentionsFor(db, user, c) != {},
        MentionCountFor(db, user, c), lastAt)];
      todo := todo - {c};
    }
  }

  /** What one mark-all-read statement writes, and what it overwrites. */
  method AdvanceAllVisible(db: Db, user: Id, workspace: Id) returns (targets: map<Id, Cursor>, previous: Snapshot)
    ensures targets == NewCursors(db, user, workspace) && previous == SnapshotOf(db, user, workspace)
  {
    hide VisibleChannels, Beyond, CursorOf;
    var todo := VisibleChannels(db, user, workspace);
    targets, previous := map[], map[];
    while todo != {}
      invariant todo <= VisibleChannels(db, user, workspace)
      invariant targets.Keys == previous.Keys
      invariant forall c :: c in targets <==> c in VisibleChannels(db, user, workspace) - todo && Advances(db, user, c)
      invariant forall c :: c in targets ==> targets[c] == Target(db, c) && previous[c] == CursorOf(db, user, c)
      decreases |todo|
    {
      var c :| c in todo;
      var latest := QueryLatest(db, CountedIn(db, c));
      if latest.Some? && Beyond(KeyAt(db, latest.value), CursorOf(db, user, c)) {
        targets := targets[c := Some(KeyAt(db, latest.value))];
        previous := previous[c := CursorOf(db, user, c)];
      }
      todo := todo - {c};
    }
    assert targets.Keys == Advanced(db, user, workspace);
  }

  /** The payload of one restored channel. */
  function RestoredPayload(db: Db, user: Id, c: Id): Payload {
    var mentioned := set i | i in RecountedUnread(db, user, c) && MentionMatches(db.messages[i], user);
    var cursor := CursorOf(db, user, c);
    Payload(c, if cursor.None? then None else Some(cursor.value.id), |RecountedUnread(db, user, c)|, |mentioned|)
  }

  /** The payload of a single-channel operation. */
  function ChannelPayload(db: Db, user: Id, c: Id): Payload {
    var cursor := CursorOf(db, user, c);
    Payload(c, if cursor.None? then None else Some(cursor.value.id), UnreadCountFor(db, user, c),
      MentionCountFor(db, user, c))
  }

  // ---- what an answer says ------------------------------------------------------------------------

  /** An answer about a channel reports the user's cursor, how many of the given messages there
      are, and how many of them mention the user. */
  predicate Reports(db: Db, user: Id, channel: Id, p: Payload, counted: set<Id>) {
    && p.channel == channel
    && (p.lastRead.None? <==> CursorOf(db, user, channel).None?)
    && (p.lastRead.Some? ==> p.lastRead.value == CursorOf(db, user, channel).value.id)
    && p.unread == |counted| && p.mentions == |Mentioning(db, counted, user)|
  }

  lemma ChannelPayloadReports(db: Db, user: Id, channel: Id)
    ensures Reports(db, user, channel, ChannelPayload(db, user, channel),
      RootsAfter(db, channel, CursorOf(db, user, channel)))
  {
    var roots := RootsAfter(db, channel, CursorOf(db, user, channel));
    assert roots == Unread(db, user, channel);
    assert Mentioning(db, roots, user) == MentionsFor(db, user, channel);
  }

  /** The answer of an undo counts all live messages. */
  lemma RestoredPayloadReports(db: Db, user: Id, channel: Id)
    ensures Reports(db, user, channel, RestoredPayload(db, user, channel),
      LiveAfter(db, channel, CursorOf(db, user, channel)))
  {
    var live := LiveAfter(db, channel, CursorOf(db, user, channel));
    assert live == RecountedUnread(db, user, channel);
    assert Mentioning(db, live, user)
      == set i | i in RecountedUnread(db, user, channel) && MentionMatches(db.messages[i], user);
  }

  /** Every channel that moved is read up to its latest message. */
  method AdvancedPayloads(targets: map<Id, Cursor>, ghost db: Db, ghost user: Id,
        ghost workspace: Id) returns (payloads: map<Id, Payload>)
    requires targets == NewCursors(db, user, workspace)
    ensures payloads.Keys == SnapshotOf(db, user, workspace).Keys
    ensures forall c :: c in payloads ==>
      && payloads[c] == ChannelPayload(MarkedAllRead(db, user, workspace), user, c)
      && payloads[c].unread == 0 && payloads[c].mentions == 0
  {
    hide ChannelPayload, MarkedAllRead, Target, Advanced;
    forall c | c in targets
      ensures targets[c].Some?
      ensures Payload(c, Some(targets[c].value.id), 0, 0) == ChannelPayload(MarkedAllRead(db, user, workspace), user, c)
    {
      AdvancedPayload(db, user, workspace, c);
    }
    payloads := map c | c in targets :: Payload(c, Some(targets[c].value.id), 0, 0);
  }

  // ---- the service ---------------------------------------------------------------------------------

  class UnreadService {
    var db: Db
    var rows: map<Id, SnapshotRow>
    var keys: map<Id, SnapshotKey>
    var cache: map<(Id, Id), Hash>
    var locks: map<(Id, Id), Id>

    constructor (db: Db)
      ensures State() == World(db, map[], map[], map[]) && locks == map[]
    {
      this.db := db;
      rows, keys, cache, locks := map[], map[], map[], map[];
    }

    ghost function State(): World
      reads this
    {
      World(db, rows, keys, cache)
    }

    method InvalidateWorkspaceUserCache(workspace: Id, user: Id)
      modifies this`cache
      ensures State() == Invalidated(old(State()), workspace, user)
    {
      cache := cache - {(workspace, user)};
    }

    method InvalidateFor(user: Id, channel: Id, workspace: Option<Id>)
      modifies this`cache
      ensures State() == InvalidatedFor(old(State()), user, channel, workspace)
    {
      if workspace.Some? {
        InvalidateWorkspaceUserCache(workspace.value, user);
      } else if channel in db.channels && db.channels[channel].workspace.Some? {
        InvalidateWorkspaceUserCache(db.channels[channel].workspace.value, user);
      }
    }

    /** `ackRead`: the answer reports the stored cursor, not the one the client sent. */
    method AckRead(user: Id, channel: Id, message: Id, workspace: Option<Id>) returns (r: Result<Payload, ReadError>)
      modifies this
      ensures State() == Step(old(State()), Ack(user, channel, message, workspace)) && locks == old(locks)
      ensures r == if !BelongsTo(old(db), message, channel) then Err(MessageNotFound)
        else Ok(ChannelPayload(db, user, channel))
      ensures r.Err? <==> !IsLiveIn(old(db), channel, message)
      ensures r.Ok? ==>
        && CursorOf(db, user, channel) == MaxCursor(CursorOf(old(db), user, channel), KeyAt(old(db), message))
        && r.value.lastRead == Some(CursorOf(db, user, channel).value.id)
      ensures r.Ok? ==> Reports(db, user, channel, r.value, RootsAfter(db, channel, CursorOf(db, user, channel)))
    {
      hide UnreadCountFor, MentionCountFor, Reports, RootsAfter;
      if !BelongsTo(db, message, channel) {
        return Err(MessageNotFound);
      }
      var k := KeyAt(db, message);
      if (user, channel) !in db.cursors {
        db := db.(cursors := db.cursors[(user, channel) := Some(k)]);
      } else {
        var stored := db.cursors[(user, channel)];
        if stored.None? || Less(stored.value, k) {
          db := db.(cursors := db.cursors[(user, channel) := Some(k)]);
        }
      }
      var current := db.cursors[(user, channel)];
      var lastRead := if current.Some? then current.value.id else message;
      r := Ok(Payload(channel, Some(lastRead), UnreadCountFor(db, user, channel), MentionCountFor(db, user, channel)));
      InvalidateFor(user, channel, workspace);
      ChannelPayloadReports(db, user, channel);
    }

    /** `markUnread` */
    method MarkUnread(user: Id, channel: Id, message: Id, workspace: Option<Id>) returns (r: Result<Payload, ReadError>)
      modifies this
      ensures State() == Step(old(State()), UnreadWorld.MarkUnread(user, channel, message, workspace))
        && locks == old(locks)
      ensures r == if !BelongsTo(old(db), message, channel) then Err(MessageNotFound)
        else Ok(ChannelPayload(db, user, channel))
      ensures r.Err? <==> !IsLiveIn(old(db), channel, message)
      ensures r.Ok? ==> Reports(db, user, channel, r.value, RootsAfter(db, channel, CursorOf(db, user, channel)))
      ensures r.Ok? ==>
        var roots := RootsAfter(old(db), channel, None);
        RootsAfter(db, channel, CursorOf(db, user, channel)) ==
          set j | j in roots && !Less(KeyAt(old(db), j), KeyAt(old(db), message))
    {
      hide UnreadCountFor, MentionCountFor, InvalidatedFor, Reports, RootsAfter, Less;
      if !BelongsTo(db, message, channel) {
        return Err(MessageNotFound);
      }
      var prev := QueryLatest(db, Before(db, channel, KeyAt(db, message)));
      var cursor := if prev.None? then None else Some(KeyAt(db, prev.value));
      db := db.(cursors := db.cursors[(user, channel) := cursor]);
      r := Ok(Payload(channel, prev, UnreadCountFor(db, user, channel), MentionCountFor(db, user, channel)));
      InvalidateFor(user, channel, workspace);
      ChannelPayloadReports(db, user, channel);
      MarkUnreadMoves(old(State()), user, channel, message, workspace, user, channel);
    }

    /** `markAllRead`; `snapshotId` is the drawn uuid. */
    method MarkAllRead(user: Id, workspace: Id, snapshotId: Id, now: int) returns (payloads: map<Id, Payload>)
      modifies this
      ensures State() == Step(old(State()), UnreadWorld.MarkAllRead(user, workspace, snapshotId, now))
        && locks == old(locks)
      ensures payloads.Keys == SnapshotOf(old(db), user, workspace).Keys
      ensures forall c :: c in payloads ==>
        payloads[c] == ChannelPayload(db, user, c) && payloads[c].unread == 0 && payloads[c].mentions == 0
      ensures forall c :: c in payloads ==>
        Reports(db, user, c, payloads[c], RootsAfter(db, c, CursorOf(db, user, c)))
    {
      hide Reports, RootsAfter, NewCursors, SnapshotOf, ChannelPayload, WithCursors, Invalidated;
      ghost var before := db;
      var targets, previous := AdvanceAllVisible(db, user, workspace);
      db := WithCursors(db, user, targets);
      rows := rows[snapshotId := SnapshotRow(user, workspace, previous, now + SNAPSHOT_TTL_MS)];
      keys := keys[snapshotId := SnapshotKey(user, workspace, previous)];
      if previous != map[] {
        InvalidateWorkspaceUserCache(workspace, user);
      }
      payloads := AdvancedPayloads(targets, before, user, workspace);
      forall c | c in payloads ensures Reports(db, user, c, payloads[c], RootsAfter(db, c, CursorOf(db, user, c))) {
        ChannelPayloadReports(db, user, c);
      }
    }

    /** `undoMarkAllRead` */
    method UndoMarkAllRead(user: Id, workspace: Id, snapshotId: Id, now: int, f: Faults)
      returns (r: Result<map<Id, Payload>, ReadError>)
      modifies this
      ensures State() == Step(old(State()), Undo(user, workspace, snapshotId, now, f)) && locks == old(locks)
      ensures match ClaimSnapshot(old(State()), user, workspace, snapshotId, now, f).snapshot
        case None => r == Err(SnapshotNotFound)
        case Some(s) => r == Ok(map c | c in s :: RestoredPayload(db, user, c))
      ensures r.Ok? ==> forall c :: c in r.value ==>
        Reports(db, user, c, r.value[c], LiveAfter(db, c, CursorOf(db, user, c)))
    {
      hide RestoredPayload, WithCursors, Reports, LiveAfter;
      var claim := LoadAndConsumeSnapshot(user, workspace, snapshotId, now, f);
      if claim.None? {
        return Err(SnapshotNotFound);
      }
      var snapshot := claim.value;
      if snapshot == map[] {
        assert (map c | c in snapshot :: RestoredPayload(db, user, c)) == map[];
        return Ok(map[]);
      }
      db := WithCursors(db, user, snapshot);
      r := Ok(map c | c in snapshot :: RestoredPayload(db, user, c));
      InvalidateWorkspaceUserCache(workspace, user);
      forall c | c in r.value ensures Reports(db, user, c, r.value[c], LiveAfter(db, c, CursorOf(db, user, c))) {
        RestoredPayloadReports(db, user, c);
      }
    }

    /** `loadAndConsumeSnapshot`; the stores fail as `f` says. */
    method LoadAndConsumeSnapshot(user: Id, workspace: Id, id: Id, now: int, f: Faults) returns (r: Option<Snapshot>)
      modifies this`rows, this`keys
      ensures Claim(r, State()) == ClaimSnapshot(old(State()), user, workspace, id, now, f)
    {
      if id in keys && !f.claimFails {
        // the owner-gated claim: a mismatch consumes nothing and does not fall through
        var k := keys[id];
        if k.user != user || k.workspace != workspace {
          return None;
        }
        keys := keys - {id};
        if id in rows && rows[id].user == user && rows[id].workspace == workspace && !f.deleteFails {
          rows := rows - {id};
        }
        return if f.unreadable then None else Some(k.snapshot);
      }
      if id in rows && rows[id].user == user && rows[id].workspace == workspace && rows[id].expiresAt > now {
        r := Some(rows[id].snapshot);
        rows := rows - {id};
        return;
      }
      return None;
    }

    /** The answer of a caller that finds the lock taken: `looks` are the entries it finds when it
        looks again, with others at work in between, and in the end it reads the tables. */
    method AwaitTotal(workspace: Id, user: Id, looks: seq<Option<Hash>>) returns (t: Total)
      requires |looks| == CacheFence.WAIT_ATTEMPTS
      ensures if NoneFound(looks) then t == TotalOf(Summarize(db, workspace, user)) else AnswersFirst(looks, t)
    {
      hide HashTotal, TotalOf, Summarize;
      for i := 0 to CacheFence.WAIT_ATTEMPTS
        invariant NoneFound(looks[..i])
      {
        if looks[i].Some? {
          t := FoldCache(looks[i].value);
          return;
        }
      }
      assert looks[..CacheFence.WAIT_ATTEMPTS] == looks;
      var s := QuerySummary(db, workspace, user);
      t := FoldChannels(s);
    }

    /** `cachedWorkspaceTotal`; `token` is the caller's drawn lock token. Whoever cannot take
        the lock answers without filling the cache. */
    method CachedWorkspaceTotal(workspace: Id, user: Id, token: Id, looks: seq<Option<Hash>>) returns (t: Total)
      requires |looks| == CacheFence.WAIT_ATTEMPTS
      modifies this`cache, this`locks
      ensures var waits := (workspace, user) in old(locks) && (workspace, user) !in old(cache);
        if waits && !NoneFound(looks) then AnswersFirst(looks, t) else t == TotalRead(old(State()), workspace, user)
      ensures State() == if (workspace, user) in old(locks) then old(State())
        else Step(old(State()), ReadTotal(workspace, user))
      ensures locks == old(locks)
    {
      hide Encode, HashTotal, TotalOf, Summarize;
      var key := (workspace, user);
      if key in cache {
        t := FoldCache(cache[key]);
        return;
      }
      if key in locks {
        t := AwaitTotal(workspace, user, looks);
        return;
      }
      locks := locks[key := token];
      var s := QuerySummary(db, workspace, user);
      t := FoldChannels(s);
      var hash := WriteCache(s);
      cache := cache[key := hash];
      // fenced unlock: only this caller's token
      if key in locks && locks[key] == token {
        locks := locks - {key};
      }
    }
  }

  predicate NoneFound(looks: seq<Option<Hash>>) { forall i :: 0 <= i < |looks| ==> looks[i].None? }

  /** The total of the first entry found. */
  ghost predicate AnswersFirst(looks: seq<Option<Hash>>, t: Total) {
    exists i :: 0 <= i < |looks| && NoneFound(looks[..i]) && looks[i].Some? && t == HashTotal(looks[i].value)
  }

  /** A channel that mark-all-read moved reports its new cursor and nothing unread. */
  lemma AdvancedPayload(db: Db, user: Id, workspace: Id, c: Id)
    requires c in NewCursors(db, user, workspace)
    ensures var target := NewCursors(db, user, workspace)[c];
      target.Some? && ChannelPayload(MarkedAllRead(db, user, workspace), user, c) ==
        Payload(c, Some(target.value.id), 0, 0)
  {
    hide VisibleChannels, Latest;
    var after := MarkedAllRead(db, user, workspace);
    VisibleIsRead(db, user, workspace, c);
    WithCursorsAt(db, user, NewCursors(db, user, workspace), user, c);
    assert MentionsFor(after, user, c) == {};
  }
}
