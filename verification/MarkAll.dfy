/** Mark-all-read as one set-based statement, its snapshot, and undo. */
module MarkAll {
  import opened Wrappers
  import opened Sets
  import opened Permissions
  import opened ReadState

  const NO_GRANTS := Grants(0, 0, 0, 0)

  function GrantsFor(ch: Channel, user: Id): Grants {
    if user in ch.grants then ch.grants[user] else NO_GRANTS
  }

  /** The channels mark-all-read may touch; unlike the summary it takes in archived ones. */
  predicate Visible(db: Db, user: Id, workspace: Id, channel: Id) {
    && channel in db.channels
    && var ch := db.channels[channel];
       ch.workspace == Some(workspace) && !ch.deleted && QueryVisible(ch.isPrivate, GrantsFor(ch, user))
  }

  function VisibleChannels(db: Db, user: Id, workspace: Id): set<Id> {
    set c | c in db.channels && Visible(db, user, workspace, c)
  }

  /** Where the cursor of a channel goes: its latest counted message. */
  ghost function Target(db: Db, channel: Id): Cursor {
    var latest := Latest(db, CountedIn(db, channel));
    if latest.None? then None else Some(KeyAt(db, latest.value))
  }

  /** The rows the guarded upsert writes. */
  ghost predicate Advances(db: Db, user: Id, channel: Id) {
    var target := Target(db, channel);
    target.Some? && Beyond(target.value, CursorOf(db, user, channel))
  }

  ghost function Advanced(db: Db, user: Id, workspace: Id): set<Id> {
    set c | c in VisibleChannels(db, user, workspace) && Advances(db, user, c)
  }

  /** The cursors before the statement, for the rows it wrote. */
  type Snapshot = map<Id, Cursor>

  ghost function SnapshotOf(db: Db, user: Id, workspace: Id): Snapshot {
    map c | c in Advanced(db, user, workspace) :: CursorOf(db, user, c)
  }

  function WithCursors(db: Db, user: Id, cursors: map<Id, Cursor>): Db {
    db.(cursors := db.cursors + map c | c in cursors :: (user, c) := cursors[c])
  }

  ghost function NewCursors(db: Db, user: Id, workspace: Id): map<Id, Cursor> {
    map c | c in Advanced(db, user, workspace) :: Target(db, c)
  }

  ghost function MarkedAllRead(db: Db, user: Id, workspace: Id): Db {
    WithCursors(db, user, NewCursors(db, user, workspace))
  }

  /** The unguarded restore. */
  function Restored(db: Db, user: Id, snapshot: Snapshot): Db {
    WithCursors(db, user, snapshot)
  }

  lemma WithCursorsAt(db: Db, user: Id, cursors: map<Id, Cursor>, u: Id, c: Id)
    ensures CursorOf(WithCursors(db, user, cursors), u, c) ==
      if u == user && c in cursors then cursors[c] else CursorOf(db, u, c)
  {
    var m := map c | c in cursors :: (user, c) := cursors[c];
    assert (u, c) in m <==> u == user && c in cursors;
  }

  // ---- what mark-all-read does ------------------------------------------------------------------

  /** Everything visible is read; no cursor moves backward; what is not visible, and everybody
      else's rows, are left alone; the snapshot is about exactly the channels that moved. */
  lemma MarkAllReads(db: Db, user: Id, workspace: Id)
    ensures var after := MarkedAllRead(db, user, workspace);
      && (forall c :: c in VisibleChannels(db, user, workspace) ==> Unread(after, user, c) == {})
      && (forall u, c :: AtMost(CursorOf(db, u, c), CursorOf(after, u, c)))
      && (forall u, c :: u != user || c !in VisibleChannels(db, user, workspace) ==>
            CursorOf(after, u, c) == CursorOf(db, u, c))
      && (forall c :: c in SnapshotOf(db, user, workspace) <==> CursorOf(after, user, c) != CursorOf(db, user, c))
  {
    hide RootsAfter;
    var after := MarkedAllRead(db, user, workspace);
    var news := NewCursors(db, user, workspace);
    forall u, c
      ensures CursorOf(after, u, c) == if u == user && c in news then news[c] else CursorOf(db, u, c)
    {
      WithCursorsAt(db, user, news, u, c);
    }
    forall c | c in VisibleChannels(db, user, workspace) ensures Unread(after, user, c) == {} {
      VisibleIsRead(db, user, workspace, c);
    }
  }

  /** A channel moves exactly when something in it is unread, and then to the latest of its live
      roots and broadcasts; the snapshot keeps where it was. */
  lemma MarkAllMoves(db: Db, user: Id, workspace: Id, c: Id)
    requires c in VisibleChannels(db, user, workspace)
    ensures var before, after := CursorOf(db, user, c), CursorOf(MarkedAllRead(db, user, workspace), user, c);
      var roots := RootsAfter(db, c, None);
      && (c in SnapshotOf(db, user, workspace) <==> RootsAfter(db, c, before) != {})
      && (c in SnapshotOf(db, user, workspace) ==>
            && SnapshotOf(db, user, workspace)[c] == before
            && exists i :: i in roots && after == Some(KeyAt(db, i))
                 && forall j :: j in roots ==> !Less(KeyAt(db, i), KeyAt(db, j)))
      && (c !in SnapshotOf(db, user, workspace) ==> after == before)
  {
    WithCursorsAt(db, user, NewCursors(db, user, workspace), user, c);
    assert CountedIn(db, c) == RootsAfter(db, c, None);
    UnreadSpelled(db, user, c);
    var latest := Latest(db, CountedIn(db, c));
    if latest.Some? {
      assert IsLatest(db, CountedIn(db, c), latest.value);
      if Unread(db, user, c) != {} {
        var i :| i in Unread(db, user, c);
        assert !Less(KeyAt(db, latest.value), KeyAt(db, i));
      } else {
        assert latest.value !in Unread(db, user, c);
      }
    }
  }

  lemma VisibleIsRead(db: Db, user: Id, workspace: Id, c: Id)
    requires c in VisibleChannels(db, user, workspace)
    ensures Unread(MarkedAllRead(db, user, workspace), user, c) == {}
  {
    var after := MarkedAllRead(db, user, workspace);
    WithCursorsAt(db, user, NewCursors(db, user, workspace), user, c);
    assert CountedIn(after, c) == CountedIn(db, c);
    forall i | i in CountedIn(db, c) ensures !Beyond(KeyAt(db, i), CursorOf(after, user, c)) {
      assert Latest(db, CountedIn(db, c)).Some?;
      var latest := Latest(db, CountedIn(db, c)).value;
      assert !Less(KeyAt(db, latest), KeyAt(db, i));
    }
  }

  // ---- undo ----------------------------------------------------------------------------------------

  /** An undo with nothing in between restores every cursor; a row that was missing comes back
      holding null, which reads the same. */
  lemma UndoRestores(db: Db, user: Id, workspace: Id)
    ensures var undone := Restored(MarkedAllRead(db, user, workspace), user, SnapshotOf(db, user, workspace));
      && (forall u, c :: CursorOf(undone, u, c) == CursorOf(db, u, c))
      && (forall u, c :: Unread(undone, u, c) == Unread(db, u, c))
      && undone.messages == db.messages && undone.channels == db.channels
      && undone.cursors.Keys == db.cursors.Keys + set c | c in Advanced(db, user, workspace) :: (user, c)
  {
    var after := MarkedAllRead(db, user, workspace);
    var snap := SnapshotOf(db, user, workspace);
    var undone := Restored(after, user, snap);
    forall u, c ensures CursorOf(undone, u, c) == CursorOf(db, u, c) {
      WithCursorsAt(after, user, snap, u, c);
      WithCursorsAt(db, user, NewCursors(db, user, workspace), u, c);
    }
    forall u, c ensures Unread(undone, u, c) == Unread(db, u, c) {
      assert CursorOf(undone, u, c) == CursorOf(db, u, c);
      assert CountedIn(undone, c) == CountedIn(db, c);
    }
    RestoredKeys(db, user, NewCursors(db, user, workspace));
    RestoredKeys(after, user, snap);
    assert NewCursors(db, user, workspace).Keys == snap.Keys == Advanced(db, user, workspace);
  }

  lemma RestoredKeys(db: Db, user: Id, cursors: map<Id, Cursor>)
    ensures WithCursors(db, user, cursors).cursors.Keys == db.cursors.Keys + set c | c in cursors.Keys :: (user, c)
  {
    var m := map c | c in cursors :: (user, c) := cursors[c];
    assert m.Keys == set c | c in cursors.Keys :: (user, c);
  }

  // ---- the counts an undo reports -----------------------------------------------------------------

  /** `recountSetBased`: it forgets the roots-only filter. */
  function RecountedUnread(db: Db, user: Id, channel: Id): set<Id> {
    set i | i in LiveIn(db, channel) && Beyond(KeyAt(db, i), CursorOf(db, user, channel))
  }

  /** The count reported after an undo is the unread count exactly when no live reply that is
      not a broadcast lies after the cursor. */
  lemma RecountAgreesIff(db: Db, user: Id, channel: Id)
    ensures |RecountedUnread(db, user, channel)| == UnreadCountFor(db, user, channel) <==>
      forall i :: i in LiveIn(db, channel) && Beyond(KeyAt(db, i), CursorOf(db, user, channel)) ==>
        db.messages[i].parent.None? || db.messages[i].broadcast
  {
    var wide := RecountedUnread(db, user, channel);
    var narrow := Unread(db, user, channel);
    assert narrow <= wide;
    if |wide| == |narrow| {
      SameSize(narrow, wide);
    }
    if forall i :: i in wide ==> db.messages[i].parent.None? || db.messages[i].broadcast {
      assert wide <= narrow;
      assert wide == narrow;
    }
  }

  /** One live reply, never read and not broadcast: the undo reports it, the channel's unread
      count does not. */
  lemma RecountDiffers(user: Id, channel: Id)
    ensures var reply := Message(channel, 5, false, Some(0), false, Mentions({}, false, false, false));
      var db := Db(map[1 := reply], map[], map[]);
      |RecountedUnread(db, user, channel)| == 1 && UnreadCountFor(db, user, channel) == 0
  {
    var reply := Message(channel, 5, false, Some(0), false, Mentions({}, false, false, false));
    var db := Db(map[1 := reply], map[], map[]);
    assert LiveIn(db, channel) == {1};
    assert RecountedUnread(db, user, channel) == {1};
    assert CountedIn(db, channel) == {};
  }
}
