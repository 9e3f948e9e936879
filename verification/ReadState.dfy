/** Read cursors and unread sets. A cursor is a message position (createdAt, id) or null,
    which lies before every message. Identifiers stand for uuids in their own order. */
module ReadState {
  import opened Wrappers
  import opened Sets
  import opened Permissions

  type Id = nat

  /** A message position; positions of distinct messages are distinct because ids are. */
  datatype Key = Key(at: int, id: Id)

  /** The row comparison `(createdAt, id) < (createdAt, id)`. */
  predicate Less(a: Key, b: Key) {
    a.at < b.at || (a.at == b.at && a.id < b.id)
  }

  type Cursor = Option<Key>

  /** A position is unread when the cursor is null or before it. */
  predicate Beyond(k: Key, c: Cursor) {
    c.None? || Less(c.value, k)
  }

  /** The order of cursors, null first. */
  predicate AtMost(c: Cursor, d: Cursor) {
    c.None? || (d.Some? && !Less(d.value, c.value))
  }

  function MaxCursor(c: Cursor, k: Key): Cursor {
    if Beyond(k, c) then Some(k) else c
  }

  datatype Mentions = Mentions(users: set<Id>, everyone: bool, here: bool, channel: bool)

  datatype Message = Message(channel: Id, at: int, deleted: bool, parent: Option<Id>, broadcast: bool,
    mentions: Mentions)

  datatype Channel = Channel(workspace: Option<Id>, deleted: bool, archived: bool, isPrivate: bool,
    grants: map<Id, Grants>)

  /** The tables. A user's grants on a channel are the unions of the overrides that apply to
      them; a cursor row may hold a null cursor. */
  datatype Db = Db(messages: map<Id, Message>, channels: map<Id, Channel>, cursors: map<(Id, Id), Cursor>)

  function KeyAt(db: Db, i: Id): Key
    requires i in db.messages
  {
    Key(db.messages[i].at, i)
  }

  function CursorOf(db: Db, user: Id, channel: Id): Cursor {
    if (user, channel) in db.cursors then db.cursors[(user, channel)] else None
  }

  /** Roots and broadcast replies that are not deleted: what the channel's counts are about. */
  predicate Counted(m: Message) {
    !m.deleted && (m.parent.None? || m.broadcast)
  }

  /** `mentionMatchSql` */
  predicate MentionMatches(m: Message, user: Id) {
    user in m.mentions.users || m.mentions.everyone || m.mentions.here || m.mentions.channel
  }

  /** The messages of a channel that its unread count is about. */
  function CountedIn(db: Db, channel: Id): set<Id> {
    set i | i in db.messages && db.messages[i].channel == channel && Counted(db.messages[i])
  }

  function LiveIn(db: Db, channel: Id): set<Id> {
    set i | i in db.messages && db.messages[i].channel == channel && !db.messages[i].deleted
  }

  function Unread(db: Db, user: Id, channel: Id): set<Id> {
    set i | i in CountedIn(db, channel) && Beyond(KeyAt(db, i), CursorOf(db, user, channel))
  }

  function UnreadCountFor(db: Db, user: Id, channel: Id): nat { |Unread(db, user, channel)| }

  function MentionsFor(db: Db, user: Id, channel: Id): set<Id> {
    set i | i in Unread(db, user, channel) && MentionMatches(db.messages[i], user)
  }

  function MentionCountFor(db: Db, user: Id, channel: Id): nat { |MentionsFor(db, user, channel)| }

  // ---- the same, spelled out ----------------------------------------------------------------------

  /** The message is in the channel and not deleted. */
  predicate IsLiveIn(db: Db, channel: Id, i: Id) {
    i in db.messages && db.messages[i].channel == channel && !db.messages[i].deleted
  }

  /** The live messages of a channel after a cursor. */
  function LiveAfter(db: Db, channel: Id, c: Cursor): set<Id> {
    set i | i in db.messages && IsLiveIn(db, channel, i)
      && (c.None? || c.value.at < db.messages[i].at || (c.value.at == db.messages[i].at && c.value.id < i))
  }

  /** Of these, the roots and the broadcasts. */
  function RootsAfter(db: Db, channel: Id, c: Cursor): set<Id> {
    set i | i in LiveAfter(db, channel, c) && (db.messages[i].parent.None? || db.messages[i].broadcast)
  }

  /** Of some messages, those that mention a user, by name or with everybody. */
  function Mentioning(db: Db, messages: set<Id>, user: Id): set<Id> {
    set i | i in messages && i in db.messages
      && var m := db.messages[i].mentions; user in m.users || m.everyone || m.here || m.channel
  }

  lemma UnreadSpelled(db: Db, user: Id, channel: Id)
    ensures Unread(db, user, channel) == RootsAfter(db, channel, CursorOf(db, user, channel))
    ensures MentionsFor(db, user, channel) ==
      Mentioning(db, RootsAfter(db, channel, CursorOf(db, user, channel)), user)
  {
    var roots := RootsAfter(db, channel, CursorOf(db, user, channel));
    assert Unread(db, user, channel) == roots;
    assert MentionsFor(db, user, channel) == Mentioning(db, roots, user);
  }

  // ---- the latest of some messages ----------------------------------------------------------------

  ghost predicate IsLatest(db: Db, s: set<Id>, i: Id)
    requires s <= db.messages.Keys
  {
    i in s && forall j :: j in s ==> !Less(KeyAt(db, i), KeyAt(db, j))
  }

  lemma {:induction false} LatestExists(db: Db, s: set<Id>)
    requires s <= db.messages.Keys && s != {}
    ensures exists i :: IsLatest(db, s, i)
  {
    var x :| x in s;
    if s == {x} {
      assert IsLatest(db, s, x);
    } else {
      LatestExists(db, s - {x});
      var y :| IsLatest(db, s - {x}, y);
      if Less(KeyAt(db, y), KeyAt(db, x)) {
        assert IsLatest(db, s, x);
      } else {
        assert IsLatest(db, s, y);
      }
    }
  }

  /** `ORDER BY createdAt DESC, id DESC LIMIT 1` */
  ghost function Latest(db: Db, s: set<Id>): (r: Option<Id>)
    requires s <= db.messages.Keys
    ensures r.None? <==> s == {}
    ensures r.Some? ==> IsLatest(db, s, r.value)
  {
    if s == {} then None
    else
      LatestExists(db, s);
      var i :| IsLatest(db, s, i);
      Some(i)
  }

  /** The order leaves no choice. */
  lemma LatestUnique(db: Db, s: set<Id>, i: Id)
    requires s <= db.messages.Keys && IsLatest(db, s, i)
    ensures Latest(db, s) == Some(i)
  {
    var j := Latest(db, s).value;
    assert !Less(KeyAt(db, i), KeyAt(db, j)) && !Less(KeyAt(db, j), KeyAt(db, i));
  }

  // ---- acknowledging -------------------------------------------------------------------------------

  datatype ReadError = MessageNotFound | SnapshotNotFound

  datatype Payload = Payload(channel: Id, lastRead: Option<Id>, unread: nat, mentions: nat)

  predicate BelongsTo(db: Db, i: Id, channel: Id) {
    i in db.messages && db.messages[i].channel == channel && !db.messages[i].deleted
  }

  /** The guarded upsert: a missing row is inserted, a stored cursor moves only forward. */
  function Acked(db: Db, user: Id, channel: Id, k: Key): Db {
    if (user, channel) in db.cursors && !Beyond(k, db.cursors[(user, channel)]) then db
    else db.(cursors := db.cursors[(user, channel) := Some(k)])
  }

  function SetCursor(db: Db, user: Id, channel: Id, c: Cursor): Db {
    db.(cursors := db.cursors[(user, channel) := c])
  }

  lemma AckedCursor(db: Db, user: Id, channel: Id, k: Key)
    ensures forall u, c :: (CursorOf(Acked(db, user, channel, k), u, c)
      == if u == user && c == channel then MaxCursor(CursorOf(db, user, channel), k) else CursorOf(db, u, c))
    ensures (user, channel) in Acked(db, user, channel, k).cursors
  {
  }

  /** An acknowledgement leaves exactly the unread messages after it, and so never adds any. */
  lemma AckedUnread(db: Db, user: Id, channel: Id, k: Key)
    ensures Unread(Acked(db, user, channel, k), user, channel) ==
      set i | i in Unread(db, user, channel) && Less(k, KeyAt(db, i))
    ensures UnreadCountFor(Acked(db, user, channel, k), user, channel) <= UnreadCountFor(db, user, channel)
  {
    AckedCursor(db, user, channel, k);
    var after := Unread(Acked(db, user, channel, k), user, channel);
    assert after == set i | i in Unread(db, user, channel) && Less(k, KeyAt(db, i));
    SubsetSize(after, Unread(db, user, channel));
  }

  // ---- any number of acknowledgements ----------------------------------------------------------------

  /** The acknowledgements of one user in one channel, in any order and with repetitions;
      those of messages that do not belong to the channel fail and change nothing. */
  function AckAll(db: Db, user: Id, channel: Id, acks: seq<Id>): Db
    decreases acks
  {
    if acks == [] then db
    else if BelongsTo(db, acks[0], channel) then
      AckAll(Acked(db, user, channel, KeyAt(db, acks[0])), user, channel, acks[1..])
    else AckAll(db, user, channel, acks[1..])
  }

  /** The stored cursor is the greatest of the initial one and all acknowledged positions. */
  ghost predicate IsGreatest(db: Db, user: Id, channel: Id, acks: seq<Id>, c: Cursor) {
    && AtMost(CursorOf(db, user, channel), c)
    && (forall i :: i in acks && BelongsTo(db, i, channel) ==> AtMost(Some(KeyAt(db, i)), c))
    && (c == CursorOf(db, user, channel) || exists i ::
          i in acks && BelongsTo(db, i, channel) && c == Some(KeyAt(db, i)))
  }

  lemma {:induction false} AcksConverge(db: Db, user: Id, channel: Id, acks: seq<Id>)
    ensures var after := AckAll(db, user, channel, acks);
      && after.messages == db.messages
      && IsGreatest(db, user, channel, acks, CursorOf(after, user, channel))
      && UnreadCountFor(after, user, channel) <= UnreadCountFor(db, user, channel)
    decreases acks
  {
    if acks != [] {
      if BelongsTo(db, acks[0], channel) {
        var k := KeyAt(db, acks[0]);
        var next := Acked(db, user, channel, k);
        AckedCursor(db, user, channel, k);
        AckedUnread(db, user, channel, k);
        AcksConverge(next, user, channel, acks[1..]);
        assert acks[0] in acks && forall i :: i in acks[1..] ==> i in acks;
        assert forall i :: i in acks ==> i == acks[0] || i in acks[1..];
        assert forall i :: BelongsTo(next, i, channel) <==> BelongsTo(db, i, channel);
        assert forall i :: i in db.messages ==> KeyAt(next, i) == KeyAt(db, i);
      } else {
        AcksConverge(db, user, channel, acks[1..]);
        assert forall i :: i in acks ==> i == acks[0] || i in acks[1..];
      }
    }
  }

  /** Two runs of acknowledgements of the same messages end at the same cursor. */
  lemma AckOrderIrrelevant(db: Db, user: Id, channel: Id, a: seq<Id>, b: seq<Id>)
    requires forall i :: i in a <==> i in b
    ensures CursorOf(AckAll(db, user, channel, a), user, channel) ==
      CursorOf(AckAll(db, user, channel, b), user, channel)
  {
    AcksConverge(db, user, channel, a);
    AcksConverge(db, user, channel, b);
    var x := CursorOf(AckAll(db, user, channel, a), user, channel);
    var y := CursorOf(AckAll(db, user, channel, b), user, channel);
    assert AtMost(x, y) && AtMost(y, x);
  }

  // ---- marking unread -----------------------------------------------------------------------------------

  /** The live messages of the channel before a position, replies included. */
  function Before(db: Db, channel: Id, k: Key): set<Id> {
    set i | i in LiveIn(db, channel) && Less(KeyAt(db, i), k)
  }

  ghost function CursorBefore(db: Db, channel: Id, k: Key): Cursor {
    var prev := Latest(db, Before(db, channel, k));
    if prev.None? then None else Some(KeyAt(db, prev.value))
  }

  ghost function MarkedUnread(db: Db, user: Id, channel: Id, i: Id): Db
    requires i in db.messages
  {
    SetCursor(db, user, channel, CursorBefore(db, channel, KeyAt(db, i)))
  }

  /** Marking a message unread puts the cursor on the latest live message of the channel before it,
      replies included, or on nothing. */
  lemma MarkedCursor(db: Db, user: Id, channel: Id, i: Id)
    requires i in db.messages
    ensures var c, m := CursorOf(MarkedUnread(db, user, channel, i), user, channel), db.messages[i];
      var earlier := set j | j in LiveAfter(db, channel, None)
        && (db.messages[j].at < m.at || (db.messages[j].at == m.at && j < i));
      && (c.None? <==> earlier == {})
      && (c.Some? ==>
            && c.value.id in earlier && c.value == KeyAt(db, c.value.id)
            && forall j :: j in earlier ==> !Less(c.value, KeyAt(db, j)))
    ensures forall u, c :: u != user || c != channel ==>
      CursorOf(MarkedUnread(db, user, channel, i), u, c) == CursorOf(db, u, c)
  {
    var before := Before(db, channel, KeyAt(db, i));
    assert before == set j | j in LiveAfter(db, channel, None)
      && (db.messages[j].at < db.messages[i].at || (db.messages[j].at == db.messages[i].at && j < i));
    assert before != {} ==> IsLatest(db, before, Latest(db, before).value);
  }

  /** Whatever the cursor was, exactly the counted messages from the marked one on are unread. */
  lemma MarkUnreadExact(db: Db, user: Id, channel: Id, i: Id)
    requires BelongsTo(db, i, channel)
    ensures Unread(MarkedUnread(db, user, channel, i), user, channel) ==
      set j | j in CountedIn(db, channel) && !Less(KeyAt(db, j), KeyAt(db, i))
  {
    var after := MarkedUnread(db, user, channel, i);
    var k := KeyAt(db, i);
    var before := Before(db, channel, k);
    forall j | j in CountedIn(db, channel)
      ensures Beyond(KeyAt(db, j), CursorBefore(db, channel, k)) <==> !Less(KeyAt(db, j), k)
    {
      assert j in LiveIn(db, channel);
      if Less(KeyAt(db, j), k) {
        assert j in before;
      } else if before != {} {
        assert Latest(db, before).value in before;
      }
    }
    assert CursorOf(after, user, channel) == CursorBefore(db, channel, k);
    assert CountedIn(after, channel) == CountedIn(db, channel);
  }

  /** After marking unread, acknowledging any live message from there on moves forward to it. */
  lemma AckAfterMarkUnread(db: Db, user: Id, channel: Id, i: Id, j: Id)
    requires BelongsTo(db, i, channel) && BelongsTo(db, j, channel) && !Less(KeyAt(db, j), KeyAt(db, i))
    ensures CursorOf(Acked(MarkedUnread(db, user, channel, i), user, channel, KeyAt(db, j)), user, channel) ==
      Some(KeyAt(db, j))
  {
    var before := Before(db, channel, KeyAt(db, i));
    if before != {} {
      assert Latest(db, before).value in before;
    }
  }
}
