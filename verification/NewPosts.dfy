/** Sending a message does not drop the cached totals of the channel's readers, though the
    cache's own description says that it does. When that shows. */
module NewPosts {
  import opened Wrappers
  import opened ReadState
  import opened MarkAll
  import opened Totals

  function Posted(db: Db, i: Id, m: Message): Db {
    db.(messages := db.messages[i := m])
  }

  /** Whether the new message is one that the reader's workspace total counts. */
  predicate NewlyUnread(db: Db, workspace: Id, user: Id, i: Id, m: Message) {
    m.channel in SummaryChannels(db, workspace, user) && Counted(m)
      && Beyond(Key(m.at, i), CursorOf(db, user, m.channel))
  }

  /** A new message changes no unread set but, when it counts, its channel's, which it joins. */
  lemma PostedUnread(db: Db, i: Id, m: Message, user: Id, c: Id)
    requires i !in db.messages
    ensures Unread(Posted(db, i, m), user, c) ==
      Unread(db, user, c) +
        if c == m.channel && Counted(m) && Beyond(Key(m.at, i), CursorOf(db, user, c)) then {i} else {}
  {
    var after := Posted(db, i, m);
    forall j | j in db.messages ensures after.messages[j] == db.messages[j] && KeyAt(after, j) == KeyAt(db, j) {
    }
    assert CountedIn(after, c) == CountedIn(db, c) + if c == m.channel && Counted(m) then {i} else {};
  }

  lemma SameUnreadSameSummary(db: Db, i: Id, m: Message, user: Id, c: Id)
    requires i !in db.messages
    requires Unread(Posted(db, i, m), user, c) == Unread(db, user, c)
    ensures SummaryOf(Posted(db, i, m), user, c) == SummaryOf(db, user, c)
  {
    var after := Posted(db, i, m);
    var unread := Unread(db, user, c);
    assert MentionsFor(after, user, c) == MentionsFor(db, user, c);
    if unread != {} {
      var j := Latest(db, unread).value;
      assert IsLatest(after, unread, j);
      LatestUnique(after, unread, j);
    }
  }

  /** A total cached before the message is still right exactly when the message is not newly
      unread for the reader. */
  lemma PostStaleIff(db: Db, workspace: Id, user: Id, i: Id, m: Message)
    requires i !in db.messages
    ensures var after := Posted(db, i, m);
      HashTotal(Encode(Summarize(db, workspace, user))) == TotalOf(Summarize(after, workspace, user)) <==>
      !NewlyUnread(db, workspace, user, i, m)
  {
    hide HashTotal, Encode, Unread, Sum, AnyMention, SummaryOf, Beyond;
    CacheFoldsToTotal(db, workspace, user);
    var after := Posted(db, i, m);
    var before, now := Summarize(db, workspace, user), Summarize(after, workspace, user);
    assert SummaryChannels(after, workspace, user) == SummaryChannels(db, workspace, user) by {
      assert VisibleChannels(after, user, workspace) == VisibleChannels(db, user, workspace);
    }
    forall c | c in before && !(c == m.channel && NewlyUnread(db, workspace, user, i, m)) ensures now[c] == before[c] {
      PostedUnread(db, i, m, user, c);
      SameUnreadSameSummary(db, i, m, user, c);
    }
    if NewlyUnread(db, workspace, user, i, m) {
      CountsOneMore(db, workspace, user, i, m);
      OneMore(before, now, m.channel);
    } else {
      assert now == before;
    }
  }

  lemma CountsOneMore(db: Db, workspace: Id, user: Id, i: Id, m: Message)
    requires i !in db.messages && NewlyUnread(db, workspace, user, i, m)
    ensures SummaryOf(Posted(db, i, m), user, m.channel).unread == SummaryOf(db, user, m.channel).unread + 1
  {
    PostedUnread(db, i, m, user, m.channel);
    assert i !in Unread(db, user, m.channel);
  }

  lemma OneMore(before: Summary, now: Summary, c: Id)
    requires before.Keys == now.Keys && c in now && now[c].unread == before[c].unread + 1
    requires forall d :: d in before && d != c ==> now[d] == before[d]
    ensures TotalOf(now).unread == TotalOf(before).unread + 1
  {
    hide Sum, AnyMention;
    TakeChannel(before, c);
    TakeChannel(now, c);
    assert now - {c} == before - {c};
  }

  /** A public channel with nothing in it, read once through the cache: the first message leaves
      the cached total at nothing unread. */
  lemma PostLeavesStale(user: Id, workspace: Id)
    ensures var db := Db(map[], map[0 := Channel(Some(workspace), false, false, false, map[])], map[]);
      var m := Message(0, 5, false, None, false, Mentions({}, false, false, false));
      HashTotal(Encode(Summarize(db, workspace, user))) != TotalOf(Summarize(Posted(db, 1, m), workspace, user))
  {
    hide HashTotal, Encode, Summarize, TotalOf;
    var db := Db(map[], map[0 := Channel(Some(workspace), false, false, false, map[])], map[]);
    var m := Message(0, 5, false, None, false, Mentions({}, false, false, false));
    PostStaleIff(db, workspace, user, 1, m);
    assert 0 in SummaryChannels(db, workspace, user);
    assert NewlyUnread(db, workspace, user, 1, m);
  }
}
