/** Changes outside the unread service drop no cached total, but for the deletion of a broadcast
    and a bulk purge, though the cache's own description names member changes. When that shows. */
module OtherChanges {
  import opened Wrappers
  import opened Sets
  import opened Permissions
  import opened ReadState
  import opened MarkAll
  import opened Totals
  import opened NewPosts

  // ---- losing and gaining channels ----------------------------------------------------------------

  /** A channel with nothing unread has no mention. */
  predicate MentionsAreUnread(s: Summary) {
    forall c :: c in s && s[c].unread == 0 ==> s[c].mentions == 0 && !s[c].hasMention
  }

  /** Leaving channels out of a summary keeps its total exactly when nothing in them is unread. */
  lemma {:induction false} PartTotal(all: Summary, part: Summary)
    requires MentionsAreUnread(all)
    requires forall c :: c in part ==> c in all && part[c] == all[c]
    ensures TotalOf(part).unread <= TotalOf(all).unread
    ensures TotalOf(part) == TotalOf(all) <==> forall c :: c in all && c !in part ==> all[c].unread == 0
    decreases |all|
  {
    hide Sum, AnyMention;
    if c :| c in all && c !in part {
      PartTotal(all - {c}, part);
      TakeChannel(all, c);
      assert forall d :: d in all && d !in part ==> d == c || (d in all - {c} && (all - {c})[d] == all[d]);
    } else {
      assert part == all;
    }
  }

  lemma SummariesMentionUnread(db: Db, workspace: Id, user: Id)
    ensures MentionsAreUnread(Summarize(db, workspace, user))
  {
    forall c | c in SummaryChannels(db, workspace, user) && UnreadCountFor(db, user, c) == 0
      ensures MentionsFor(db, user, c) == {}
    {
      SubsetSize(MentionsFor(db, user, c), Unread(db, user, c));
    }
  }

  /** Whether a channel is summarised for one of two states of the tables only, and has unread
      messages. */
  predicate Turned(db: Db, next: Db, workspace: Id, user: Id, c: Id) {
    (c in SummaryChannels(db, workspace, user) <==> c !in SummaryChannels(next, workspace, user))
    && Unread(db, user, c) != {}
  }

  /** A change of channels or overrides that only takes channels from a reader's summary, or only
      brings some, leaves a cached total right exactly when nothing is unread in any of them. */
  lemma AccessStaleIff(db: Db, next: Db, workspace: Id, user: Id)
    requires next.messages == db.messages && next.cursors == db.cursors
    requires SummaryChannels(next, workspace, user) <= SummaryChannels(db, workspace, user)
      || SummaryChannels(db, workspace, user) <= SummaryChannels(next, workspace, user)
    ensures HashTotal(Encode(Summarize(db, workspace, user))) == TotalOf(Summarize(next, workspace, user)) <==>
      forall c :: !Turned(db, next, workspace, user, c)
  {
    hide HashTotal, Encode, Sum, AnyMention, SummaryOf, SummaryChannels, Unread;
    CacheFoldsToTotal(db, workspace, user);
    var before, after := Summarize(db, workspace, user), Summarize(next, workspace, user);
    SummariesMentionUnread(db, workspace, user);
    SummariesMentionUnread(next, workspace, user);
    forall c ensures Turned(db, next, workspace, user, c) <==>
      (c in before && c !in after && before[c].unread != 0) || (c in after && c !in before && after[c].unread != 0)
    {
      SameTables(db, next, user, c);
    }
    forall c | c in before && c in after ensures before[c] == after[c] {
      SameTables(db, next, user, c);
    }
    if SummaryChannels(next, workspace, user) <= SummaryChannels(db, workspace, user) {
      PartTotal(before, after);
    } else {
      PartTotal(after, before);
    }
  }

  lemma SameTables(db: Db, next: Db, user: Id, c: Id)
    requires next.messages == db.messages && next.cursors == db.cursors
    ensures SummaryOf(next, user, c) == SummaryOf(db, user, c) && SummaryOf(db, user, c).unread == |Unread(db, user, c)|
  {
    assert Unread(next, user, c) == Unread(db, user, c);
    assert MentionsFor(next, user, c) == MentionsFor(db, user, c);
    var unread := Unread(db, user, c);
    if unread != {} {
      var i := Latest(db, unread).value;
      assert IsLatest(next, unread, i);
      LatestUnique(next, unread, i);
    }
  }

  function WithChannel(db: Db, c: Id, ch: Channel): Db { db.(channels := db.channels[c := ch]) }

  /** Changing one channel, by archiving it say, or one reader's overrides there, leaves the
      cached total right exactly when it does not turn the channel's being summarised, or nothing
      is unread in it. */
  lemma ChannelStaleIff(db: Db, workspace: Id, user: Id, c: Id, ch: Channel)
    ensures var next := WithChannel(db, c, ch);
      HashTotal(Encode(Summarize(db, workspace, user))) == TotalOf(Summarize(next, workspace, user)) <==>
      !Turned(db, next, workspace, user, c)
  {
    hide HashTotal, Encode, TotalOf, Summarize, QueryVisible;
    var next := WithChannel(db, c, ch);
    assert forall d :: d != c ==>
      (d in SummaryChannels(next, workspace, user) <==> d in SummaryChannels(db, workspace, user));
    AccessStaleIff(db, next, workspace, user);
  }

  /** Archiving a channel leaves the totals of its readers stale exactly where it has something
      unread. */
  lemma ArchiveStaleIff(db: Db, workspace: Id, user: Id, c: Id)
    requires c in SummaryChannels(db, workspace, user)
    ensures var next := WithChannel(db, c, db.channels[c].(archived := true));
      HashTotal(Encode(Summarize(db, workspace, user))) != TotalOf(Summarize(next, workspace, user)) <==>
      Unread(db, user, c) != {}
  {
    hide HashTotal, Encode, TotalOf, Summarize;
    ChannelStaleIff(db, workspace, user, c, db.channels[c].(archived := true));
  }

  /** A change of a reader's overrides on a channel of the workspace leaves the cached total stale
      exactly when it turns what the query shows and the channel, not archived or deleted, has
      something unread. */
  lemma OverrideStaleIff(db: Db, workspace: Id, user: Id, c: Id, g: Grants)
    requires c in db.channels && db.channels[c].workspace == Some(workspace)
    ensures var ch := db.channels[c];
      var next := WithChannel(db, c, ch.(grants := ch.grants[user := g]));
      HashTotal(Encode(Summarize(db, workspace, user))) != TotalOf(Summarize(next, workspace, user)) <==>
      && !ch.archived && !ch.deleted && Unread(db, user, c) != {}
      && QueryVisible(ch.isPrivate, GrantsFor(ch, user)) != QueryVisible(ch.isPrivate, g)
  {
    hide HashTotal, Encode, TotalOf, Summarize, QueryVisible;
    var ch := db.channels[c];
    ChannelStaleIff(db, workspace, user, c, ch.(grants := ch.grants[user := g]));
  }

  // ---- deleting a message -------------------------------------------------------------------------

  function Deleted(db: Db, i: Id): Db
    requires i in db.messages
  {
    db.(messages := db.messages[i := db.messages[i].(deleted := true)])
  }

  lemma DeletedUnread(db: Db, i: Id, user: Id, c: Id)
    requires i in db.messages
    ensures Unread(Deleted(db, i), user, c) == Unread(db, user, c) - {i}
  {
    var after := Deleted(db, i);
    assert CountedIn(after, c) == CountedIn(db, c) - {i};
    assert forall j :: j in db.messages ==> KeyAt(after, j) == KeyAt(db, j);
  }

  lemma UntouchedSummary(db: Db, i: Id, user: Id, c: Id)
    requires i in db.messages && i !in Unread(db, user, c)
    ensures SummaryOf(Deleted(db, i), user, c) == SummaryOf(db, user, c)
  {
    var after := Deleted(db, i);
    DeletedUnread(db, i, user, c);
    var unread := Unread(db, user, c);
    assert Unread(after, user, c) == unread;
    assert MentionsFor(after, user, c) == MentionsFor(db, user, c);
    if unread != {} {
      var j := Latest(db, unread).value;
      assert forall k :: k in db.messages ==> KeyAt(after, k) == KeyAt(db, k);
      assert IsLatest(after, unread, j);
      LatestUnique(after, unread, j);
    }
  }

  /** A deletion that drops nothing leaves the cached total stale exactly when the message was
      unread in a channel that is summarised for the reader. */
  lemma DeleteStaleIff(db: Db, workspace: Id, user: Id, i: Id)
    requires i in db.messages
    ensures var after, c := Deleted(db, i), db.messages[i].channel;
      HashTotal(Encode(Summarize(db, workspace, user))) != TotalOf(Summarize(after, workspace, user)) <==>
      c in SummaryChannels(db, workspace, user) && i in Unread(db, user, c)
  {
    hide HashTotal, Encode, Sum, AnyMention, SummaryOf, TotalOf;
    CacheFoldsToTotal(db, workspace, user);
    var after, c := Deleted(db, i), db.messages[i].channel;
    var before, now := Summarize(db, workspace, user), Summarize(after, workspace, user);
    assert SummaryChannels(after, workspace, user) == SummaryChannels(db, workspace, user) by {
      assert VisibleChannels(after, user, workspace) == VisibleChannels(db, user, workspace);
    }
    forall d | d in before && i !in Unread(db, user, d) ensures now[d] == before[d] {
      UntouchedSummary(db, i, user, d);
    }
    if c in before && i in Unread(db, user, c) {
      CountsOneLess(db, i, user);
      OneMore(now, before, c);
    } else {
      assert now == before;
    }
  }

  lemma CountsOneLess(db: Db, i: Id, user: Id)
    requires i in db.messages && i in Unread(db, user, db.messages[i].channel)
    ensures var c := db.messages[i].channel;
      SummaryOf(db, user, c).unread == SummaryOf(Deleted(db, i), user, c).unread + 1
  {
    DeletedUnread(db, i, user, db.messages[i].channel);
  }
}
