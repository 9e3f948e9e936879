/** Unread summaries, their workspace totals, and the cached form of a summary. */
module Totals {
  import opened Wrappers
  import opened ReadState
  import opened MarkAll

  // ---- sums over maps --------------------------------------------------------------------------

  ghost function Sum<K>(m: map<K, nat>): nat {
    if m == map[] then 0
    else
      var k :| k in m;
      m[k] + Sum(m - {k})
  }

  /** A sum does not depend on the order in which keys are taken. */
  lemma {:induction false} SumTake<K>(m: map<K, nat>, k: K)
    requires k in m
    ensures Sum(m) == m[k] + Sum(m - {k})
    decreases |m|
  {
    var x :| x in m && Sum(m) == m[x] + Sum(m - {x});
    if x != k {
      SumTake(m - {x}, k);
      SumTake(m - {k}, x);
      assert m - {x} - {k} == m - {k} - {x};
    }
  }

  lemma {:induction false} SumPositive<K>(m: map<K, nat>)
    ensures Sum(m) > 0 <==> exists k :: k in m && m[k] > 0
    decreases |m|
  {
    if m != map[] {
      var x :| x in m;
      SumTake(m, x);
      SumPositive(m - {x});
      assert forall k :: k in m ==> k == x || k in m - {x};
    }
  }

  // ---- summaries --------------------------------------------------------------------------------

  datatype ChannelSummary = ChannelSummary(unread: nat, hasMention: bool, mentions: nat, lastAt: Option<int>)

  type Summary = map<Id, ChannelSummary>

  /** The channels a summary lists: visible and not archived. */
  function SummaryChannels(db: Db, workspace: Id, user: Id): set<Id> {
    set c | c in VisibleChannels(db, user, workspace) && !db.channels[c].archived
  }

  ghost function LastAt(db: Db, user: Id, c: Id): Option<int> {
    var latest := Latest(db, Unread(db, user, c));
    if latest.None? then None else Some(db.messages[latest.value].at)
  }

  ghost function SummaryOf(db: Db, user: Id, c: Id): ChannelSummary {
    ChannelSummary(UnreadCountFor(db, user, c), MentionsFor(db, user, c) != {}, MentionCountFor(db, user, c),
      LastAt(db, user, c))
  }

  ghost function Summarize(db: Db, workspace: Id, user: Id): Summary {
    map c | c in SummaryChannels(db, workspace, user) :: SummaryOf(db, user, c)
  }

  /** A row of a summary: how many live roots and broadcasts lie after the cursor, how many of these
      mention the user, and the time of the latest. */
  lemma RowMeans(db: Db, user: Id, c: Id)
    ensures var row, unread := SummaryOf(db, user, c), RootsAfter(db, c, CursorOf(db, user, c));
      && row.unread == |unread| && row.mentions == |Mentioning(db, unread, user)|
      && (row.hasMention <==> exists i :: i in Mentioning(db, unread, user))
      && (row.lastAt.None? <==> unread == {})
      && (row.lastAt.Some? ==>
            && (exists i :: i in unread && db.messages[i].at == row.lastAt.value)
            && (forall i :: i in unread ==> db.messages[i].at <= row.lastAt.value))
  {
    UnreadSpelled(db, user, c);
    var unread := Unread(db, user, c);
    if unread != {} {
      var i := Latest(db, unread).value;
      assert IsLatest(db, unread, i);
      forall j | j in unread ensures db.messages[j].at <= db.messages[i].at {
        assert !Less(KeyAt(db, i), KeyAt(db, j));
      }
    }
  }

  datatype Total = Total(unread: nat, hasMention: bool, mentions: nat)

  function UnreadsOf(s: Summary): map<Id, nat> { map c | c in s :: s[c].unread }
  function MentionsOf(s: Summary): map<Id, nat> { map c | c in s :: s[c].mentions }

  ghost predicate AnyMention(s: Summary) { exists c :: c in s && s[c].hasMention }

  ghost function TotalOf(s: Summary): Total {
    Total(Sum(UnreadsOf(s)), AnyMention(s), Sum(MentionsOf(s)))
  }

  lemma TakeChannel(s: Summary, c: Id)
    requires c in s
    ensures Sum(UnreadsOf(s)) == s[c].unread + Sum(UnreadsOf(s - {c}))
    ensures Sum(MentionsOf(s)) == s[c].mentions + Sum(MentionsOf(s - {c}))
    ensures AnyMention(s) <==> s[c].hasMention || AnyMention(s - {c})
  {
    hide Sum;
    SumTake(UnreadsOf(s), c);
    SumTake(MentionsOf(s), c);
    assert UnreadsOf(s) - {c} == UnreadsOf(s - {c});
    assert MentionsOf(s) - {c} == MentionsOf(s - {c});
    if AnyMention(s) {
      var x :| x in s && s[x].hasMention;
      assert x == c || x in s - {c};
    }
    if AnyMention(s - {c}) {
      var x :| x in s - {c} && (s - {c})[x].hasMention;
      assert x in s && s[x].hasMention;
    }
  }

  /** `foldChannels` */
  method FoldChannels(s: Summary) returns (t: Total)
    ensures t == TotalOf(s)
  {
    hide UnreadsOf, MentionsOf, Sum, AnyMention, ChannelsOf, EntryUnreads, EntryMentions;
    var unread, hasMention, mentions := 0, false, 0;
    var todo := s;
    while todo != map[]
      invariant Sum(UnreadsOf(s)) == unread + Sum(UnreadsOf(todo))
      invariant Sum(MentionsOf(s)) == mentions + Sum(MentionsOf(todo))
      invariant AnyMention(s) <==> hasMention || AnyMention(todo)
      decreases |todo|
    {
      var c :| c in todo;
      TakeChannel(todo, c);
      unread := unread + todo[c].unread;
      mentions := mentions + todo[c].mentions;
      hasMention := hasMention || todo[c].hasMention;
      todo := todo - {c};
    }
    NothingToSum();
    t := Total(unread, hasMention, mentions);
  }

  lemma NothingToSum()
    ensures !AnyMention(map[])
    ensures Sum(UnreadsOf(map[])) == 0 && Sum(MentionsOf(map[])) == 0
    ensures Sum(EntryUnreads(ChannelsOf(map[]))) == 0 && Sum(EntryMentions(ChannelsOf(map[]))) == 0
  {
  }

  // ---- the cached form ----------------------------------------------------------------------------

  /** A hash field: a channel, or the sentinel that keeps an empty workspace's hash alive. */
  datatype Field = Sentinel | ChannelField(id: Id)

  datatype Entry = Entry(unread: nat, mentions: nat)

  type Hash = map<Field, Entry>

  /** What `writeCache` stores: it drops `hasMention`. */
  ghost function Encode(s: Summary): Hash {
    map f | f in {Sentinel} + set c | c in s :: ChannelField(c) ::
      if f.Sentinel? then Entry(0, 0) else Entry(s[f.id].unread, s[f.id].mentions)
  }

  method WriteCache(s: Summary) returns (h: Hash)
    ensures h == Encode(s)
  {
    hide Encode;
    h := map[Sentinel := Entry(0, 0)];
    var todo := s;
    while todo != map[]
      invariant todo.Keys <= s.Keys && forall c :: c in todo ==> todo[c] == s[c]
      invariant forall f :: f in h <==> f == Sentinel || (f.ChannelField? && f.id in s && f.id !in todo)
      invariant h[Sentinel] == Entry(0, 0)
      invariant forall c :: c in s && c !in todo ==> h[ChannelField(c)] == Entry(s[c].unread, s[c].mentions)
      decreases |todo|
    {
      var c :| c in todo;
      h := h[ChannelField(c) := Entry(todo[c].unread, todo[c].mentions)];
      todo := todo - {c};
    }
    EncodeIs(h, s);
  }

  lemma EncodeIs(h: Hash, s: Summary)
    requires forall f :: f in h <==> f == Sentinel || (f.ChannelField? && f.id in s)
    requires h[Sentinel] == Entry(0, 0)
    requires forall c :: c in s ==> h[ChannelField(c)] == Entry(s[c].unread, s[c].mentions)
    ensures h == Encode(s)
  {
    assert h.Keys == Encode(s).Keys;
  }

  /** The channel fields of a hash. */
  function ChannelsOf(h: Hash): map<Id, Entry> {
    map f | f in h && f.ChannelField? :: f.id := h[f]
  }

  function EntryUnreads(m: map<Id, Entry>): map<Id, nat> { map c | c in m :: m[c].unread }
  function EntryMentions(m: map<Id, Entry>): map<Id, nat> { map c | c in m :: m[c].mentions }

  ghost function HashTotal(h: Hash): Total {
    var mentions := Sum(EntryMentions(ChannelsOf(h)));
    Total(Sum(EntryUnreads(ChannelsOf(h))), mentions > 0, mentions)
  }

  lemma TakeField(h: Hash, f: Field)
    requires f in h
    ensures f == Sentinel ==> ChannelsOf(h - {f}) == ChannelsOf(h)
    ensures f != Sentinel ==>
      && Sum(EntryUnreads(ChannelsOf(h))) == h[f].unread + Sum(EntryUnreads(ChannelsOf(h - {f})))
      && Sum(EntryMentions(ChannelsOf(h))) == h[f].mentions + Sum(EntryMentions(ChannelsOf(h - {f})))
  {
    hide Sum;
    if f != Sentinel {
      var m := ChannelsOf(h);
      assert f.id in m && m[f.id] == h[f];
      SumTake(EntryUnreads(m), f.id);
      SumTake(EntryMentions(m), f.id);
      assert ChannelsOf(h - {f}) == m - {f.id};
      assert EntryUnreads(m) - {f.id} == EntryUnreads(m - {f.id});
      assert EntryMentions(m) - {f.id} == EntryMentions(m - {f.id});
    }
  }

  /** `foldCache`: skips the sentinel and reads `hasMention` off the count. */
  method FoldCache(h: Hash) returns (t: Total)
    ensures t == HashTotal(h)
  {
    hide Sum, ChannelsOf, EntryUnreads, EntryMentions;
    var unread, mentions := 0, 0;
    var todo := h;
    while todo != map[]
      invariant forall f :: f in todo ==> f in h && todo[f] == h[f]
      invariant Sum(EntryUnreads(ChannelsOf(h))) == unread + Sum(EntryUnreads(ChannelsOf(todo)))
      invariant Sum(EntryMentions(ChannelsOf(h))) == mentions + Sum(EntryMentions(ChannelsOf(todo)))
      decreases |todo|
    {
      var f :| f in todo;
      TakeField(todo, f);
      if f != Sentinel {
        unread := unread + todo[f].unread;
        mentions := mentions + todo[f].mentions;
      }
      todo := todo - {f};
    }
    NothingToSum();
    t := Total(unread, mentions > 0, mentions);
  }

  lemma EncodedChannels(s: Summary)
    ensures EntryUnreads(ChannelsOf(Encode(s))) == UnreadsOf(s)
    ensures EntryMentions(ChannelsOf(Encode(s))) == MentionsOf(s)
  {
    var h := Encode(s);
    assert ChannelsOf(h).Keys == s.Keys by {
      forall c | c in s ensures c in ChannelsOf(h) {
        assert ChannelField(c) in h;
      }
    }
  }

  /** Encoding then folding gives the total of the summary, `hasMention` included and the
      sentinel left out, because a summary has a mention exactly when it counts one. */
  lemma CacheFoldsToTotal(db: Db, workspace: Id, user: Id)
    ensures HashTotal(Encode(Summarize(db, workspace, user))) == TotalOf(Summarize(db, workspace, user))
  {
    var s := Summarize(db, workspace, user);
    EncodedChannels(s);
    SumPositive(MentionsOf(s));
    MentionsAgree(db, workspace, user);
  }

  lemma MentionsAgree(db: Db, workspace: Id, user: Id)
    ensures var s := Summarize(db, workspace, user);
      AnyMention(s) <==> exists c :: c in MentionsOf(s) && MentionsOf(s)[c] > 0
  {
    var s := Summarize(db, workspace, user);
    forall c | c in s ensures s[c].hasMention <==> MentionsOf(s)[c] > 0 {
      assert s[c].mentions == |MentionsFor(db, user, c)|;
    }
    assert MentionsOf(s).Keys == s.Keys;
  }
}
