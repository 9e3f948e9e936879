/** The order of the unreads view and its keyset pagination. */
module UnreadPages {
  import opened Wrappers
  import opened ReadState
  import opened Totals

  const PREVIEW_DEFAULT_LIMIT := 20
  const PREVIEW_MAX_LIMIT := 50

  /** What an unread channel is ordered by; the same key is the page cursor. */
  datatype OrderKey = OrderKey(hasMention: bool, lastAt: Option<int>, channel: Id)

  /** `unreadOrderCmp` */
  function Compare(a: OrderKey, b: OrderKey): int {
    if a.hasMention != b.hasMention then (if a.hasMention then -1 else 1)
    else if a.lastAt != b.lastAt then
      if a.lastAt.None? then 1
      else if b.lastAt.None? then -1
      else b.lastAt.value - a.lastAt.value
    else if a.channel < b.channel then 1
    else if a.channel > b.channel then -1
    else 0
  }

  predicate Precedes(a: OrderKey, b: OrderKey) { Compare(a, b) < 0 }

  /** The comparator is a strict total order on distinct channels: mentioned channels first,
      then the most recently active, then the greater id. */
  lemma StrictTotalOrder(a: OrderKey, b: OrderKey, c: OrderKey)
    ensures !Precedes(a, a)
    ensures Precedes(a, b) && Precedes(b, c) ==> Precedes(a, c)
    ensures a.channel != b.channel ==> Precedes(a, b) || Precedes(b, a)
    ensures !(Precedes(a, b) && Precedes(b, a))
    ensures Compare(a, b) == 0 <==> a == b
    ensures Compare(a, b) > 0 <==> Precedes(b, a)
    ensures a.hasMention && !b.hasMention ==> Precedes(a, b)
    ensures a.hasMention == b.hasMention && a.lastAt.Some? && (b.lastAt.None? || b.lastAt.value < a.lastAt.value) ==>
      Precedes(a, b)
    ensures a.hasMention == b.hasMention && a.lastAt == b.lastAt && a.channel > b.channel ==> Precedes(a, b)
  {
  }

  predicate Sorted(s: seq<OrderKey>) {
    forall i, j :: 0 <= i < j < |s| ==> Precedes(s[i], s[j])
  }

  /** A set of channels has only one sorted listing. */
  lemma {:induction false} SortedUnique(a: seq<OrderKey>, b: seq<OrderKey>)
    requires Sorted(a) && Sorted(b) && forall k :: k in a <==> k in b
    ensures a == b
    decreases |a|
  {
    EmptyAgrees(a, b);
    if a != [] && b != [] {
      FirstAgrees(a, b);
      forall k ensures k in a[1..] <==> k in b[1..] {
        TailMembers(a, k);
        TailMembers(b, k);
      }
      SortedUnique(a[1..], b[1..]);
    }
  }

  lemma EmptyAgrees(a: seq<OrderKey>, b: seq<OrderKey>)
    requires forall k :: k in a <==> k in b
    ensures a == [] <==> b == []
  {
    if a != [] { assert a[0] in a; }
    if b != [] { assert b[0] in b; }
  }

  lemma FirstAgrees(a: seq<OrderKey>, b: seq<OrderKey>)
    requires Sorted(a) && Sorted(b) && a != [] && b != [] && forall k :: k in a <==> k in b
    ensures a[0] == b[0]
  {
    assert a[0] in a && b[0] in b;
    var i :| 0 <= i < |b| && b[i] == a[0];
    var j :| 0 <= j < |a| && a[j] == b[0];
    StrictTotalOrder(a[0], b[0], a[0]);
  }

  lemma TailMembers(a: seq<OrderKey>, k: OrderKey)
    requires Sorted(a) && a != []
    ensures k in a[1..] <==> k in a && k != a[0]
  {
    StrictTotalOrder(a[0], a[0], a[0]);
    if k in a[1..] {
      var i :| 0 <= i < |a[1..]| && a[1..][i] == k;
      assert a[i + 1] == k && Precedes(a[0], a[i + 1]);
    }
    if k in a && k != a[0] {
      var i :| 0 <= i < |a| && a[i] == k;
      assert a[1..][i - 1] == k;
    }
  }

  // ---- pages -------------------------------------------------------------------------------------

  /** `summary.filter((s) => isAfterUnreadCursor(s, after))` */
  function AfterCursor(s: seq<OrderKey>, after: OrderKey): seq<OrderKey> {
    if s == [] then []
    else (if Precedes(after, s[0]) then [s[0]] else []) + AfterCursor(s[1..], after)
  }

  function Remaining(s: seq<OrderKey>, after: Option<OrderKey>): seq<OrderKey> {
    if after.Some? then AfterCursor(s, after.value) else s
  }

  function Capped(limit: Option<int>): (n: nat)
    ensures limit.None? ==> n == 20
    ensures limit.Some? && 1 <= limit.value <= 50 ==> n == limit.value
    ensures limit.Some? && limit.value < 1 ==> n == 1
    ensures limit.Some? && limit.value > 50 ==> n == 50
  {
    var wanted := if limit.Some? then limit.value else PREVIEW_DEFAULT_LIMIT;
    var least := if wanted < PREVIEW_MAX_LIMIT then wanted else PREVIEW_MAX_LIMIT;
    if least > 1 then least else 1
  }

  datatype Page = Page(items: seq<OrderKey>, next: Option<OrderKey>)

  /** One page of `previewUnreads` over a sorted summary. */
  function PageOf(s: seq<OrderKey>, after: Option<OrderKey>, limit: Option<int>): Page {
    var filtered := Remaining(s, after);
    var capped := Capped(limit);
    if |filtered| > capped then Page(filtered[..capped], Some(filtered[capped - 1])) else Page(filtered, None)
  }

  /** In a sorted listing the keys after a cursor are a suffix, whatever the cursor. */
  lemma {:induction false} AfterIsSuffix(s: seq<OrderKey>, after: OrderKey)
    requires Sorted(s)
    ensures |AfterCursor(s, after)| <= |s|
    ensures AfterCursor(s, after) == s[|s| - |AfterCursor(s, after)|..]
    ensures forall k :: k in s && Precedes(after, k) <==> k in AfterCursor(s, after)
  {
    if s != [] {
      AfterIsSuffix(s[1..], after);
      assert forall k :: k in s <==> k == s[0] || k in s[1..];
      if Precedes(after, s[0]) {
        forall k | k in s[1..] ensures Precedes(after, k) {
          var i :| 0 <= i < |s[1..]| && s[1..][i] == k;
          assert s[i + 1] == k;
          StrictTotalOrder(after, s[0], k);
        }
        AllAfter(s[1..], after);
      }
    }
  }

  lemma {:induction false} AllAfter(s: seq<OrderKey>, after: OrderKey)
    requires forall k :: k in s ==> Precedes(after, k)
    ensures AfterCursor(s, after) == s
  {
    if s != [] {
      AllAfter(s[1..], after);
    }
  }

  /** Going on from the last key of a page leaves exactly what the page left. */
  lemma NextLeavesRest(s: seq<OrderKey>, k: nat)
    requires Sorted(s) && k < |s|
    ensures AfterCursor(s, s[k]) == s[k + 1..]
  {
    AfterIsSuffix(s, s[k]);
    RemainingDistinct(s, None);
    var rest := AfterCursor(s, s[k]);
    var from := |s| - |rest|;
    if from <= k {
      NotInSuffix(s, k, from);
      assert false;
    } else if k + 1 < from {
      NotInSuffix(s, k + 1, from);
      assert false;
    }
  }

  /** A sorted listing repeats nothing. */
  lemma NotInSuffix(s: seq<OrderKey>, k: nat, from: nat)
    requires Sorted(s) && k < |s| && from <= |s|
    ensures s[k] in s[from..] <==> from <= k
  {
    if from <= k {
      assert s[from..][k - from] == s[k];
    }
    if s[k] in s[from..] {
      var i :| 0 <= i < |s[from..]| && s[from..][i] == s[k];
      StrictTotalOrder(s[k], s[k], s[k]);
      assert s[from + i] == s[k];
    }
  }

  /** All pages reached by following the cursors from `after`. */
  function Walk(s: seq<OrderKey>, after: Option<OrderKey>, limit: Option<int>): seq<Page>
    requires Sorted(s)
    decreases |Remaining(s, after)|
  {
    var page := PageOf(s, after, limit);
    if page.next.None? then [page]
    else
      WalkShrinks(s, after, limit);
      [page] + Walk(s, page.next, limit)
  }

  lemma WalkShrinks(s: seq<OrderKey>, after: Option<OrderKey>, limit: Option<int>)
    requires Sorted(s) && PageOf(s, after, limit).next.Some?
    ensures Remaining(s, PageOf(s, after, limit).next) == Remaining(s, after)[Capped(limit)..]
    ensures |Remaining(s, PageOf(s, after, limit).next)| < |Remaining(s, after)|
  {
    hide Precedes;
    var filtered := Remaining(s, after);
    var capped := Capped(limit);
    var from := |s| - |filtered|;
    if after.Some? { AfterIsSuffix(s, after.value); }
    assert filtered == s[from..];
    assert filtered[capped - 1] == s[from + capped - 1];
    NextLeavesRest(s, from + capped - 1);
    assert s[from + capped..] == filtered[capped..];
  }

  function ItemsOf(pages: seq<Page>): seq<OrderKey> {
    if pages == [] then [] else pages[0].items + ItemsOf(pages[1..])
  }

  lemma ItemsCons(page: Page, rest: seq<Page>)
    ensures ItemsOf([page] + rest) == page.items + ItemsOf(rest)
  {
    assert ([page] + rest)[1..] == rest;
  }

  /** A page and what it leaves. */
  lemma PageSplits(s: seq<OrderKey>, after: Option<OrderKey>, limit: Option<int>)
    requires Sorted(s)
    ensures var page := PageOf(s, after, limit);
      && |page.items| <= Capped(limit)
      && (page.next.Some? <==> |Remaining(s, after)| > Capped(limit))
      && (page.next.Some? ==> |page.items| == Capped(limit) && page.next.value == page.items[|page.items| - 1])
      && (page.next.None? ==> page.items == Remaining(s, after))
      && (page.next.Some? ==> page.items + Remaining(s, page.next) == Remaining(s, after))
  {
    hide AfterCursor, Precedes, Sorted;
    if PageOf(s, after, limit).next.Some? {
      WalkShrinks(s, after, limit);
    }
  }

  /** Following the cursors from any point visits what remains, in order, on pages within the
      limit, and stops. */
  lemma {:induction false} WalkVisitsAll(s: seq<OrderKey>, after: Option<OrderKey>, limit: Option<int>)
    requires Sorted(s)
    ensures ItemsOf(Walk(s, after, limit)) == Remaining(s, after)
    ensures forall p :: p in Walk(s, after, limit) ==> |p.items| <= Capped(limit)
    decreases |Remaining(s, after)|
  {
    hide Remaining, Capped, Sorted, PageOf;
    var page := PageOf(s, after, limit);
    PageSplits(s, after, limit);
    if page.next.Some? {
      WalkShrinks(s, after, limit);
      WalkVisitsAll(s, page.next, limit);
      ItemsCons(page, Walk(s, page.next, limit));
    } else {
      ItemsCons(page, []);
      assert page.items + [] == page.items;
    }
  }

  /** From the start, everything listed is visited exactly once. */
  lemma ListedOnce(s: seq<OrderKey>, limit: Option<int>)
    requires Sorted(s)
    ensures ItemsOf(Walk(s, None, limit)) == s
    ensures forall i, j :: 0 <= i < j < |s| ==> s[i] != s[j]
  {
    WalkVisitsAll(s, None, limit);
    RemainingDistinct(s, None);
  }

  lemma RemainingDistinct(s: seq<OrderKey>, after: Option<OrderKey>)
    requires Sorted(s)
    ensures forall i, j :: 0 <= i < j < |Remaining(s, after)| ==> Remaining(s, after)[i] != Remaining(s, after)[j]
  {
    var rest := Remaining(s, after);
    if after.Some? { AfterIsSuffix(s, after.value); }
    var from := |s| - |rest|;
    forall i, j | 0 <= i < j < |rest| ensures rest[i] != rest[j] {
      assert rest[i] == s[from + i] && rest[j] == s[from + j];
      StrictTotalOrder(s[from + i], s[from + j], s[from + i]);
    }
  }

  // ---- what is listed ----------------------------------------------------------------------------

  function Insert(s: seq<OrderKey>, k: OrderKey): seq<OrderKey> {
    if s == [] || Precedes(k, s[0]) then [k] + s else [s[0]] + Insert(s[1..], k)
  }

  lemma {:induction false} InsertSorted(s: seq<OrderKey>, k: OrderKey)
    requires Sorted(s) && forall x :: x in s ==> x.channel != k.channel
    ensures Sorted(Insert(s, k)) && forall x :: x in Insert(s, k) <==> x == k || x in s
  {
    if s != [] && !Precedes(k, s[0]) {
      assert s[0] in s;
      StrictTotalOrder(k, s[0], k);
      InsertSorted(s[1..], k);
      assert forall x :: x in s <==> x == s[0] || x in s[1..];
      forall x | x in s[1..] ensures Precedes(s[0], x) {
        var i :| 0 <= i < |s[1..]| && s[1..][i] == x;
        assert s[i + 1] == x;
      }
      ConsSorted(s[0], Insert(s[1..], k));
    } else if s != [] {
      forall x | x in s ensures Precedes(k, x) {
        var i :| 0 <= i < |s| && s[i] == x;
        StrictTotalOrder(k, s[0], x);
      }
      ConsSorted(k, s);
    }
  }

  lemma ConsSorted(k: OrderKey, s: seq<OrderKey>)
    requires Sorted(s) && forall x :: x in s ==> Precedes(k, x)
    ensures Sorted([k] + s)
  {
    hide Precedes;
    var all := [k] + s;
    forall i, j | 0 <= i < j < |all| ensures Precedes(all[i], all[j]) {
      assert all[j] == s[j - 1] && s[j - 1] in s;
      if i > 0 { assert all[i] == s[i - 1]; }
    }
  }

  ghost predicate Lists(s: seq<OrderKey>, keys: set<OrderKey>) {
    Sorted(s) && forall k :: k in s <==> k in keys
  }

  /** Distinct channels have a sorted listing. */
  lemma {:induction false} ListingExists(keys: set<OrderKey>)
    requires forall a, b :: a in keys && b in keys && a.channel == b.channel ==> a == b
    ensures exists s :: Lists(s, keys)
    decreases |keys|
  {
    if keys == {} {
      assert Lists([], keys);
    } else {
      var k :| k in keys;
      ListingExists(keys - {k});
      var s :| Lists(s, keys - {k});
      InsertSorted(s, k);
      assert Lists(Insert(s, k), keys);
    }
  }

  ghost function KeyOf(db: Db, user: Id, c: Id): OrderKey {
    OrderKey(SummaryOf(db, user, c).hasMention, SummaryOf(db, user, c).lastAt, c)
  }

  /** The summarised channels with something unread. */
  ghost function UnreadKeys(db: Db, workspace: Id, user: Id): set<OrderKey> {
    set c | c in Summarize(db, workspace, user) && Summarize(db, workspace, user)[c].unread > 0 :: KeyOf(db, user, c)
  }

  /** The filtered summary, sorted. */
  ghost function UnreadListing(db: Db, workspace: Id, user: Id): (s: seq<OrderKey>)
    ensures Lists(s, UnreadKeys(db, workspace, user))
  {
    ListingExists(UnreadKeys(db, workspace, user));
    var s :| Lists(s, UnreadKeys(db, workspace, user));
    s
  }

  /** From the start, the pages list every channel that is visible, not archived and has something
      unread, each of them once, in order, with its mention flag and latest time, and no other. */
  lemma EveryChannelOnce(db: Db, workspace: Id, user: Id, limit: Option<int>)
    ensures var items := ItemsOf(Walk(UnreadListing(db, workspace, user), None, limit));
      && Sorted(items)
      && (forall i, j :: 0 <= i < j < |items| ==> items[i].channel != items[j].channel)
      && (forall c :: (exists i :: 0 <= i < |items| && items[i] == KeyOf(db, user, c)) <==>
            c in SummaryChannels(db, workspace, user) && Unread(db, user, c) != {})
      && (forall i :: 0 <= i < |items| ==> items[i] == KeyOf(db, user, items[i].channel))
      && (forall i :: 0 <= i < |items| ==>
            var unread := RootsAfter(db, items[i].channel, CursorOf(db, user, items[i].channel));
            && unread != {} && (items[i].hasMention <==> Mentioning(db, unread, user) != {})
            && items[i].lastAt.Some? && forall m :: m in unread ==> db.messages[m].at <= items[i].lastAt.value)
  {
    hide Sorted, SummaryOf, Unread, SummaryChannels, Walk, Precedes;
    var s := UnreadListing(db, workspace, user);
    ListedOnce(s, limit);
    UnreadIsListed(db, workspace, user);
    forall i, j | 0 <= i < j < |s| ensures s[i].channel != s[j].channel {
      assert s[i] in s && s[j] in s;
    }
    forall i | 0 <= i < |s| ensures s[i] == KeyOf(db, user, s[i].channel) {
      assert s[i] in s;
    }
    forall i | 0 <= i < |s|
      ensures var unread := RootsAfter(db, s[i].channel, CursorOf(db, user, s[i].channel));
        && unread != {} && (s[i].hasMention <==> Mentioning(db, unread, user) != {})
        && s[i].lastAt.Some? && forall m :: m in unread ==> db.messages[m].at <= s[i].lastAt.value
    {
      assert s[i] in s && s[i] == KeyOf(db, user, s[i].channel);
      RowMeans(db, user, s[i].channel);
      UnreadSpelled(db, user, s[i].channel);
    }
    forall c ensures (exists i :: 0 <= i < |s| && s[i] == KeyOf(db, user, c)) <==> KeyOf(db, user, c) in s {
    }
  }

  lemma UnreadIsListed(db: Db, workspace: Id, user: Id)
    ensures forall c :: KeyOf(db, user, c) in UnreadKeys(db, workspace, user) <==>
      c in SummaryChannels(db, workspace, user) && Unread(db, user, c) != {}
    ensures forall k :: k in UnreadKeys(db, workspace, user) ==> k == KeyOf(db, user, k.channel)
  {
    hide SummaryChannels;
    forall c ensures KeyOf(db, user, c).channel == c && SummaryOf(db, user, c).unread == |Unread(db, user, c)| {
    }
  }
}
