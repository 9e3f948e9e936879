/** Batch reordering of a workspace's channels: every category gets its own sequence of
    positions 1000, 2000, … in the order of the request. */
module Reorder {
  import opened Wrappers

  type Id = nat

  const STRIDE := 1000

  datatype Channel = Channel(workspace: Option<Id>, deleted: bool, position: int, category: Option<Id>)

  type Channels = map<Id, Channel>

  datatype Item = Item(id: Id, category: Option<Id>)

  datatype ReorderError = ChannelNotFound

  /** The rows that the batch may lock. */
  predicate Locked(channels: Channels, workspace: Id, id: Id) {
    id in channels && channels[id].workspace == Some(workspace) && !channels[id].deleted
  }

  function Applicable(channels: Channels, workspace: Id, items: seq<Item>): (r: seq<Item>)
    ensures forall i :: 0 <= i < |r| ==> Locked(channels, workspace, r[i].id) && r[i] in items
  {
    if items == [] then []
    else
      var rest := Applicable(channels, workspace, items[1..]);
      if Locked(channels, workspace, items[0].id) then [items[0]] + rest else rest
  }

  /** How many of the first `n` items are for a category. */
  function CountIn(items: seq<Item>, category: Option<Id>, n: nat): nat
    requires n <= |items|
  {
    if n == 0 then 0
    else CountIn(items, category, n - 1) + if items[n - 1].category == category then 1 else 0
  }

  function PlaceOf(items: seq<Item>, k: nat): int
    requires k < |items|
  {
    STRIDE * CountIn(items, items[k].category, k + 1)
  }

  /** The rows after the first `n` updates. */
  function Placed(channels: Channels, items: seq<Item>, n: nat): (r: Channels)
    requires n <= |items| && forall i :: 0 <= i < |items| ==> items[i].id in channels
    ensures r.Keys == channels.Keys
  {
    if n == 0 then channels
    else
      var before := Placed(channels, items, n - 1);
      var item := items[n - 1];
      before[item.id := before[item.id].(position := PlaceOf(items, n - 1), category := item.category)]
  }

  lemma NothingPlaced(channels: Channels, items: seq<Item>)
    requires forall i :: 0 <= i < |items| ==> items[i].id in channels
    ensures Placed(channels, items, 0) == channels && forall c :: CountIn(items, c, 0) == 0
  {
  }

  lemma NextPlaced(channels: Channels, items: seq<Item>, k: nat)
    requires k < |items| && forall i :: 0 <= i < |items| ==> items[i].id in channels
    ensures var item, before := items[k], Placed(channels, items, k);
      Placed(channels, items, k + 1) ==
        before[item.id := before[item.id].(position := STRIDE * CountIn(items, item.category, k + 1),
          category := item.category)]
    ensures forall c :: CountIn(items, c, k + 1) == CountIn(items, c, k) + if items[k].category == c then 1 else 0
  {
  }

  class ChannelService {
    var channels: Channels

    /** `reorderChannels` */
    method ReorderChannels(workspace: Id, items: seq<Item>) returns (r: Result<(), ReorderError>)
      modifies this
      ensures var applicable := Applicable(old(channels), workspace, items);
        if applicable == [] then r == Err(ChannelNotFound) && channels == old(channels)
        else r == Ok(()) && channels == Placed(old(channels), applicable, |applicable|)
      ensures r.Ok? ==> forall k: nat | k < |items| && LastOf(items, k, items[k].id)
        && IsLiveIn(old(channels), workspace, items[k].id) ::
          channels[items[k].id] == old(channels)[items[k].id].(
            position := STRIDE * |LockableIn(old(channels), workspace, items, items[k].category, k + 1)|,
            category := items[k].category)
    {
      hide Placed, CountIn, Applicable, LockableIn, LastOf;
      var applicable := SelectApplicable(workspace, items);
      if |applicable| == 0 {
        return Err(ChannelNotFound);
      }
      ghost var before := channels;
      var seqByCategory: map<Option<Id>, nat> := map[];
      NothingPlaced(channels, applicable);
      var k := 0;
      while k < |applicable|
        invariant k <= |applicable| && channels == Placed(before, applicable, k)
        invariant forall c :: CountIn(applicable, c, k) == if c in seqByCategory then seqByCategory[c] else 0
      {
        var item := applicable[k];
        NextPlaced(before, applicable, k);
        var n := (if item.category in seqByCategory then seqByCategory[item.category] else 0) + 1;
        seqByCategory := seqByCategory[item.category := n];
        channels := channels[item.id := channels[item.id].(position := STRIDE * n, category := item.category)];
        k := k + 1;
      }
      r := Ok(());
      forall k: nat | k < |items| && LastOf(items, k, items[k].id) && IsLiveIn(before, workspace, items[k].id)
        ensures channels[items[k].id] == before[items[k].id].(
          position := STRIDE * |LockableIn(before, workspace, items, items[k].category, k + 1)|,
          category := items[k].category)
      {
        RequestPlaces(before, workspace, items, k);
      }
    }

    method SelectApplicable(workspace: Id, items: seq<Item>) returns (applicable: seq<Item>)
      ensures applicable == Applicable(channels, workspace, items)
    {
      applicable := [];
      var k: nat := |items|;
      while k > 0
        invariant k <= |items| && applicable == Applicable(channels, workspace, items[k..])
      {
        k := k - 1;
        assert items[k..][0] == items[k] && items[k..][1..] == items[k + 1..];
        if Locked(channels, workspace, items[k].id) {
          applicable := [items[k]] + applicable;
        }
      }
      assert items[0..] == items;
    }
  }

  // ---- where a channel ends up --------------------------------------------------------------------

  predicate LastOf(items: seq<Item>, k: nat, id: Id) {
    k < |items| && items[k].id == id && forall j :: k < j < |items| ==> items[j].id != id
  }

  /** Updates of other channels leave a channel alone. */
  lemma {:induction false} PlacedElsewhere(channels: Channels, items: seq<Item>, m: nat, n: nat, id: Id)
    requires m <= n <= |items| && id in channels && forall i :: 0 <= i < |items| ==> items[i].id in channels
    requires forall j :: m <= j < n ==> items[j].id != id
    ensures Placed(channels, items, n)[id] == Placed(channels, items, m)[id]
    decreases n
  {
    hide PlaceOf;
    if m < n {
      PlacedElsewhere(channels, items, m, n - 1, id);
    }
  }

  /** An update changes a position and a category, nothing else. */
  lemma {:induction false} PlacedKeepsRest(channels: Channels, items: seq<Item>, n: nat, id: Id)
    requires n <= |items| && id in channels && forall i :: 0 <= i < |items| ==> items[i].id in channels
    ensures Placed(channels, items, n)[id].workspace == channels[id].workspace
    ensures Placed(channels, items, n)[id].deleted == channels[id].deleted
    decreases n
  {
    hide PlaceOf;
    if n > 0 {
      PlacedKeepsRest(channels, items, n - 1, id);
    }
  }

  /** The last item for a channel decides where it ends up. */
  lemma PlacedLast(channels: Channels, items: seq<Item>, k: nat, id: Id)
    requires LastOf(items, k, id) && forall i :: 0 <= i < |items| ==> items[i].id in channels
    ensures Placed(channels, items, |items|)[id] ==
      channels[id].(position := PlaceOf(items, k), category := items[k].category)
  {
    hide PlaceOf;
    PlacedElsewhere(channels, items, k + 1, |items|, id);
    PlacedKeepsRest(channels, items, k, id);
  }

  lemma {:induction false} LastExists(items: seq<Item>, id: Id)
    requires exists i :: 0 <= i < |items| && items[i].id == id
    ensures exists k :: LastOf(items, k, id)
    decreases |items|
  {
    var n := |items| - 1;
    if items[n].id == id {
      assert LastOf(items, n, id);
    } else {
      LastExists(items[..n], id);
      var k :| LastOf(items[..n], k, id);
      assert forall j :: 0 <= j < n ==> items[..n][j] == items[j];
      assert LastOf(items, k, id);
    }
  }

  lemma {:induction false} CountGrows(items: seq<Item>, category: Option<Id>, m: nat, n: nat)
    requires m <= n <= |items|
    ensures CountIn(items, category, m) <= CountIn(items, category, n)
    decreases n
  {
    if m < n {
      CountGrows(items, category, m, n - 1);
    }
  }

  /** Later in a category is further down. */
  lemma PlacesGrow(items: seq<Item>, i: nat, j: nat)
    requires i < j < |items| && items[i].category == items[j].category
    ensures 0 < PlaceOf(items, i) < PlaceOf(items, j)
  {
    CountGrows(items, items[i].category, i + 1, j);
    assert CountIn(items, items[i].category, i + 1) >= 1;
  }

  predicate Listed(applicable: seq<Item>, id: Id) {
    exists i :: 0 <= i < |applicable| && applicable[i].id == id
  }

  /** The listed channels get positive multiples of 1000, and no two of them share one in one
      category, even when ids are repeated. */
  lemma ListedNeverCollide(channels: Channels, items: seq<Item>, a: Id, b: Id)
    requires forall i :: 0 <= i < |items| ==> items[i].id in channels
    requires Listed(items, a) && Listed(items, b) && a != b
    ensures var after := Placed(channels, items, |items|);
      && after[a].position > 0 && after[a].position % STRIDE == 0
      && (after[a].category == after[b].category ==> after[a].position != after[b].position)
  {
    hide PlaceOf, Placed;
    LastExists(items, a);
    LastExists(items, b);
    var i: nat :| LastOf(items, i, a);
    var j: nat :| LastOf(items, j, b);
    PlacedLast(channels, items, i, a);
    PlacedLast(channels, items, j, b);
    PlaceIsMultiple(items, i);
    if items[i].category == items[j].category {
      if i < j {
        PlacesGrow(items, i, j);
      } else {
        PlacesGrow(items, j, i);
      }
    }
  }

  lemma PlaceIsMultiple(items: seq<Item>, k: nat)
    requires k < |items|
    ensures PlaceOf(items, k) > 0 && PlaceOf(items, k) % STRIDE == 0
  {
  }

  /** What is not listed, or not of this workspace, or deleted, stays as it was. */
  lemma OthersUnchanged(channels: Channels, workspace: Id, items: seq<Item>, id: Id)
    requires id in channels
    requires !IsLiveIn(channels, workspace, id) || forall i :: 0 <= i < |items| ==> items[i].id != id
    ensures var applicable := Applicable(channels, workspace, items);
      Placed(channels, applicable, |applicable|)[id] == channels[id]
  {
    hide Placed;
    var applicable := Applicable(channels, workspace, items);
    forall k | 0 <= k < |applicable| ensures applicable[k].id != id {
      var i :| 0 <= i < |items| && items[i] == applicable[k];
    }
    PlacedElsewhere(channels, applicable, 0, |applicable|, id);
    NothingPlaced(channels, applicable);
  }

  /** Only a batch with nothing to place fails. */
  lemma {:induction false} NothingApplicableIff(channels: Channels, workspace: Id, items: seq<Item>)
    ensures Applicable(channels, workspace, items) == [] <==>
      forall i :: 0 <= i < |items| ==> !IsLiveIn(channels, workspace, items[i].id)
    decreases |items|
  {
    if items != [] {
      NothingApplicableIff(channels, workspace, items[1..]);
      assert forall i :: 0 <= i < |items[1..]| ==> items[1..][i] == items[i + 1];
      assert forall i :: 0 < i < |items| ==> items[i] == items[1..][i - 1];
    }
  }

  // ---- distinct ids --------------------------------------------------------------------------------

  predicate DistinctIds(items: seq<Item>) {
    forall i, j :: 0 <= i < j < |items| ==> items[i].id != items[j].id
  }

  /** The ids of a category, in the order of the request. */
  function InCategory(items: seq<Item>, category: Option<Id>): seq<Id> {
    if items == [] then []
    else
      var init, last := items[..|items| - 1], items[|items| - 1];
      if last.category == category then InCategory(init, category) + [last.id] else InCategory(init, category)
  }

  lemma {:induction false} CountPrefix(items: seq<Item>, more: seq<Item>, category: Option<Id>, n: nat)
    requires n <= |items|
    ensures CountIn(items + more, category, n) == CountIn(items, category, n)
    decreases n
  {
    if n > 0 {
      CountPrefix(items, more, category, n - 1);
    }
  }

  lemma {:induction false} CategoryCounts(items: seq<Item>, category: Option<Id>)
    ensures |InCategory(items, category)| == CountIn(items, category, |items|)
    decreases |items|
  {
    if items != [] {
      var n := |items| - 1;
      CategoryCounts(items[..n], category);
      assert items == items[..n] + [items[n]];
      CountPrefix(items[..n], [items[n]], category, n);
    }
  }

  /** The r-th id of a category stands in the request where that category has come r+1 times. */
  lemma {:induction false} CategoryAt(items: seq<Item>, category: Option<Id>, r: nat) returns (k: nat)
    requires r < |InCategory(items, category)|
    ensures k < |items| && items[k].id == InCategory(items, category)[r] && items[k].category == category
    ensures CountIn(items, category, k + 1) == r + 1
    decreases |items|
  {
    var n := |items| - 1;
    var init := items[..n];
    assert items == init + [items[n]];
    CategoryCounts(init, category);
    CountPrefix(init, [items[n]], category, n);
    if r < |InCategory(init, category)| {
      k := CategoryAt(init, category, r);
      CountPrefix(init, [items[n]], category, k + 1);
    } else {
      k := n;
    }
  }

  /** With no id repeated, a category's channels stand at 1000, 2000, … in the order of the
      request, so that sorting by position gives that order back. */
  lemma CategoryInOrder(channels: Channels, items: seq<Item>, category: Option<Id>, r: nat)
    requires DistinctIds(items) && forall i :: 0 <= i < |items| ==> items[i].id in channels
    requires r < |InCategory(items, category)|
    ensures var id := InCategory(items, category)[r];
      && id in channels
      && Placed(channels, items, |items|)[id] == channels[id].(position := STRIDE * (r + 1), category := category)
  {
    hide Placed, InCategory;
    var k := CategoryAt(items, category, r);
    PlacedLast(channels, items, k, items[k].id);
  }

  // ---- the request itself --------------------------------------------------------------------------

  /** A channel of the workspace that is not deleted. */
  predicate IsLiveIn(channels: Channels, workspace: Id, id: Id) {
    id in channels && channels[id].workspace == Some(workspace) && !channels[id].deleted
  }

  /** The items among the first `n` of a request that are for a category and can be locked. */
  function LockableIn(channels: Channels, workspace: Id, items: seq<Item>, category: Option<Id>, n: nat): set<nat>
    requires n <= |items|
  {
    set j | 0 <= j < n && items[j].category == category && IsLiveIn(channels, workspace, items[j].id)
  }

  lemma {:induction false} ApplicableSnoc(channels: Channels, workspace: Id, items: seq<Item>, last: Item)
    ensures Applicable(channels, workspace, items + [last]) ==
      Applicable(channels, workspace, items) + if Locked(channels, workspace, last.id) then [last] else []
    decreases |items|
  {
    if items == [] {
      assert ([] + [last])[1..] == [];
    } else {
      ApplicableSnoc(channels, workspace, items[1..], last);
      assert (items + [last])[1..] == items[1..] + [last];
    }
  }

  lemma LockableKept(channels: Channels, workspace: Id, items: seq<Item>, last: Item, category: Option<Id>, n: nat)
    requires n <= |items|
    ensures LockableIn(channels, workspace, items + [last], category, n)
      == LockableIn(channels, workspace, items, category, n)
  {
    hide Locked;
    assert forall j :: 0 <= j < n ==> (items + [last])[j] == items[j];
  }

  lemma LockedIsLive(channels: Channels, workspace: Id, id: Id)
    ensures Locked(channels, workspace, id) <==> IsLiveIn(channels, workspace, id)
  {
  }

  lemma LockableNext(channels: Channels, workspace: Id, items: seq<Item>, category: Option<Id>, n: nat)
    requires n < |items|
    ensures var before := LockableIn(channels, workspace, items, category, n);
      && n !in before
      && LockableIn(channels, workspace, items, category, n + 1) ==
           before + if Locked(channels, workspace, items[n].id) && items[n].category == category then {n} else {}
  {
    hide IsLiveIn, Locked;
    assert Locked(channels, workspace, items[n].id) <==> IsLiveIn(channels, workspace, items[n].id) by {
      LockedIsLive(channels, workspace, items[n].id);
    }
  }

  lemma LockableSnoc(channels: Channels, workspace: Id, items: seq<Item>, last: Item, category: Option<Id>)
    ensures |LockableIn(channels, workspace, items + [last], category, |items| + 1)| ==
      |LockableIn(channels, workspace, items, category, |items|)|
      + if Locked(channels, workspace, last.id) && last.category == category then 1 else 0
  {
    hide Locked, LockableIn;
    LockableNext(channels, workspace, items + [last], category, |items|);
    LockableKept(channels, workspace, items, last, category, |items|);
  }

  lemma CountSnoc(items: seq<Item>, last: Item, category: Option<Id>)
    ensures CountIn(items + [last], category, |items| + 1) ==
      CountIn(items, category, |items|) + if last.category == category then 1 else 0
  {
    CountPrefix(items, [last], category, |items|);
  }

  lemma {:induction false} AppliedCount(channels: Channels, workspace: Id, items: seq<Item>, category: Option<Id>)
    ensures var applicable := Applicable(channels, workspace, items);
      CountIn(applicable, category, |applicable|) == |LockableIn(channels, workspace, items, category, |items|)|
    decreases |items|
  {
    hide Applicable, LockableIn;
    if items == [] {
      NothingRequested(channels, workspace, category);
    } else {
      var init, last := items[..|items| - 1], items[|items| - 1];
      assert items == init + [last];
      AppliedCount(channels, workspace, init, category);
      ApplicableSnoc(channels, workspace, init, last);
      LockableSnoc(channels, workspace, init, last, category);
      var applied := Applicable(channels, workspace, init);
      CountSnoc(applied, last, category);
      assert applied + [] == applied;
    }
  }

  lemma NothingRequested(channels: Channels, workspace: Id, category: Option<Id>)
    ensures Applicable(channels, workspace, []) == [] && LockableIn(channels, workspace, [], category, 0) == {}
  {
  }

  /** Every item that can be locked is applied, in the order of the request: the items of its
      category that come up to it are those that can be locked. */
  lemma {:induction false} AppliedAt(channels: Channels, workspace: Id, items: seq<Item>, k: nat) returns (m: nat)
    requires k < |items| && Locked(channels, workspace, items[k].id)
    ensures var applicable := Applicable(channels, workspace, items);
      && m < |applicable| && applicable[m] == items[k]
      && CountIn(applicable, items[k].category, m + 1) ==
           |LockableIn(channels, workspace, items, items[k].category, k + 1)|
      && (LastOf(items, k, items[k].id) ==> LastOf(applicable, m, items[k].id))
    decreases |items|
  {
    hide Applicable, LockableIn;
    var n, category := |items| - 1, items[k].category;
    var init, last := items[..n], items[n];
    var applied := Applicable(channels, workspace, init);
    assert items == init + [last];
    ApplicableSnoc(channels, workspace, init, last);
    assert applied + [] == applied;
    if k < n {
      m := AppliedAt(channels, workspace, init, k);
      LockableKept(channels, workspace, init, last, category, k + 1);
      CountPrefix(applied, [last], category, m + 1);
      assert LastOf(items, k, items[k].id) ==> LastOf(init, k, items[k].id) && items[n].id != items[k].id;
    } else {
      m := |applied|;
      AppliedCount(channels, workspace, init, category);
      LockableSnoc(channels, workspace, init, last, category);
      CountSnoc(applied, last, category);
    }
  }

  /** A listed channel that can be locked ends, in the place of its last item, at 1000 times the
      number of its category's items up to that one that can be locked. */
  lemma RequestPlaces(channels: Channels, workspace: Id, items: seq<Item>, k: nat)
    requires k < |items| && LastOf(items, k, items[k].id) && IsLiveIn(channels, workspace, items[k].id)
    ensures var applicable, item := Applicable(channels, workspace, items), items[k];
      Placed(channels, applicable, |applicable|)[item.id] == channels[item.id].(
        position := STRIDE * |LockableIn(channels, workspace, items, item.category, k + 1)|,
        category := item.category)
  {
    hide Placed, CountIn, LockableIn, LastOf;
    var m := AppliedAt(channels, workspace, items, k);
    PlacedLast(channels, Applicable(channels, workspace, items), m, items[k].id);
  }

  /** A channel that the request leaves out can end up sharing a position: the sequence starts
      at 1000 whatever else is in the category. */
  lemma UnlistedMayCollide()
    ensures var channels: Channels := map[1 := Channel(Some(0), false, 1000, None),
      2 := Channel(Some(0), false, 2000, None)];
      Placed(channels, [Item(2, None)], 1)[2].position == Placed(channels, [Item(2, None)], 1)[1].position
  {
    var items := [Item(2, None)];
    assert CountIn(items, None, 1) == CountIn(items, None, 0) + 1;
  }

  /** A listed channel, in the place of its last item, collides with an unlisted one exactly when
      that one already stood there. */
  lemma CollidesIff(channels: Channels, items: seq<Item>, k: nat, other: Id)
    requires k < |items| && LastOf(items, k, items[k].id) && forall i :: 0 <= i < |items| ==> items[i].id in channels
    requires other in channels && !Listed(items, other)
    ensures var after := Placed(channels, items, |items|);
      after[items[k].id].position == after[other].position <==> channels[other].position == PlaceOf(items, k)
  {
    hide Placed, PlaceOf;
    PlacedLast(channels, items, k, items[k].id);
    PlacedElsewhere(channels, items, 0, |items|, other);
    NothingPlaced(channels, items);
  }
}
