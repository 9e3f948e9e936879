/** The friend cap, which only a new request asks about. */
module FriendCap {
  import opened Wrappers
  import opened Sets
  import opened Friends

  predicate Concerns(r: Row, user: Id) { r.requester == user || r.addressee == user }

  /** The operation turns the pending row `id` into a friendship: its addressee accepts it, or
      asks its requester back. */
  predicate AcceptsRow(rows: Rows, op: Op, id: RowId) {
    && id in rows && rows[id].status == Pending
    && (op == Accept(rows[id].addressee, id)
        || (op.Request? && op.me == rows[id].addressee && op.target == Some(rows[id].requester)))
  }

  function FriendsOf(rows: Rows, user: Id): nat { |AcceptedOf(rows, user)| }

  /** The operation makes a friend for a user who is at the cap. */
  ghost predicate PassesCap(rows: Rows, op: Op, user: Id) {
    FriendsOf(rows, user) == FRIEND_CAP && exists id :: AcceptsRow(rows, op, id) && Concerns(rows[id], user)
  }

  lemma OneMoreFriend(rows: Rows, id: RowId, user: Id)
    requires id in rows && rows[id].status != Accepted
    ensures FriendsOf(rows[id := rows[id].(status := Accepted)], user) ==
      FriendsOf(rows, user) + if Concerns(rows[id], user) then 1 else 0
  {
    var after := rows[id := rows[id].(status := Accepted)];
    assert AcceptedOf(after, user) == AcceptedOf(rows, user) + if Concerns(rows[id], user) then {id} else {};
  }

  lemma NoMoreFriends(rows: Rows, after: Rows, user: Id)
    requires forall i :: i in after && after[i].status == Accepted ==> i in rows && rows[i] == after[i]
    ensures FriendsOf(after, user) <= FriendsOf(rows, user)
  {
    SubsetSize(AcceptedOf(after, user), AcceptedOf(rows, user));
  }

  /** An operation that turns a row into a friendship does just that. */
  lemma AcceptingStep(rows: Rows, op: Op, id: RowId)
    requires OneAPair(rows) && AcceptsRow(rows, op, id)
    ensures Step(rows, op).rows == rows[id := rows[id].(status := Accepted)]
  {
    hide Relate;
    if op.Request? {
      RelateIs(rows, id, op.me, op.target.value);
    }
  }

  /** Any other operation makes nobody a friend. */
  lemma OtherStep(rows: Rows, op: Op, user: Id)
    requires OneAPair(rows) && forall id :: id in rows ==> !AcceptsRow(rows, op, id)
    ensures FriendsOf(Step(rows, op).rows, user) <= FriendsOf(rows, user)
  {
    hide FriendsOf, AcceptedOf, OneAPair;
    var after := Step(rows, op).rows;
    if op.Request? && op.target.Some? && FindRow(rows, op.me, op.target.value).Some? {
      assert !AcceptsRow(rows, op, FindRow(rows, op.me, op.target.value).value);
    } else if op.Accept? && op.row in rows {
      assert !AcceptsRow(rows, op, op.row);
    }
    NoMoreFriends(rows, after, user);
  }

  /** A user within the cap stays within it exactly unless, being at the cap, the operation makes
      a pending row of theirs a friendship, by its addressee's accepting or asking back. */
  lemma CapKeptIff(rows: Rows, op: Op, user: Id)
    requires OneAPair(rows) && FriendsOf(rows, user) <= FRIEND_CAP
    ensures FriendsOf(Step(rows, op).rows, user) <= FRIEND_CAP <==> !PassesCap(rows, op, user)
  {
    hide Step, FriendsOf, OneAPair;
    if id :| AcceptsRow(rows, op, id) {
      AcceptingStep(rows, op, id);
      OneMoreFriend(rows, id, user);
      forall other | AcceptsRow(rows, op, other) ensures Concerns(rows[other], user) <==> Concerns(rows[id], user) {
        SameUsers(rows, op, id, other);
      }
    } else {
      OtherStep(rows, op, user);
    }
  }

  lemma SameUsers(rows: Rows, op: Op, a: RowId, b: RowId)
    requires AcceptsRow(rows, op, a) && AcceptsRow(rows, op, b)
    ensures rows[a].requester == rows[b].requester && rows[a].addressee == rows[b].addressee
  {
  }

  ghost predicate WithinAt(ops: seq<Op>, n: nat, user: Id)
    requires n <= |ops|
  {
    FriendsOf(Run(ops[..n]).rows, user) <= FRIEND_CAP
  }

  ghost predicate PassesAt(ops: seq<Op>, k: nat, user: Id)
    requires k < |ops|
  {
    PassesCap(Run(ops[..k]).rows, ops[k], user)
  }

  lemma PrefixSame(ops: seq<Op>, n: nat, user: Id)
    requires n <= |ops|
    ensures forall k :: 0 <= k <= n ==> (WithinAt(ops[..n], k, user) <==> WithinAt(ops, k, user))
    ensures forall k :: 0 <= k < n ==> (PassesAt(ops[..n], k, user) <==> PassesAt(ops, k, user))
  {
    hide Run, FriendsOf, PassesCap;
    forall k | 0 <= k <= n ensures ops[..n][..k] == ops[..k] {
    }
  }

  lemma LastOp(ops: seq<Op>, user: Id)
    requires ops != [] && AllFresh(ops) && WithinAt(ops, |ops| - 1, user)
    ensures WithinAt(ops, |ops|, user) <==> !PassesAt(ops, |ops| - 1, user)
  {
    hide Step, FriendsOf, PassesCap, OneAPair;
    var n := |ops| - 1;
    assert ops[..n + 1] == ops;
    OneAPairAfter(ops[..n]);
    CapKeptIff(Run(ops[..n]).rows, ops[n], user);
  }

  /** In every run a user is within the cap all the time exactly unless some operation passes
      it. */
  lemma {:induction false} CapInEveryRun(ops: seq<Op>, user: Id)
    requires AllFresh(ops)
    ensures (forall n :: 0 <= n <= |ops| ==> WithinAt(ops, n, user)) <==>
      forall k :: 0 <= k < |ops| ==> !PassesAt(ops, k, user)
    decreases |ops|
  {
    hide WithinAt, PassesAt, Run, FreshId;
    if ops == [] {
      NobodyYet(ops, user);
    } else {
      var n := |ops| - 1;
      CapInEveryRun(ops[..n], user);
      PrefixSame(ops, n, user);
      if WithinAt(ops, n, user) {
        LastOp(ops, user);
      }
    }
  }

  lemma NobodyYet(ops: seq<Op>, user: Id)
    requires ops == []
    ensures WithinAt(ops, 0, user)
  {
    assert AcceptedOf(map[], user) == {};
  }

  // ---- a run that passes it -------------------------------------------------------------------

  /** User 0 asks `n` others, who all accept. */
  function Popular(n: nat): seq<Op> {
    if n == 0 then []
    else Popular(n - 1) + [Request(0, Some(n), Everyone, false, n), Accept(n, n)]
  }

  function FriendRows(n: nat): (r: Rows)
    ensures forall i :: i in r <==> 1 <= i <= n
    ensures forall i :: i in r ==> r[i] == Row(0, i, Accepted)
  {
    if n == 0 then map[] else FriendRows(n - 1)[n := Row(0, n, Accepted)]
  }

  lemma {:induction false} FriendRowsCount(n: nat)
    ensures FriendsOf(FriendRows(n), 0) == n
  {
    hide FriendsOf;
    if n == 0 {
      NoRowsNoFriends();
    } else {
      FriendRowsCount(n - 1);
      NewFriend(FriendRows(n - 1), n);
    }
  }

  lemma NoRowsNoFriends()
    ensures FriendsOf(map[], 0) == 0
  {
    assert AcceptedOf(map[], 0) == {};
  }

  lemma NewFriend(rows: Rows, id: RowId)
    requires id !in rows
    ensures FriendsOf(rows[id := Row(0, id, Accepted)], 0) == FriendsOf(rows, 0) + 1
  {
    assert AcceptedOf(rows[id := Row(0, id, Accepted)], 0) == AcceptedOf(rows, 0) + {id};
  }

  lemma RunSnoc(ops: seq<Op>, op: Op)
    ensures Run(ops + [op]).rows == Step(Run(ops).rows, op).rows
    ensures AllFresh(ops + [op]) <==> AllFresh(ops) && FreshId(Run(ops).rows, op)
  {
    assert (ops + [op])[..|ops|] == ops;
  }

  lemma {:induction false} PopularRuns(n: nat)
    requires n <= FRIEND_CAP
    ensures AllFresh(Popular(n)) && Run(Popular(n)).rows == FriendRows(n)
  {
    hide Step, Run, FriendsOf, AllFresh;
    if n == 0 {
      RunNothing();
    } else {
      PopularRuns(n - 1);
      OneMore(Popular(n - 1), n);
    }
  }

  lemma OneMore(ops: seq<Op>, n: nat)
    requires 0 < n <= FRIEND_CAP && AllFresh(ops) && Run(ops).rows == FriendRows(n - 1)
    ensures var all := ops + [Request(0, Some(n), Everyone, false, n), Accept(n, n)];
      AllFresh(all) && Run(all).rows == FriendRows(n)
  {
    hide Step, Run, FriendsOf, AllFresh;
    var ask, accept := Request(0, Some(n), Everyone, false, n), Accept(n, n);
    var rows := FriendRows(n - 1);
    assert ops + [ask, accept] == (ops + [ask]) + [accept];
    RunSnoc(ops, ask);
    RunSnoc(ops + [ask], accept);
    FriendRowsCount(n - 1);
    Asks(rows, 0, n, n);
    Accepts(rows[n := Row(0, n, Pending)], n);
    var asked: Rows := rows[n := Row(0, n, Pending)];
    assert asked[n := Row(0, n, Accepted)] == rows[n := Row(0, n, Accepted)];
  }

  lemma RunNothing()
    ensures Run([]) == History(map[], []) && AllFresh([])
  {
  }

  lemma Asks(rows: Rows, me: Id, other: Id, id: RowId)
    requires me != other && id !in rows && FriendsOf(rows, me) < FRIEND_CAP
    requires forall i :: i in rows ==> !Between(rows[i], me, other)
    ensures Step(rows, Request(me, Some(other), Everyone, false, id)).rows == rows[id := Row(me, other, Pending)]
  {
  }

  lemma Accepts(rows: Rows, id: RowId)
    requires id in rows && rows[id].status == Pending
    ensures Step(rows, Accept(rows[id].addressee, id)).rows == rows[id := rows[id].(status := Accepted)]
  {
  }

  /** A user with a thousand friends, asked once more, accepts. */
  lemma CapIsPassed()
    ensures exists ops: seq<Op> :: AllFresh(ops) && FriendsOf(Run(ops).rows, 0) == FRIEND_CAP + 1
  {
    hide Step, Run, FriendsOf, FriendRows, AllFresh;
    var n := FRIEND_CAP;
    var ops, ask, accept := Popular(n), Request(n + 1, Some(0), Everyone, false, n + 1), Accept(0, n + 1);
    PopularRuns(n);
    FriendRowsCount(n);
    NoFriendsYet(n);
    Asks(FriendRows(n), n + 1, 0, n + 1);
    RunSnoc(ops, ask);
    RunSnoc(ops + [ask], accept);
    var asked := FriendRows(n)[n + 1 := Row(n + 1, 0, Pending)];
    Accepts(asked, n + 1);
    OneMoreFriend(asked, n + 1, 0);
    PendingIsNoFriend(FriendRows(n), n + 1, n + 1, 0);
    assert FriendsOf(Run((ops + [ask]) + [accept]).rows, 0) == n + 1;
  }

  lemma NoFriendsYet(n: nat)
    ensures FriendsOf(FriendRows(n), n + 1) == 0
  {
    assert AcceptedOf(FriendRows(n), n + 1) == {};
  }

  lemma PendingIsNoFriend(rows: Rows, id: RowId, requester: Id, addressee: Id)
    requires id !in rows
    ensures FriendsOf(rows[id := Row(requester, addressee, Pending)], addressee) == FriendsOf(rows, addressee)
  {
    assert AcceptedOf(rows[id := Row(requester, addressee, Pending)], addressee) == AcceptedOf(rows, addressee);
  }
}
