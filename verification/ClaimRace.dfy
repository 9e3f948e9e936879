/** Any number of undo calls after one snapshot, one store access at a time: the scripted claim
    in the fast store, the deletion of the durable row that follows it, and the fallback that
    takes the durable row of a caller who found no key. */
module ClaimRace {
  import opened Wrappers
  import opened ReadState
  import opened MarkAll
  import opened UnreadWorld

  type Caller = nat

  datatype Phase =
    | Asked(user: Id, workspace: Id)
    | Claimed(user: Id, workspace: Id, held: Option<Snapshot>)   // the row is still to be deleted
    | Missed(user: Id, workspace: Id)                            // on to the row
    | Answered(result: Option<Snapshot>)

  /** The two copies of the snapshot, and the callers. */
  datatype State = State(key: Option<SnapshotKey>, row: Option<SnapshotRow>, callers: map<Caller, Phase>)

  datatype Event =
    | Ask(c: Caller, user: Id, workspace: Id)
    | ScriptClaim(c: Caller, readable: bool)
    | ClaimFails(c: Caller)      // the fast store is out of reach
    | DeleteRow(c: Caller)
    | DeleteFails(c: Caller)
    | FallBack(c: Caller, now: int)
    | ExpireKey

  predicate IsAsked(s: State, c: Caller) { c in s.callers && s.callers[c].Asked? }
  predicate IsClaimed(s: State, c: Caller) { c in s.callers && s.callers[c].Claimed? }
  predicate IsMissed(s: State, c: Caller) { c in s.callers && s.callers[c].Missed? }

  predicate OwnsKey(s: State, p: Phase)
    requires !p.Answered?
  {
    s.key.Some? && s.key.value.user == p.user && s.key.value.workspace == p.workspace
  }

  predicate OwnsRow(s: State, p: Phase)
    requires !p.Answered?
  {
    s.row.Some? && s.row.value.user == p.user && s.row.value.workspace == p.workspace
  }

  function Next(s: State, e: Event): State {
    match e
    case Ask(c, user, workspace) => if c in s.callers then s else s.(callers := s.callers[c := Asked(user, workspace)])
    case ScriptClaim(c, readable) =>
      if !IsAsked(s, c) then s
      else
        var p := s.callers[c];
        if s.key.None? then s.(callers := s.callers[c := Missed(p.user, p.workspace)])
        else if !OwnsKey(s, p) then s.(callers := s.callers[c := Answered(None)])
        else
          var held := if readable then Some(s.key.value.snapshot) else None;
          s.(key := None, callers := s.callers[c := Claimed(p.user, p.workspace, held)])
    case ClaimFails(c) =>
      if !IsAsked(s, c) then s
      else s.(callers := s.callers[c := Missed(s.callers[c].user, s.callers[c].workspace)])
    case DeleteRow(c) =>
      if !IsClaimed(s, c) then s
      else
        var p := s.callers[c];
        s.(row := if OwnsRow(s, p) then None else s.row, callers := s.callers[c := Answered(p.held)])
    case DeleteFails(c) =>
      if !IsClaimed(s, c) then s else s.(callers := s.callers[c := Answered(s.callers[c].held)])
    case FallBack(c, now) =>
      if !IsMissed(s, c) then s
      else if OwnsRow(s, s.callers[c]) && s.row.value.expiresAt > now then
        s.(row := None, callers := s.callers[c := Answered(Some(s.row.value.snapshot))])
      else s.(callers := s.callers[c := Answered(None)])
    case ExpireKey => s.(key := None)
  }

  function Run(s: State, es: seq<Event>): State {
    if es == [] then s else Next(Run(s, es[..|es| - 1]), es[|es| - 1])
  }

  /** The state before event `k`. */
  function At(s: State, es: seq<Event>, k: nat): State
    requires k <= |es|
  {
    Run(s, es[..k])
  }

  lemma AtNext(s: State, es: seq<Event>, k: nat)
    requires k < |es|
    ensures At(s, es, k + 1) == Next(At(s, es, k), es[k])
  {
    assert es[..k + 1][..k] == es[..k];
  }

  // ---- who gets the snapshot ------------------------------------------------------------------

  predicate ClaimGets(s: State, e: Event) {
    e.ScriptClaim? && IsAsked(s, e.c) && OwnsKey(s, s.callers[e.c])
  }

  predicate FallBackGets(s: State, e: Event) {
    e.FallBack? && IsMissed(s, e.c) && OwnsRow(s, s.callers[e.c]) && s.row.value.expiresAt > e.now
  }

  predicate GetsAt(s: State, es: seq<Event>, k: nat)
    requires k < |es|
  {
    ClaimGets(At(s, es, k), es[k]) || FallBackGets(At(s, es, k), es[k])
  }

  ghost predicate AtMostOnce(s: State, es: seq<Event>) {
    forall i, j :: 0 <= i < j < |es| ==> !(GetsAt(s, es, i) && GetsAt(s, es, j))
  }

  /** Nobody has asked yet, and both copies, where there, are of one owner. */
  predicate Initial(s: State) {
    && s.callers == map[]
    && (s.key.Some? && s.row.Some? ==>
          s.key.value == SnapshotKey(s.row.value.user, s.row.value.workspace, s.row.value.snapshot))
  }

  predicate NoFaults(es: seq<Event>) {
    forall i :: 0 <= i < |es| ==>
      !es[i].ClaimFails? && !es[i].DeleteFails? && (es[i].ScriptClaim? ==> es[i].readable)
  }

  // ---- what stays -----------------------------------------------------------------------------

  lemma {:induction false} GoneStays(s: State, es: seq<Event>, k: nat, n: nat)
    requires k <= n <= |es|
    ensures At(s, es, k).key.None? ==> At(s, es, n).key.None?
    ensures At(s, es, k).row.None? ==> At(s, es, n).row.None?
    decreases n
  {
    hide Run, At;
    if k < n {
      GoneStays(s, es, k, n - 1);
      AtNext(s, es, n - 1);
    }
  }

  /** The copies agree, whoever holds a claim owns the row, and, without faults, a caller is only
      on to the row when the key is gone. */
  predicate Sane(s: State) {
    && (s.key.Some? && s.row.Some? ==>
          s.key.value == SnapshotKey(s.row.value.user, s.row.value.workspace, s.row.value.snapshot))
    && (forall c :: c in s.callers && s.callers[c].Claimed? && s.row.Some? ==>
          s.row.value.user == s.callers[c].user && s.row.value.workspace == s.callers[c].workspace)
    && (forall c :: c in s.callers && s.callers[c].Missed? ==> s.key.None?)
  }

  lemma NextSane(s: State, e: Event)
    requires Sane(s) && !e.ClaimFails?
    ensures Sane(Next(s, e))
  {
  }

  lemma {:induction false} SaneAt(s: State, es: seq<Event>, k: nat)
    requires Initial(s) && NoFaults(es) && k <= |es|
    ensures Sane(At(s, es, k))
    decreases k
  {
    hide Run, Sane, Next;
    if k == 0 {
      InitialSane(s, es);
    } else {
      SaneAt(s, es, k - 1);
      AtNext(s, es, k - 1);
      NextSane(At(s, es, k - 1), es[k - 1]);
    }
  }

  lemma InitialSane(s: State, es: seq<Event>)
    requires Initial(s)
    ensures Sane(At(s, es, 0))
  {
  }

  /** A claim is held until its caller's deletion, after which the row is gone. */
  lemma {:induction false} ClaimHeld(s: State, es: seq<Event>, i: nat, n: nat, c: Caller)
    requires Initial(s) && NoFaults(es) && i < n <= |es| && ClaimGets(At(s, es, i), es[i]) && es[i].c == c
    ensures IsClaimed(At(s, es, n), c) || At(s, es, n).row.None?
    ensures (exists k :: i < k < n && es[k] == DeleteRow(c)) ==> At(s, es, n).row.None?
    decreases n
  {
    hide Run, At, Sane, Initial;
    AtNext(s, es, n - 1);
    if i + 1 < n {
      ClaimHeld(s, es, i, n - 1, c);
      SaneAt(s, es, n - 1);
      ClaimStep(At(s, es, n - 1), es[n - 1], c);
    }
  }

  lemma ClaimStep(s: State, e: Event, c: Caller)
    requires Sane(s) && !e.DeleteFails? && (IsClaimed(s, c) || s.row.None?)
    ensures IsClaimed(Next(s, e), c) || Next(s, e).row.None?
    ensures s.row.None? || e == DeleteRow(c) ==> Next(s, e).row.None?
  {
  }

  /** A caller who comes after the key's expiry is on to the row, and gets it while it lasts. */
  lemma ExpiredGoesOn(s: State, c: Caller, now: int)
    requires IsAsked(s, c)
    ensures var missed := Next(Next(s, ExpireKey), ScriptClaim(c, true));
      && IsMissed(missed, c) && missed.row == s.row
      && (FallBackGets(missed, FallBack(c, now)) <==> OwnsRow(s, s.callers[c]) && s.row.value.expiresAt > now)
  {
  }

  // ---- twice ----------------------------------------------------------------------------------

  /** Each copy is got at most once, so a snapshot is never got three times. */
  lemma EachCopyOnce(s: State, es: seq<Event>, i: nat, j: nat)
    requires i < j < |es|
    ensures !(ClaimGets(At(s, es, i), es[i]) && ClaimGets(At(s, es, j), es[j]))
    ensures !(FallBackGets(At(s, es, i), es[i]) && FallBackGets(At(s, es, j), es[j]))
  {
    hide Run, At;
    AtNext(s, es, i);
    GoneStays(s, es, i + 1, j);
  }

  /** Another caller's fallback takes the row between a caller's claim and that caller's
      deletion of the row. */
  ghost predicate Overtaken(s: State, es: seq<Event>, i: nat, j: nat)
    requires i < j < |es|
  {
    && ClaimGets(At(s, es, i), es[i]) && FallBackGets(At(s, es, j), es[j])
    && es[i].c != es[j].c && forall k :: i < k < j ==> es[k] != DeleteRow(es[i].c)
  }

  /** With both stores up, a snapshot is got at most once under any interleaving of callers and
      key expiry, exactly unless a fallback overtakes a deletion. */
  lemma AtMostOnceIff(s: State, es: seq<Event>)
    requires Initial(s) && NoFaults(es)
    ensures AtMostOnce(s, es) <==> !exists i, j :: 0 <= i < j < |es| && Overtaken(s, es, i, j)
  {
    hide Run, At, ClaimGets, FallBackGets, NoFaults, Initial;
    forall i, j | 0 <= i < j < |es| && GetsAt(s, es, i) && GetsAt(s, es, j) ensures Overtaken(s, es, i, j) {
      TwiceIsOvertaken(s, es, i, j);
    }
    if i, j :| 0 <= i < j < |es| && Overtaken(s, es, i, j) {
      assert GetsAt(s, es, i) && GetsAt(s, es, j);
    }
  }

  lemma TwiceIsOvertaken(s: State, es: seq<Event>, i: nat, j: nat)
    requires Initial(s) && NoFaults(es) && i < j < |es| && GetsAt(s, es, i) && GetsAt(s, es, j)
    ensures Overtaken(s, es, i, j)
  {
    hide Run, At, Sane, Initial, NoFaults;
    EachCopyOnce(s, es, i, j);
    AtNext(s, es, i);
    if ClaimGets(At(s, es, i), es[i]) {
      ClaimHeld(s, es, i, j, es[i].c);
    } else {
      FallBackAfterKey(s, es, i, j);
    }
  }

  /** Once a caller has fallen back there is no key to claim. */
  lemma FallBackAfterKey(s: State, es: seq<Event>, i: nat, j: nat)
    requires Initial(s) && NoFaults(es) && i < j < |es| && FallBackGets(At(s, es, i), es[i])
    ensures !ClaimGets(At(s, es, j), es[j])
  {
    hide Run, At, Initial, NoFaults;
    SaneAt(s, es, i);
    GoneStays(s, es, i, j);
  }

  /** Two calls of the owner, the second one in time between the first one's claim and its
      deletion: both get the snapshot. */
  lemma BothGet(user: Id, workspace: Id, snapshot: Snapshot, expiresAt: int, now: int)
    requires now < expiresAt
    ensures var s := State(Some(SnapshotKey(user, workspace, snapshot)),
      Some(SnapshotRow(user, workspace, snapshot, expiresAt)), map[]);
      var es := [Ask(0, user, workspace), Ask(1, user, workspace), ScriptClaim(0, true), ScriptClaim(1, true),
        FallBack(1, now), DeleteRow(0)];
      Initial(s) && NoFaults(es) && Overtaken(s, es, 2, 4)
      && Run(s, es).callers == map[0 := Answered(Some(snapshot)), 1 := Answered(Some(snapshot))]
  {
    hide Run, Next;
    var row := SnapshotRow(user, workspace, snapshot, expiresAt);
    var s := State(Some(SnapshotKey(user, workspace, snapshot)), Some(row), map[]);
    var es := [Ask(0, user, workspace), Ask(1, user, workspace), ScriptClaim(0, true), ScriptClaim(1, true),
      FallBack(1, now), DeleteRow(0)];
    var asked, claimed := Asked(user, workspace), Claimed(user, workspace, Some(snapshot));
    FirstStates(s, es);
    BothSteps(s, user, workspace, snapshot, row, now);
    assert At(s, es, 2) == s.(callers := map[0 := asked, 1 := asked]);
    assert At(s, es, 4) == State(None, Some(row), map[0 := claimed, 1 := Missed(user, workspace)]);
    assert es[..6] == es;
  }

  lemma FirstStates(s: State, es: seq<Event>)
    requires |es| == 6
    ensures At(s, es, 2) == Next(Next(s, es[0]), es[1])
    ensures At(s, es, 4) == Next(Next(At(s, es, 2), es[2]), es[3])
    ensures At(s, es, 6) == Next(Next(At(s, es, 4), es[4]), es[5])
  {
    hide Next;
    assert At(s, es, 0) == s;
    AtNext(s, es, 0);
    AtNext(s, es, 1);
    AtNext(s, es, 2);
    AtNext(s, es, 3);
    AtNext(s, es, 4);
    AtNext(s, es, 5);
  }

  lemma BothSteps(s: State, user: Id, workspace: Id, snapshot: Snapshot, row: SnapshotRow, now: int)
    requires s == State(Some(SnapshotKey(user, workspace, snapshot)), Some(row), map[])
    requires row.user == user && row.workspace == workspace && row.snapshot == snapshot && now < row.expiresAt
    ensures var asked, claimed := Asked(user, workspace), Claimed(user, workspace, Some(snapshot));
      var both := s.(callers := map[0 := asked, 1 := asked]);
      var gone := State(None, Some(row), map[0 := claimed, 1 := Missed(user, workspace)]);
      && Next(Next(s, Ask(0, user, workspace)), Ask(1, user, workspace)) == both
      && Next(Next(both, ScriptClaim(0, true)), ScriptClaim(1, true)) == gone
      && Next(Next(gone, FallBack(1, now)), DeleteRow(0)).callers ==
        map[0 := Answered(Some(snapshot)), 1 := Answered(Some(snapshot))]
  {
  }

  // ---- the claim as one step ------------------------------------------------------------------

  /** What the stores hold of one snapshot. */
  function Copies(w: World, id: Id): State {
    State(if id in w.keys then Some(w.keys[id]) else None, if id in w.rows then Some(w.rows[id]) else None, map[])
  }

  /** Left alone, a caller's accesses, failing as `f` says, get and take what the claim as one
      step does. */
  lemma UndisturbedClaim(w: World, user: Id, workspace: Id, id: Id, now: int, f: Faults, c: Caller)
    ensures var claim := ClaimSnapshot(w, user, workspace, id, now, f);
      var es := [Ask(c, user, workspace), if f.claimFails then ClaimFails(c) else ScriptClaim(c, !f.unreadable),
                 if f.deleteFails then DeleteFails(c) else DeleteRow(c), FallBack(c, now)];
      var after := Run(Copies(w, id), es);
      after.callers == map[c := Answered(claim.snapshot)]
      && after.key == Copies(claim.world, id).key && after.row == Copies(claim.world, id).row
  {
    hide Run, Next;
    var s, asked := Copies(w, id), Asked(user, workspace);
    var claim := if f.claimFails then ClaimFails(c) else ScriptClaim(c, !f.unreadable);
    var delete := if f.deleteFails then DeleteFails(c) else DeleteRow(c);
    RunFour(s, Ask(c, user, workspace), claim, delete, FallBack(c, now));
    AskAlone(s, user, workspace, c);
    if id in w.keys && !f.claimFails {
      KeyPath(s.(callers := map[c := asked]), asked, !f.unreadable, delete, c, now);
    } else {
      RowPath(s.(callers := map[c := asked]), asked, claim, delete, c, now);
    }
  }

  lemma RunFour(s: State, a: Event, b: Event, c: Event, d: Event)
    ensures Run(s, [a, b, c, d]) == Next(Next(Next(Next(s, a), b), c), d)
  {
    hide Next;
    var es := [a, b, c, d];
    assert At(s, es, 0) == s && es[..4] == es;
    AtNext(s, es, 0);
    AtNext(s, es, 1);
    AtNext(s, es, 2);
    AtNext(s, es, 3);
  }

  lemma AskAlone(s: State, user: Id, workspace: Id, c: Caller)
    requires s.callers == map[]
    ensures Next(s, Ask(c, user, workspace)) == s.(callers := map[c := Asked(user, workspace)])
  {
  }

  /** The script answers, with or without the snapshot. */
  lemma KeyPath(s: State, asked: Phase, readable: bool, delete: Event, c: Caller, now: int)
    requires asked.Asked? && s.callers == map[c := asked] && s.key.Some? && delete in [DeleteFails(c), DeleteRow(c)]
    ensures Next(Next(Next(s, ScriptClaim(c, readable)), delete), FallBack(c, now)) ==
      if !OwnsKey(s, asked) then s.(callers := map[c := Answered(None)])
      else
        var row := if delete.DeleteRow? && OwnsRow(s, asked) then None else s.row;
        State(None, row, map[c := Answered(if readable then Some(s.key.value.snapshot) else None)])
  {
  }

  /** There is no key, or the script is out of reach. */
  lemma RowPath(s: State, asked: Phase, claim: Event, delete: Event, c: Caller, now: int)
    requires asked.Asked? && s.callers == map[c := asked] && delete in [DeleteFails(c), DeleteRow(c)]
    requires claim == ClaimFails(c) || (claim.ScriptClaim? && claim.c == c && s.key.None?)
    ensures Next(Next(Next(s, claim), delete), FallBack(c, now)) ==
      if OwnsRow(s, asked) && s.row.value.expiresAt > now then
        s.(row := None, callers := map[c := Answered(Some(s.row.value.snapshot))])
      else s.(callers := map[c := Answered(None)])
  {
  }
}
