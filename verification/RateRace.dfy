/** Any number of callers of the upload limit, their peeks and commits interleaved. */
module RateRace {
  import opened RateLimit

  type Caller = nat

  /** A call that found room, and what had been granted when it looked. */
  datatype Pending = Pending(call: Call, seen: seq<Time>)

  /** `log` is history: every grant there has been. */
  datatype System = System(windows: Windows, pending: map<Caller, Pending>, log: seq<Time>)

  datatype Event = Peek(p: Caller, call: Call) | Commit(p: Caller, at: Time)

  function TimeOf(e: Event): Time {
    match e
    case Peek(_, call) => call.at
    case Commit(_, at) => at
  }

  function Next(s: System, e: Event): System {
    match e
    case Peek(p, call) =>
      if p in s.pending then s
      else
        var peeked := Peeked(s.windows, call.at);
        System(peeked, if Room(peeked, call.count) then s.pending[p := Pending(call, s.log)] else s.pending, s.log)
    case Commit(p, at) =>
      if p !in s.pending then s
      else
        var call := s.pending[p].call;
        System(CommittedBoth(s.windows, call, at), s.pending - {p}, s.log + Repeat(call.at, call.count))
  }

  const START := System(NO_WINDOWS, map[], [])

  /** A call whose peek and commit have nothing between them changes the windows as the call as a
      whole does, is granted as it is, and is over. */
  lemma PromptIsWhole(s: System, p: Caller, call: Call)
    requires p !in s.pending
    ensures var after := Next(Next(s, Peek(p, call)), Commit(p, call.at));
      && after.windows == Step(s.windows, call) && after.pending == s.pending
      && after.log == s.log + Repeat(call.at, if Granted(s.windows, call) then call.count else 0)
  {
    hide Room, Peeked, CommittedBoth;
    NoneRepeated(call.at);
  }

  lemma NoneRepeated(at: Time)
    ensures Repeat(at, 0) == []
  {
  }

  function Run(es: seq<Event>): System {
    if es == [] then START else Next(Run(es[..|es| - 1]), es[|es| - 1])
  }

  /** The clock does not run backwards. */
  predicate InOrder(es: seq<Event>) {
    forall i, j :: 0 <= i <= j < |es| ==> TimeOf(es[i]) <= TimeOf(es[j])
  }

  predicate Until(es: seq<Event>, now: Time) {
    forall i :: 0 <= i < |es| ==> TimeOf(es[i]) <= now
  }

  /** How many grants the window ending at `t` holds. */
  function InWindow(log: seq<Time>, width: nat, t: int): nat { Inside(log, t - width, t) }

  ghost predicate Holds(log: seq<Time>, width: nat, cap: nat) {
    forall t: int :: InWindow(log, width, t) <= cap
  }

  // ---- what stays of the windows --------------------------------------------------------------

  /** Whatever the interleaving, each window knows what a decision can depend on, no grant is
      scored in the future, and a waiting call fitted when it looked. */
  ghost predicate Sound(s: System, now: Time) {
    && Remembers(s.windows.long, s.log, now, LONG_MS) && Remembers(s.windows.short, s.log, now, SHORT_MS)
    && NoLater(s.windows.long.times, now) && NoLater(s.windows.short.times, now) && NoLater(s.log, now)
    && forall p :: p in s.pending ==> Waits(s.pending[p], now)
  }

  ghost predicate Waits(w: Pending, now: Time) {
    && w.call.at <= now && NoLater(w.seen, w.call.at)
    && InWindow(w.seen, LONG_MS, w.call.at) + w.call.count <= LONG_MAX
    && InWindow(w.seen, SHORT_MS, w.call.at) + w.call.count <= SHORT_MAX
  }

  lemma LaterSound(s: System, now: Time, later: Time)
    requires Sound(s, now) && now <= later
    ensures Sound(s, later)
  {
    hide Remembers;
    LaterRemembers(s.windows.long, s.log, now, later, LONG_MS);
    LaterRemembers(s.windows.short, s.log, now, later, SHORT_MS);
  }

  /** A peek decides as the log at that moment would. */
  lemma PeekDecides(s: System, call: Call)
    requires Sound(s, call.at)
    ensures Room(Peeked(s.windows, call.at), call.count) <==>
      && InWindow(s.log, LONG_MS, call.at) + call.count <= LONG_MAX
      && InWindow(s.log, SHORT_MS, call.at) + call.count <= SHORT_MAX
  {
    hide Remembers, After, Inside, Pruned;
    ExpiryIsSilent(s.windows.long, s.log, call.at, LONG_MS);
    ExpiryIsSilent(s.windows.short, s.log, call.at, SHORT_MS);
    InsideAfter(s.log, call.at - LONG_MS, call.at);
    InsideAfter(s.log, call.at - SHORT_MS, call.at);
  }

  lemma PrunedNoLater(w: Window, now: Time, width: nat)
    requires NoLater(w.times, now)
    ensures NoLater(Pruned(w, now, width).times, now)
  {
    AfterNoLater(Kept(w, now).times, now - width, now);
  }

  lemma PeekSound(s: System, p: Caller, call: Call)
    requires Sound(s, call.at)
    ensures Sound(Next(s, Peek(p, call)), call.at)
  {
    hide Remembers, Pruned, Room, Inside;
    PruningRemembers(s.windows.long, s.log, call.at, LONG_MS);
    PruningRemembers(s.windows.short, s.log, call.at, SHORT_MS);
    PrunedNoLater(s.windows.long, call.at, LONG_MS);
    PrunedNoLater(s.windows.short, call.at, SHORT_MS);
    PeekDecides(s, call);
  }

  lemma CommitSound(s: System, p: Caller, at: Time)
    requires Sound(s, at)
    ensures Sound(Next(s, Commit(p, at)), at)
  {
    hide Remembers, Inside;
    if p in s.pending {
      var call := s.pending[p].call;
      CommittingRemembers(s.windows.long, s.log, call.at, call.count, at, LONG_MS);
      CommittingRemembers(s.windows.short, s.log, call.at, call.count, at, SHORT_MS);
    }
  }

  lemma {:induction false} RunSound(es: seq<Event>, now: Time)
    requires InOrder(es) && Until(es, now)
    ensures Sound(Run(es), now)
    decreases |es|
  {
    hide Sound, Next;
    if es == [] {
      StartSound(now);
    } else {
      var init, e := es[..|es| - 1], es[|es| - 1];
      RunSound(init, TimeOf(e));
      if e.Peek? {
        PeekSound(Run(init), e.p, e.call);
      } else {
        CommitSound(Run(init), e.p, e.at);
      }
      LaterSound(Run(es), TimeOf(e), now);
    }
  }

  lemma StartSound(now: Time)
    ensures Sound(START, now)
  {
  }

  // ---- when a commit passes a cap -------------------------------------------------------------

  /** A commit finds room in every window that its grants fall into. */
  ghost predicate Fits(log: seq<Time>, call: Call, width: nat, cap: nat) {
    forall t: int :: call.at <= t < call.at + width ==> InWindow(log, width, t) + call.count <= cap
  }

  /** A commit passes a cap in some window exactly when a window from its own score on already
      holds too much. */
  lemma CommitHoldsIff(log: seq<Time>, call: Call, width: nat, cap: nat)
    ensures Holds(log + Repeat(call.at, call.count), width, cap) <==>
      Holds(log, width, cap) && Fits(log, call, width, cap)
  {
    hide Inside;
    var after := log + Repeat(call.at, call.count);
    forall t: int
      ensures InWindow(after, width, t) == InWindow(log, width, t) + if t - width < call.at <= t then call.count else 0
    {
      InsideAppend(log, call.at, call.count, t - width, t);
    }
    if Holds(after, width, cap) {
      forall t: int ensures InWindow(log, width, t) <= cap {
        assert InWindow(after, width, t) <= cap;
      }
      forall t: int | call.at <= t < call.at + width ensures InWindow(log, width, t) + call.count <= cap {
        assert InWindow(after, width, t) <= cap;
      }
    }
  }

  /** Event `k` is a commit of a waiting call. */
  predicate Commits(es: seq<Event>, k: nat)
    requires k < |es|
  {
    es[k].Commit? && es[k].p in Run(es[..k]).pending
  }

  ghost predicate FitsAt(es: seq<Event>, k: nat, width: nat, cap: nat)
    requires k < |es| && Commits(es, k)
  {
    Fits(Run(es[..k]).log, Run(es[..k]).pending[es[k].p].call, width, cap)
  }

  ghost predicate AllFit(es: seq<Event>, width: nat, cap: nat) {
    forall k :: 0 <= k < |es| && Commits(es, k) ==> FitsAt(es, k, width, cap)
  }

  /** Under any interleaving no window ever holds more than its cap, exactly unless some commit
      found a window that its grants fall into too full. */
  lemma {:induction false} WindowsHoldIff(es: seq<Event>, width: nat, cap: nat)
    ensures Holds(Run(es).log, width, cap) <==> AllFit(es, width, cap)
    decreases |es|
  {
    hide Fits, Holds, Peeked, Room, CommittedBoth;
    if es == [] {
      NothingHolds(width, cap);
    } else {
      var n := |es| - 1;
      var init, e := es[..n], es[n];
      WindowsHoldIff(init, width, cap);
      AllFitSnoc(es, width, cap);
      if Commits(es, n) {
        CommitHoldsIff(Run(init).log, Run(init).pending[e.p].call, width, cap);
      }
    }
  }

  lemma NothingHolds(width: nat, cap: nat)
    ensures Holds([], width, cap)
  {
  }

  lemma AllFitSnoc(es: seq<Event>, width: nat, cap: nat)
    requires es != []
    ensures var n := |es| - 1;
      AllFit(es, width, cap) <==> AllFit(es[..n], width, cap) && (Commits(es, n) ==> FitsAt(es, n, width, cap))
  {
    hide Fits, Run, Commits, FitsAt;
    var n := |es| - 1;
    forall k | 0 <= k < n
      ensures Commits(es[..n], k) <==> Commits(es, k)
      ensures Commits(es, k) ==> (FitsAt(es[..n], k, width, cap) <==> FitsAt(es, k, width, cap))
    {
      SameBefore(es, n, k, width, cap);
    }
    if AllFit(es[..n], width, cap) && (Commits(es, n) ==> FitsAt(es, n, width, cap)) {
      forall k | 0 <= k < |es| && Commits(es, k) ensures FitsAt(es, k, width, cap) {
        if k < n {
          assert Commits(es[..n], k);
        }
      }
    }
  }

  lemma SameBefore(es: seq<Event>, n: nat, k: nat, width: nat, cap: nat)
    requires k < n <= |es|
    ensures Commits(es[..n], k) <==> Commits(es, k)
    ensures Commits(es, k) ==> (FitsAt(es[..n], k, width, cap) <==> FitsAt(es, k, width, cap))
  {
    hide Fits, Run;
    assert es[..n][..k] == es[..k] && es[..n][k] == es[k];
  }

  // ---- undisturbed commits --------------------------------------------------------------------

  /** Nothing was granted between the peek and the commit. */
  ghost predicate Undisturbed(es: seq<Event>) {
    forall k :: 0 <= k < |es| && Commits(es, k) ==> Run(es[..k]).pending[es[k].p].seen == Run(es[..k]).log
  }

  /** What fits now fits in every later window that the grants fall into. */
  lemma FitsFromNow(log: seq<Time>, call: Call, width: nat, cap: nat)
    requires NoLater(log, call.at) && InWindow(log, width, call.at) + call.count <= cap
    ensures Fits(log, call, width, cap)
  {
    hide After, Inside;
    forall t: int | call.at <= t < call.at + width ensures InWindow(log, width, t) + call.count <= cap {
      InsideAfter(log, call.at - width, call.at);
      InsideAfter(log, t - width, t);
      AfterAfter(log, call.at - width, t - width);
      AfterShorter(After(log, call.at - width), t - width);
    }
  }

  /** The caps hold in every interleaving in which nothing is granted between a caller's peek and
      its commit, however the peeks interleave: every (t - 60 s, t] holds at most 10 grants and
      every (t - 900 s, t] at most 60. */
  lemma WindowsHoldUndisturbed(es: seq<Event>, t: int)
    requires InOrder(es) && Undisturbed(es)
    ensures InWindow(Run(es).log, 900_000, t) <= 60
    ensures InWindow(Run(es).log, 60_000, t) <= 10
  {
    hide Run, Fits, InWindow;
    forall k | 0 <= k < |es| && Commits(es, k)
      ensures FitsAt(es, k, LONG_MS, LONG_MAX) && FitsAt(es, k, SHORT_MS, SHORT_MAX)
    {
      UndisturbedFits(es, k);
    }
    WindowsHoldIff(es, LONG_MS, LONG_MAX);
    WindowsHoldIff(es, SHORT_MS, SHORT_MAX);
  }

  lemma UndisturbedFits(es: seq<Event>, k: nat)
    requires InOrder(es) && k < |es| && Commits(es, k)
    requires Run(es[..k]).pending[es[k].p].seen == Run(es[..k]).log
    ensures FitsAt(es, k, LONG_MS, LONG_MAX) && FitsAt(es, k, SHORT_MS, SHORT_MAX)
  {
    hide Run, Fits, InWindow, Remembers;
    RunSound(es[..k], TimeOf(es[k]));
    var s := Run(es[..k]);
    assert Waits(s.pending[es[k].p], TimeOf(es[k]));
    FitsFromNow(s.log, s.pending[es[k].p].call, LONG_MS, LONG_MAX);
    FitsFromNow(s.log, s.pending[es[k].p].call, SHORT_MS, SHORT_MAX);
  }

  /** Two callers look at the empty windows before either commits: each is let through for the
      whole cap, and the minute ends up holding twice that. */
  lemma TwoPassTogether()
    ensures var es := [Peek(0, Call(0, 10)), Peek(1, Call(0, 10)), Commit(0, 0), Commit(1, 0)];
      InOrder(es) && InWindow(Run(es).log, SHORT_MS, 0) == 20 > SHORT_MAX
  {
    var call := Call(0, 10);
    var es := [Peek(0, call), Peek(1, call), Commit(0, 0), Commit(1, 0)];
    assert es[..4] == es && es[..3] == [Peek(0, call), Peek(1, call), Commit(0, 0)];
    assert es[..3][..2] == [Peek(0, call), Peek(1, call)] && es[..2][..1] == [Peek(0, call)] && es[..1][..0] == [];
    TwoSteps();
    InsideAppend([], 0, 10, -SHORT_MS, 0);
    InsideAppend([] + Repeat(0, 10), 0, 10, -SHORT_MS, 0);
  }

  lemma TwoSteps()
    ensures var call := Call(0, 10);
      var one := Run([Peek(0, call)]);
      var two := Run([Peek(0, call), Peek(1, call)]);
      && one == START.(pending := map[0 := Pending(call, [])])
      && two == START.(pending := map[0 := Pending(call, []), 1 := Pending(call, [])])
  {
    var call := Call(0, 10);
    assert [Peek(0, call)][..0] == [] && [Peek(0, call), Peek(1, call)][..1] == [Peek(0, call)];
    assert Peeked(NO_WINDOWS, 0) == NO_WINDOWS;
    assert Room(NO_WINDOWS, 10);
  }
}
