/** The two sliding windows that limit how many upload urls a user is given. Times are
    milliseconds; a window holds the time of every grant it still remembers. */
module RateLimit {
  import opened Wrappers

  type Time = nat

  const LONG_MS := 900_000
  const LONG_MAX := 60
  const SHORT_MS := 60_000
  const SHORT_MAX := 10

  // ---- times ------------------------------------------------------------------------------------

  /** The times later than `b`, in order. */
  function After(s: seq<Time>, b: int): seq<Time> {
    if s == [] then []
    else if s[|s| - 1] > b then After(s[..|s| - 1], b) + [s[|s| - 1]]
    else After(s[..|s| - 1], b)
  }

  /** How many of the times lie in (from, to]. */
  function Inside(s: seq<Time>, from: int, to: int): nat {
    if s == [] then 0
    else Inside(s[..|s| - 1], from, to) + if from < s[|s| - 1] <= to then 1 else 0
  }

  predicate NoLater(s: seq<Time>, t: int) {
    forall i :: 0 <= i < |s| ==> s[i] <= t
  }

  function Repeat(at: Time, count: nat): seq<Time> { seq(count, _ => at) }

  lemma AfterSnoc(s: seq<Time>, x: Time, b: int)
    ensures After(s + [x], b) == if x > b then After(s, b) + [x] else After(s, b)
  {
    assert (s + [x])[..|s|] == s;
  }

  lemma InsideSnoc(s: seq<Time>, x: Time, from: int, to: int)
    ensures Inside(s + [x], from, to) == Inside(s, from, to) + if from < x <= to then 1 else 0
  {
    assert (s + [x])[..|s|] == s;
  }

  lemma {:induction false} AfterAppend(s: seq<Time>, t: seq<Time>, b: int)
    ensures After(s + t, b) == After(s, b) + After(t, b)
    decreases |t|
  {
    if t == [] {
      assert s + t == s;
    } else {
      var init, x := t[..|t| - 1], t[|t| - 1];
      assert t == init + [x] && s + t == (s + init) + [x];
      AfterAppend(s, init, b);
      AfterSnoc(s + init, x, b);
      AfterSnoc(init, x, b);
    }
  }

  lemma {:induction false} AfterAfter(s: seq<Time>, b: int, c: int)
    requires b <= c
    ensures After(After(s, b), c) == After(s, c)
    decreases |s|
  {
    if s != [] {
      var init, x := s[..|s| - 1], s[|s| - 1];
      AfterAfter(init, b, c);
      if x > b {
        AfterSnoc(After(init, b), x, c);
      }
    }
  }

  lemma {:induction false} AfterRepeat(at: Time, count: nat, b: int)
    ensures After(Repeat(at, count), b) == if at > b then Repeat(at, count) else []
    decreases count
  {
    if count == 0 {
      assert Repeat(at, 0) == [];
    } else {
      assert Repeat(at, count) == Repeat(at, count - 1) + [at];
      AfterRepeat(at, count - 1, b);
      AfterSnoc(Repeat(at, count - 1), at, b);
    }
  }

  lemma {:induction false} AfterNone(s: seq<Time>, b: int)
    requires NoLater(s, b)
    ensures After(s, b) == []
    decreases |s|
  {
    if s != [] {
      AfterNone(s[..|s| - 1], b);
    }
  }

  lemma {:induction false} AfterNoLater(s: seq<Time>, b: int, t: int)
    requires NoLater(s, t)
    ensures NoLater(After(s, b), t)
    decreases |s|
  {
    if s != [] {
      AfterNoLater(s[..|s| - 1], b, t);
    }
  }

  lemma {:induction false} InsideAfter(s: seq<Time>, from: int, to: int)
    ensures Inside(s, from, to) <= |After(s, from)|
    ensures NoLater(s, to) ==> Inside(s, from, to) == |After(s, from)|
    decreases |s|
  {
    if s != [] {
      InsideAfter(s[..|s| - 1], from, to);
    }
  }

  lemma {:induction false} InsideAppend(s: seq<Time>, at: Time, count: nat, from: int, to: int)
    ensures Inside(s + Repeat(at, count), from, to) == Inside(s, from, to) + if from < at <= to then count else 0
    decreases count
  {
    if count == 0 {
      assert s + Repeat(at, 0) == s;
    } else {
      assert s + Repeat(at, count) == (s + Repeat(at, count - 1)) + [at];
      InsideAppend(s, at, count - 1, from, to);
      InsideSnoc(s + Repeat(at, count - 1), at, from, to);
    }
  }

  // ---- windows ------------------------------------------------------------------------------------

  /** A sorted set of grant times under a key that the store drops at `expiresAt`. */
  datatype Window = Window(times: seq<Time>, expiresAt: Time)

  const EMPTY := Window([], 0)

  /** What the store still has at `now`. */
  function Kept(w: Window, now: Time): Window {
    if now >= w.expiresAt then EMPTY else w
  }

  /** Dropping what is `width` old or older. */
  function Pruned(w: Window, now: Time, width: nat): Window {
    var kept := Kept(w, now);
    kept.(times := After(kept.times, now - width))
  }

  /** Remembering `count` grants scored with the time of the peek, and pushing the expiry of the
      key from the time of the commit. */
  function Committed(w: Window, score: Time, count: nat, at: Time, width: nat): Window {
    Window(w.times + Repeat(score, count), at + width)
  }

  /** The windows of one user. */
  datatype Windows = Windows(long: Window, short: Window)

  datatype Call = Call(at: Time, count: nat)

  function Peeked(s: Windows, now: Time): Windows {
    Windows(Pruned(s.long, now, LONG_MS), Pruned(s.short, now, SHORT_MS))
  }

  predicate Room(peeked: Windows, count: nat) {
    |peeked.long.times| + count <= LONG_MAX && |peeked.short.times| + count <= SHORT_MAX
  }

  predicate Granted(s: Windows, c: Call) { Room(Peeked(s, c.at), c.count) }

  function CommittedBoth(s: Windows, c: Call, at: Time): Windows {
    Windows(Committed(s.long, c.at, c.count, at, LONG_MS), Committed(s.short, c.at, c.count, at, SHORT_MS))
  }

  /** One check-then-add call. */
  function Step(s: Windows, c: Call): Windows {
    if Granted(s, c) then CommittedBoth(Peeked(s, c.at), c, c.at) else Peeked(s, c.at)
  }

  const NO_WINDOWS := Windows(EMPTY, EMPTY)

  datatype LimitError = UploadRateLimit

  class UploadRateLimit {
    var long: Window
    var short: Window

    constructor ()
      ensures State() == NO_WINDOWS
    {
      long, short := EMPTY, EMPTY;
    }

    ghost function State(): Windows
      reads this
    {
      Windows(long, short)
    }

    /** Prunes both windows and looks whether there is room. */
    method Peek(count: nat, now: Time) returns (room: bool)
      modifies this
      ensures State() == Peeked(old(State()), now) && room == Room(State(), count)
    {
      long := Pruned(long, now, LONG_MS);
      short := Pruned(short, now, SHORT_MS);
      room := |long.times| + count <= LONG_MAX && |short.times| + count <= SHORT_MAX;
    }

    /** Adds the grants of a call that peeked at `score`; the store runs it at `at`. */
    method Commit(count: nat, score: Time, at: Time)
      modifies this
      ensures State() == CommittedBoth(old(State()), Call(score, count), at)
    {
      ghost var peeked := State();
      var i := 0;
      while i < count
        invariant i <= count
        invariant long == peeked.long.(times := peeked.long.times + Repeat(score, i))
        invariant short == peeked.short.(times := peeked.short.times + Repeat(score, i))
      {
        assert Repeat(score, i + 1) == Repeat(score, i) + [score];
        long := long.(times := long.times + [score]);
        short := short.(times := short.times + [score]);
        i := i + 1;
      }
      long := long.(expiresAt := at + LONG_MS);
      short := short.(expiresAt := at + SHORT_MS);
    }

    /** `enforceWindows`, nothing coming between its peek and its commit. */
    method EnforceWindows(count: nat, now: Time) returns (r: Result<(), LimitError>)
      modifies this
      ensures State() == Step(old(State()), Call(now, count))
      ensures r.Ok? <==> Granted(old(State()), Call(now, count))
    {
      var room := Peek(count, now);
      if !room {
        return Err(LimitError.UploadRateLimit);
      }
      Commit(count, now, now);
      r := Ok(());
    }
  }

  // ---- runs ------------------------------------------------------------------------------------------

  function Run(s: Windows, calls: seq<Call>): Windows {
    if calls == [] then s else Step(Run(s, calls[..|calls| - 1]), calls[|calls| - 1])
  }

  /** Every grant a run has given, whatever the windows have forgotten. */
  function Log(calls: seq<Call>): seq<Time> {
    if calls == [] then []
    else
      var init, c := calls[..|calls| - 1], calls[|calls| - 1];
      Log(init) + if Granted(Run(NO_WINDOWS, init), c) then Repeat(c.at, c.count) else []
  }

  /** The clock does not run backwards. */
  predicate Ordered(calls: seq<Call>) {
    forall i, j :: 0 <= i <= j < |calls| ==> calls[i].at <= calls[j].at
  }

  predicate NotBefore(calls: seq<Call>, t: Time) {
    forall i :: 0 <= i < |calls| ==> calls[i].at <= t
  }

  /** A window remembers a log at every time from `now` on. */
  ghost predicate Remembers(w: Window, log: seq<Time>, now: Time, width: nat) {
    && NoLater(w.times, w.expiresAt - width)
    && forall b: int :: b >= now - width ==> After(w.times, b) == After(log, b)
  }

  /** Expiry of the key takes nothing with it that is still inside the window. */
  lemma ExpiryIsSilent(w: Window, log: seq<Time>, now: Time, width: nat)
    requires Remembers(w, log, now, width)
    ensures Pruned(w, now, width).times == After(w.times, now - width) == After(log, now - width)
  {
    if now >= w.expiresAt {
      AfterNone(w.times, now - width);
    }
  }

  lemma PruningRemembers(w: Window, log: seq<Time>, now: Time, width: nat)
    requires Remembers(w, log, now, width)
    ensures Remembers(Pruned(w, now, width), log, now, width)
  {
    hide After;
    var pruned := Pruned(w, now, width);
    ExpiryIsSilent(w, log, now, width);
    forall b: int | b >= now - width ensures After(pruned.times, b) == After(log, b) {
      AfterAfter(log, now - width, b);
    }
    if now < w.expiresAt {
      AfterNoLater(w.times, now - width, w.expiresAt - width);
    } else {
      AfterNone([], now - width);
    }
  }

  lemma CommittingRemembers(w: Window, log: seq<Time>, score: Time, count: nat, at: Time, width: nat)
    requires Remembers(w, log, at, width) && NoLater(w.times, at) && score <= at
    ensures Remembers(Committed(w, score, count, at, width), log + Repeat(score, count), at, width)
    ensures NoLater(Committed(w, score, count, at, width).times, at)
  {
    hide After;
    forall b: int | b >= at - width
      ensures After(w.times + Repeat(score, count), b) == After(log + Repeat(score, count), b)
    {
      AfterAppend(w.times, Repeat(score, count), b);
      AfterAppend(log, Repeat(score, count), b);
    }
  }

  /** What is remembered stays remembered as time passes. */
  lemma LaterRemembers(w: Window, log: seq<Time>, now: Time, later: Time, width: nat)
    requires Remembers(w, log, now, width) && now <= later
    ensures Remembers(w, log, later, width)
  {
  }

  lemma {:induction false} LogNotAfter(calls: seq<Call>, t: Time)
    requires NotBefore(calls, t)
    ensures NoLater(Log(calls), t)
    decreases |calls|
  {
    hide Granted, Run;
    if calls != [] {
      LogNotAfter(calls[..|calls| - 1], t);
    }
  }

  /** At any time from the last call on, the windows know everything about the log that a
      decision can depend on. */
  lemma {:induction false} RunRemembers(calls: seq<Call>, now: Time)
    requires Ordered(calls) && NotBefore(calls, now)
    ensures Remembers(Run(NO_WINDOWS, calls).long, Log(calls), now, LONG_MS)
    ensures Remembers(Run(NO_WINDOWS, calls).short, Log(calls), now, SHORT_MS)
    decreases |calls|
  {
    hide After, Pruned, Remembers, Room;
    if calls == [] {
      NothingRemembered(now, LONG_MS);
      NothingRemembered(now, SHORT_MS);
    } else {
      var init, c := calls[..|calls| - 1], calls[|calls| - 1];
      RunRemembers(init, c.at);
      var before := Run(NO_WINDOWS, init);
      LogNotAfter(init, c.at);
      CallRemembers(before.long, Log(init), c, LONG_MS, Granted(before, c), now);
      CallRemembers(before.short, Log(init), c, SHORT_MS, Granted(before, c), now);
      assert Log(init) + [] == Log(init);
    }
  }

  lemma NothingRemembered(now: Time, width: nat)
    ensures Remembers(EMPTY, [], now, width)
  {
  }

  lemma CallRemembers(w: Window, log: seq<Time>, c: Call, width: nat, granted: bool, later: Time)
    requires Remembers(w, log, c.at, width) && c.at <= later
    requires NoLater(log, c.at)
    ensures granted ==> Remembers(Committed(Pruned(w, c.at, width), c.at, c.count, c.at, width),
      log + Repeat(c.at, c.count), later, width)
    ensures !granted ==> Remembers(Pruned(w, c.at, width), log, later, width)
  {
    hide After, Remembers;
    var pruned := Pruned(w, c.at, width);
    PruningRemembers(w, log, c.at, width);
    LaterRemembers(pruned, log, c.at, later, width);
    if granted {
      ExpiryIsSilent(w, log, c.at, width);
      AfterNoLater(log, c.at - width, c.at);
      CommittingRemembers(pruned, log, c.at, c.count, c.at, width);
      LaterRemembers(Committed(pruned, c.at, c.count, c.at, width), log + Repeat(c.at, c.count), c.at, later, width);
    }
  }

  /** The windows decide as the whole log would: a call is granted exactly when neither of the
      two windows ending now would hold more than its cap. */
  lemma DecidesByTheLog(calls: seq<Call>, c: Call)
    requires Ordered(calls) && NotBefore(calls, c.at)
    ensures Granted(Run(NO_WINDOWS, calls), c) <==>
      && Inside(Log(calls), c.at - 900_000, c.at) + c.count <= 60
      && Inside(Log(calls), c.at - 60_000, c.at) + c.count <= 10
  {
    hide After, Inside, Remembers, Pruned;
    var s := Run(NO_WINDOWS, calls);
    RunRemembers(calls, c.at);
    ExpiryIsSilent(s.long, Log(calls), c.at, LONG_MS);
    ExpiryIsSilent(s.short, Log(calls), c.at, SHORT_MS);
    LogNotAfter(calls, c.at);
    InsideAfter(Log(calls), c.at - LONG_MS, c.at);
    InsideAfter(Log(calls), c.at - SHORT_MS, c.at);
  }

  /** A grant that fits now fits in every window of its width. */
  lemma GrantFits(log: seq<Time>, c: Call, width: nat, cap: nat, t: int)
    requires NoLater(log, c.at)
    requires Inside(log, c.at - width, c.at) + c.count <= cap
    requires Inside(log, t - width, t) <= cap
    ensures Inside(log + Repeat(c.at, c.count), t - width, t) <= cap
  {
    hide After, Inside;
    if t < c.at {
      InsideAppend(log, c.at, c.count, t - width, t);
    } else {
      InsideAfter(log, c.at - width, c.at);
      InsideAfter(log + Repeat(c.at, c.count), t - width, t);
      AfterAppend(log, Repeat(c.at, c.count), t - width);
      AfterRepeat(c.at, c.count, t - width);
      AfterAfter(log, c.at - width, t - width);
      AfterShorter(After(log, c.at - width), t - width);
    }
  }

  lemma {:induction false} AfterShorter(s: seq<Time>, b: int)
    ensures |After(s, b)| <= |s|
    decreases |s|
  {
    if s != [] {
      AfterShorter(s[..|s| - 1], b);
    }
  }

  /** No window of a minute ever holds more than 10 grants and none of 15 minutes more than 60,
      wherever it ends. */
  lemma {:induction false} WindowsHold(calls: seq<Call>, t: int)
    requires Ordered(calls)
    ensures Inside(Log(calls), t - 900_000, t) <= 60
    ensures Inside(Log(calls), t - 60_000, t) <= 10
    decreases |calls|
  {
    hide Inside, Granted, Run;
    if calls == [] {
      NothingInside(t - LONG_MS, t);
      NothingInside(t - SHORT_MS, t);
    } else {
      var init, c := calls[..|calls| - 1], calls[|calls| - 1];
      WindowsHold(init, t);
      assert Log(init) + [] == Log(init);
      if Granted(Run(NO_WINDOWS, init), c) {
        DecidesByTheLog(init, c);
        LogNotAfter(init, c.at);
        GrantFits(Log(init), c, LONG_MS, LONG_MAX, t);
        GrantFits(Log(init), c, SHORT_MS, SHORT_MAX, t);
      }
    }
  }

  lemma NothingInside(from: int, to: int)
    ensures Inside([], from, to) == 0
  {
  }

  // ---- rejected calls --------------------------------------------------------------------------------

  /** A run without the calls it rejected. */
  function OnlyGranted(calls: seq<Call>): seq<Call> {
    if calls == [] then []
    else
      var init, c := calls[..|calls| - 1], calls[|calls| - 1];
      OnlyGranted(init) + if Granted(Run(NO_WINDOWS, init), c) then [c] else []
  }

  lemma {:induction false} OnlyGrantedOrdered(calls: seq<Call>, t: Time)
    requires Ordered(calls) && NotBefore(calls, t)
    ensures Ordered(OnlyGranted(calls)) && NotBefore(OnlyGranted(calls), t)
    decreases |calls|
  {
    hide Granted, Run;
    if calls != [] {
      var init, c := calls[..|calls| - 1], calls[|calls| - 1];
      OnlyGrantedOrdered(init, c.at);
      assert NotBefore(OnlyGranted(init), t);
    }
  }

  /** Rejected calls leave no trace: leaving them out of a run, the same grants are given, and
      every later call is decided the same. */
  lemma {:induction false} RejectedLeaveNoTrace(calls: seq<Call>, next: Call)
    requires Ordered(calls) && NotBefore(calls, next.at)
    ensures Log(OnlyGranted(calls)) == Log(calls)
    ensures Granted(Run(NO_WINDOWS, OnlyGranted(calls)), next) <==> Granted(Run(NO_WINDOWS, calls), next)
    decreases |calls|
  {
    hide Granted, Run, Inside, Ordered, NotBefore;
    if calls != [] {
      var init, c := calls[..|calls| - 1], calls[|calls| - 1];
      InitOrdered(calls, next.at);
      RejectedLeaveNoTrace(init, c);
      if Granted(Run(NO_WINDOWS, init), c) {
        LogSnoc(OnlyGranted(init), c);
      } else {
        assert OnlyGranted(init) + [] == OnlyGranted(init);
        assert Log(init) + [] == Log(init);
      }
    }
    OnlyGrantedOrdered(calls, next.at);
    DecidesByTheLog(calls, next);
    DecidesByTheLog(OnlyGranted(calls), next);
  }

  lemma InitOrdered(calls: seq<Call>, t: Time)
    requires calls != [] && Ordered(calls) && NotBefore(calls, t)
    ensures Ordered(calls[..|calls| - 1]) && NotBefore(calls[..|calls| - 1], calls[|calls| - 1].at)
  {
  }

  lemma LogSnoc(calls: seq<Call>, c: Call)
    ensures Log(calls + [c]) == Log(calls) + if Granted(Run(NO_WINDOWS, calls), c) then Repeat(c.at, c.count) else []
  {
    assert (calls + [c])[..|calls|] == calls;
  }
}
