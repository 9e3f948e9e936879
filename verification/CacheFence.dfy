/** The total cache of one workspace and user under any interleaving of callers, lock expiry,
    changes and invalidations. A caller's lock token is its own. */
module CacheFence {
  import opened Wrappers

  type Caller = nat

  const WAIT_ATTEMPTS := 3

  /** How far a caller that missed the cache has come. `Captured` holds the summary it read;
      `Waiting` counts how often it has looked again. */
  datatype Phase<T> =
    | Missed | Locked | Captured(summary: T) | Written | Done
    | Waiting(looks: nat)
    | Answered(total: T)

  /** `past` is history: every summary the tables have had. */
  datatype State<T> = State(
    current: T, cache: Option<T>, lock: Option<Caller>, callers: map<Caller, Phase<T>>, past: set<T>)

  datatype Event<T> =
    | TryLock(c: Caller)        // SET NX with the caller's token
    | Summarize(c: Caller)
    | Write(c: Caller)
    | Unlock(c: Caller)         // delete if the token is the caller's
    | Look(c: Caller)           // a waiting caller reads the cache again
    | FallBack(c: Caller)       // it has looked often enough and reads the tables
    | ExpireLock
    | Change(value: T)          // the tables change
    | Invalidate                // the entry is dropped

  function PhaseOf<T>(s: State<T>, c: Caller): Phase<T> {
    if c in s.callers then s.callers[c] else Missed
  }

  function Next<T(==)>(s: State<T>, e: Event<T>): State<T> {
    match e
    case TryLock(c) =>
      if !PhaseOf(s, c).Missed? then s
      else if s.lock.None? then s.(lock := Some(c), callers := s.callers[c := Locked])
      else s.(callers := s.callers[c := Waiting(0)])
    case Summarize(c) =>
      if PhaseOf(s, c).Locked? then s.(callers := s.callers[c := Captured(s.current)]) else s
    case Write(c) =>
      if PhaseOf(s, c).Captured? then
        s.(cache := Some(PhaseOf(s, c).summary), callers := s.callers[c := Written])
      else s
    case Unlock(c) =>
      // a caller releases on success and on failure alike
      if PhaseOf(s, c).Missed? || PhaseOf(s, c).Waiting? || PhaseOf(s, c).Answered? then s
      else s.(lock := if s.lock == Some(c) then None else s.lock, callers := s.callers[c := Done])
    case Look(c) =>
      if !PhaseOf(s, c).Waiting? || PhaseOf(s, c).looks >= WAIT_ATTEMPTS then s
      else if s.cache.Some? then s.(callers := s.callers[c := Answered(s.cache.value)])
      else s.(callers := s.callers[c := Waiting(PhaseOf(s, c).looks + 1)])
    case FallBack(c) =>
      if PhaseOf(s, c).Waiting? && PhaseOf(s, c).looks == WAIT_ATTEMPTS then
        s.(callers := s.callers[c := Answered(s.current)])
      else s
    case ExpireLock => s.(lock := None)
    case Change(v) => s.(current := v, past := s.past + {v})
    case Invalidate => s.(cache := None)
  }

  function Run<T(==)>(s: State<T>, es: seq<Event<T>>): State<T> {
    if es == [] then s else Next(Run(s, es[..|es| - 1]), es[|es| - 1])
  }

  /** The state before event `k`. */
  function At<T(==)>(s: State<T>, es: seq<Event<T>>, k: nat): State<T>
    requires k <= |es|
  {
    Run(s, es[..k])
  }

  lemma AtNext<T>(s: State<T>, es: seq<Event<T>>, k: nat)
    requires k < |es|
    ensures At(s, es, k + 1) == Next(At(s, es, k), es[k])
  {
    assert es[..k + 1][..k] == es[..k];
  }

  lemma AtEnds<T>(s: State<T>, es: seq<Event<T>>)
    ensures At(s, es, 0) == s && At(s, es, |es|) == Run(s, es)
  {
    assert es[..|es|] == es;
  }

  // ---- the lock -------------------------------------------------------------------------------

  /** Nobody else's release, and nobody's attempt to lock, takes a caller's token away: it is
      held until it expires or its caller releases it. */
  lemma {:induction false} TokenHeld<T>(s: State<T>, es: seq<Event<T>>, c: Caller)
    requires s.lock == Some(c)
    requires ExpireLock !in es && Unlock(c) !in es
    ensures Run(s, es).lock == Some(c)
    decreases |es|
  {
    if es != [] {
      assert es[|es| - 1] in es;
      TokenHeld(s, es[..|es| - 1], c);
    }
  }

  predicate Inside<T>(p: Phase<T>) { p.Locked? || p.Captured? || p.Written? }

  /** While no lock expires at most one caller is between locking and releasing. */
  predicate Exclusive<T>(s: State<T>) {
    forall c :: c in s.callers && Inside(s.callers[c]) ==> s.lock == Some(c)
  }

  lemma {:induction false} ExclusiveWithoutExpiry<T>(s: State<T>, es: seq<Event<T>>)
    requires Exclusive(s) && ExpireLock !in es
    ensures Exclusive(Run(s, es))
    decreases |es|
  {
    if es != [] {
      assert es[|es| - 1] in es;
      ExclusiveWithoutExpiry(s, es[..|es| - 1]);
    }
  }

  // ---- answers --------------------------------------------------------------------------------

  /** Whatever is cached, captured or answered was the summary of the tables at some time. */
  predicate Historic<T(==)>(s: State<T>) {
    && s.current in s.past
    && (s.cache.Some? ==> s.cache.value in s.past)
    && forall c :: c in s.callers ==>
         && (s.callers[c].Captured? ==> s.callers[c].summary in s.past)
         && (s.callers[c].Answered? ==> s.callers[c].total in s.past)
  }

  /** Under any interleaving no caller is ever answered a total that the tables never had. */
  lemma {:induction false} AnswersAreHistoric<T>(s: State<T>, es: seq<Event<T>>)
    requires Historic(s)
    ensures Historic(Run(s, es))
    decreases |es|
  {
    if es != [] {
      AnswersAreHistoric(s, es[..|es| - 1]);
    }
  }

  // ---- staleness ------------------------------------------------------------------------------

  /** A cached summary is stale when the tables have moved on. */
  predicate Fresh<T(==)>(s: State<T>) {
    s.cache.Some? ==> s.cache.value == s.current
  }

  /** Every change drops the entry some time after it. */
  predicate Dropping<T>(es: seq<Event<T>>) {
    forall i :: 0 <= i < |es| && es[i].Change? ==> exists k :: i < k < |es| && es[k].Invalidate?
  }

  /** Event `j` writes what its caller captured. */
  predicate Writes<T(==)>(s: State<T>, es: seq<Event<T>>, j: nat)
    requires j < |es|
  {
    es[j].Write? && PhaseOf(At(s, es, j), es[j].c).Captured?
  }

  /** Event `j` writes a summary that the tables no longer have, and nothing after it drops or
      overwrites the entry. */
  ghost predicate LateWriteStands<T>(s: State<T>, es: seq<Event<T>>, j: nat)
    requires j < |es|
  {
    && Writes(s, es, j) && PhaseOf(At(s, es, j), es[j].c).summary != At(s, es, j).current
    && forall k :: j < k < |es| ==> !es[k].Invalidate? && !Writes(s, es, k)
  }

  ghost predicate SomeLateWriteStands<T>(s: State<T>, es: seq<Event<T>>) {
    exists j :: 0 <= j < |es| && LateWriteStands(s, es, j)
  }

  lemma PrefixAt<T>(s: State<T>, es: seq<Event<T>>, n: nat, k: nat)
    requires k <= n <= |es|
    ensures At(s, es[..n], k) == At(s, es, k)
  {
    assert es[..n][..k] == es[..k];
  }

  /** One more event that is neither a change nor an invalidation keeps the late writes that
      stand, unless it is a write itself. */
  lemma StandsSnoc<T>(s: State<T>, es: seq<Event<T>>, e: Event<T>)
    ensures var all := es + [e];
      && At(s, all, |es|) == Run(s, es)
      && (forall j :: 0 <= j < |es| ==> (Writes(s, all, j) <==> Writes(s, es, j)))
      && (forall j :: 0 <= j < |es| ==>
            (LateWriteStands(s, all, j) <==> LateWriteStands(s, es, j) && !e.Invalidate? && !Writes(s, all, |es|)))
  {
    hide Run, Next;
    var all := es + [e];
    assert all[..|es|] == es;
    forall j | 0 <= j < |es| ensures At(s, all, j) == At(s, es, j) && all[j] == es[j] {
      PrefixAt(s, all, |es|, j);
    }
    forall j | 0 <= j < |es| ensures Writes(s, all, j) <==> Writes(s, es, j) {
    }
    forall j | 0 <= j < |es|
      ensures LateWriteStands(s, all, j) <==> LateWriteStands(s, es, j) && !e.Invalidate? && !Writes(s, all, |es|)
    {
      StandsOne(s, es, e, j);
    }
  }

  lemma StandsOne<T>(s: State<T>, es: seq<Event<T>>, e: Event<T>, j: nat)
    requires j < |es|
    requires forall k :: 0 <= k < |es| ==> (Writes(s, es + [e], k) <==> Writes(s, es, k))
    requires At(s, es + [e], j) == At(s, es, j)
    ensures LateWriteStands(s, es + [e], j) <==>
      LateWriteStands(s, es, j) && !e.Invalidate? && !Writes(s, es + [e], |es|)
  {
    hide Writes, At;
    var all := es + [e];
    assert forall k :: 0 <= k < |es| ==> all[k] == es[k];
    assert all[|es|] == e;
  }

  /** When every change drops the entry sooner or later, a run ends stale exactly when some
      caller's late write stands, lock expiry or not. */
  lemma {:induction false} StaleIff<T>(s: State<T>, es: seq<Event<T>>)
    requires Fresh(s) && Dropping(es)
    ensures !Fresh(Run(s, es)) <==> SomeLateWriteStands(s, es)
    decreases |es|
  {
    hide Run, Writes, LateWriteStands;
    if es == [] {
      AtEnds(s, es);
    } else {
      var init, e := es[..|es| - 1], es[|es| - 1];
      assert es == init + [e];
      StandsSnoc(s, init, e);
      RunSnoc(s, init, e);
      if e.Invalidate? {
        NoneStandsAtDrop(s, init, e);
      } else {
        DroppingInit(es);
        StaleIff(s, init);
        LastStands(s, init, e);
      }
    }
  }

  lemma RunSnoc<T>(s: State<T>, es: seq<Event<T>>, e: Event<T>)
    ensures Run(s, es + [e]) == Next(Run(s, es), e)
  {
    assert (es + [e])[..|es|] == es;
  }

  lemma DroppingInit<T>(es: seq<Event<T>>)
    requires es != [] && Dropping(es) && !es[|es| - 1].Invalidate?
    ensures Dropping(es[..|es| - 1])
  {
  }

  lemma NoneStandsAtDrop<T>(s: State<T>, es: seq<Event<T>>, e: Event<T>)
    requires e.Invalidate? && forall j :: 0 <= j < |es| ==> !LateWriteStands(s, es + [e], j)
    ensures !SomeLateWriteStands(s, es + [e])
  {
    hide Run;
    assert (es + [e])[|es|] == e;
  }

  /** The last event either writes, and then stands exactly when it is late, or leaves the entry
      and the tables as they were. */
  lemma LastStands<T>(s: State<T>, es: seq<Event<T>>, e: Event<T>)
    requires !e.Invalidate? && !e.Change?
    requires At(s, es + [e], |es|) == Run(s, es)
    requires forall j :: 0 <= j < |es| ==>
      (LateWriteStands(s, es + [e], j) <==> LateWriteStands(s, es, j) && !e.Invalidate? && !Writes(s, es + [e], |es|))
    requires !Fresh(Run(s, es)) <==> SomeLateWriteStands(s, es)
    ensures !Fresh(Next(Run(s, es), e)) <==> SomeLateWriteStands(s, es + [e])
  {
    hide Run, At;
    var all, here := es + [e], Run(s, es);
    assert all[|es|] == e && |all| == |es| + 1;
    if Writes(s, all, |es|) {
      assert LateWriteStands(s, all, |es|) <==> PhaseOf(here, e.c).summary != here.current;
      assert forall j :: 0 <= j < |es| ==> !LateWriteStands(s, all, j);
    } else {
      assert Next(here, e).cache == here.cache && Next(here, e).current == here.current;
      assert !LateWriteStands(s, all, |es|);
      if SomeLateWriteStands(s, es) {
        var j :| 0 <= j < |es| && LateWriteStands(s, es, j);
        assert LateWriteStands(s, all, j);
      }
    }
  }

  /** Nothing a caller has captured is behind the tables. */
  predicate CapturesFresh<T(==)>(s: State<T>) {
    forall c :: c in s.callers && s.callers[c].Captured? ==> s.callers[c].summary == s.current
  }

  /** A late write has a change that alters the summary between its caller's reading of the
      tables and the write. */
  lemma {:induction false} LateMeansChanged<T>(s: State<T>, es: seq<Event<T>>, j: nat, c: Caller) returns (k: nat)
    requires CapturesFresh(s) && j <= |es|
    requires PhaseOf(At(s, es, j), c).Captured? && PhaseOf(At(s, es, j), c).summary != At(s, es, j).current
    ensures k < j && es[k].Change? && es[k].value != At(s, es, k).current
    ensures PhaseOf(At(s, es, k), c) == PhaseOf(At(s, es, j), c)
    decreases j
  {
    hide Run, At;
    if j == 0 {
      AtEnds(s, es);
      assert false;
    } else {
      AtNext(s, es, j - 1);
      if es[j - 1].Change? && es[j - 1].value != At(s, es, j - 1).current {
        k := j - 1;
      } else {
        k := LateMeansChanged(s, es, j - 1, c);
      }
    }
  }

  /** Nobody holds a summary while the tables change under it. */
  ghost predicate NobodyOvertaken<T>(s: State<T>, es: seq<Event<T>>) {
    forall k, c :: 0 <= k < |es| && es[k].Change? && es[k].value != At(s, es, k).current ==>
      !PhaseOf(At(s, es, k), c).Captured?
  }

  /** Coherence under any interleaving, lock expiry included: a run in which every change drops
      the entry, and none that alters the summary overtakes a caller, ends fresh. */
  lemma FreshUnlessOvertaken<T>(s: State<T>, es: seq<Event<T>>)
    requires Fresh(s) && CapturesFresh(s) && Dropping(es) && NobodyOvertaken(s, es)
    ensures Fresh(Run(s, es))
  {
    hide Run, At, Dropping;
    StaleIff(s, es);
    if SomeLateWriteStands(s, es) {
      var j :| 0 <= j < |es| && LateWriteStands(s, es, j);
      var k := LateMeansChanged(s, es, j, es[j].c);
      assert false;
    }
  }

  /** The smallest such run: a change that drops the entry between the holder's reading and its
      write leaves the cache stale exactly when it changed the summary. */
  lemma LateWriteStaleIff<T>(s: State<T>, c: Caller, value: T)
    requires PhaseOf(s, c).Locked?
    ensures Fresh(Run(s, [Summarize(c), Change(value), Invalidate, Write(c)])) <==> value == s.current
  {
    RunFour(s, Summarize(c), Change(value), Invalidate, Write(c));
  }

  lemma RunFour<T>(s: State<T>, a: Event<T>, b: Event<T>, c: Event<T>, d: Event<T>)
    ensures Run(s, [a, b, c, d]) == Next(Next(Next(Next(s, a), b), c), d)
  {
    assert [a, b, c, d] == [a, b, c] + [d] && [a, b, c] == [a, b] + [c] && [a, b] == [a] + [b] && [a] == [] + [a];
    RunSnoc(s, [], a);
    RunSnoc(s, [a], b);
    RunSnoc(s, [a, b], c);
    RunSnoc(s, [a, b, c], d);
  }

  // ---- a caller that nobody disturbs ------------------------------------------------------------

  /** A caller alone takes the lock, fills the cache with the summary there is, and lets go. */
  lemma AloneFills<T>(s: State<T>, c: Caller)
    requires PhaseOf(s, c).Missed? && s.lock.None?
    ensures Run(s, [TryLock(c), Summarize(c), Write(c), Unlock(c)]) ==
      s.(cache := Some(s.current), callers := s.callers[c := Done])
  {
    RunFour(s, TryLock(c), Summarize(c), Write(c), Unlock(c));
  }

  /** A caller that fails before it writes lets go of the lock all the same. */
  lemma AloneLetsGo<T>(s: State<T>, c: Caller)
    requires s.lock == Some(c) && Inside(PhaseOf(s, c))
    ensures Next(s, Unlock(c)) == s.(lock := None, callers := s.callers[c := Done])
  {
  }

  /** A caller that finds the lock taken answers the entry if there is one, after three looks the
      tables' summary if there is none, and leaves lock and cache alone. */
  lemma AloneAnswers<T>(s: State<T>, c: Caller)
    requires PhaseOf(s, c).Missed? && s.lock.Some?
    ensures Run(s, [TryLock(c), Look(c), Look(c), Look(c)] + [FallBack(c)]) ==
      s.(callers := s.callers[c := Answered(if s.cache.Some? then s.cache.value else s.current)])
  {
    RunFour(s, TryLock(c), Look(c), Look(c), Look(c));
    RunSnoc(s, [TryLock(c), Look(c), Look(c), Look(c)], FallBack(c));
  }

  /** Two looks are not enough to fall back. */
  lemma NotTooSoon<T>(s: State<T>, c: Caller)
    requires PhaseOf(s, c).Missed? && s.lock.Some? && s.cache.None?
    ensures PhaseOf(Run(s, [TryLock(c), Look(c), Look(c), FallBack(c)]), c).Waiting?
  {
    RunFour(s, TryLock(c), Look(c), Look(c), FallBack(c));
  }
}
