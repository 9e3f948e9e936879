/** The object behind an attachment: it is checked before the transaction, and can be replaced or
    deleted until then and after. */
module UploadObjects {
  import opened Wrappers
  import opened Upload
  import opened UploadRace

  function ObjectOf(s: System, sid: Id): Option<Object> {
    if sid in s.world.objects then Some(s.world.objects[sid]) else None
  }

  /** What both checks together ask of an object. */
  predicate Fits(o: Option<Object>, info: Info) {
    o.Some? && o.value.length == info.size && (info.magicChecked ==> o.value.magicMatches)
  }

  /** The call `p` is at its item `next`, which is `sid`. */
  predicate AtItem(s: System, p: nat, next: nat, sid: Id) {
    Running(s, p) && s.processes[p].next == next && s.processes[p].call.items[next] == sid
  }

  /** Event `j` replaces, brings or removes the object. */
  predicate Changes(es: seq<Event>, j: nat, sid: Id)
    requires j < |es|
  {
    ObjectOf(At(START, es, j + 1), sid) != ObjectOf(At(START, es, j), sid)
  }

  /** Only an upload, a deletion, or a call that found a wrong signature changes an object. */
  lemma ChangedBy(es: seq<Event>, j: nat, sid: Id)
    requires j < |es| && Changes(es, j, sid)
    ensures Touches(At(START, es, j), es[j], sid)
  {
    hide Run, Next, ObjectOf, Touches;
    AtNext(START, es, j);
    OthersTouchNothing(At(START, es, j), es[j], sid);
  }

  predicate Touches(s: System, e: Event, sid: Id) {
    || (e.Upload? && e.sid == sid) || e == DropObject(sid)
    || (e.Advance? && Running(s, e.p) && s.processes[e.p].phase.Mismatched? && ItemOf(s, e.p) == sid)
  }

  lemma OthersTouchNothing(s: System, e: Event, sid: Id)
    ensures Touches(s, e, sid) || ObjectOf(Next(s, e), sid) == ObjectOf(s, sid)
  {
    hide Admit, Advanced;
    if e.Advance? && Running(s, e.p) {
      AdvanceObjects(s.world, s.processes[e.p], e.drawn);
    }
  }

  lemma AdvanceObjects(w: World, p: Process, drawn: Id)
    requires p.next < |p.call.items|
    ensures Advanced(w, p, drawn).0.objects ==
      if p.phase.Mismatched? then w.objects - {p.call.items[p.next]} else w.objects
  {
  }

  /** The size check of the call's item goes through at event `i`. */
  predicate SizeChecked(es: seq<Event>, i: nat, p: nat, next: nat, sid: Id, info: Info)
    requires i < |es|
  {
    && AtItem(At(START, es, i), p, next, sid) && At(START, es, i).processes[p].phase == Loaded(info)
    && es[i].Advance? && es[i].p == p && Head(At(START, es, i).world, sid, info).Ok?
  }

  ghost predicate Untouched(es: seq<Event>, i: nat, n: nat, sid: Id)
    requires i <= n <= |es|
  {
    forall j :: i <= j < n ==> !Changes(es, j, sid)
  }

  /** Between its size check and its transaction a call has what it checked, while nobody touches
      the object. */
  ghost predicate Holding(es: seq<Event>, i: nat, n: nat, p: nat, next: nat, sid: Id, info: Info)
    requires i < n <= |es|
  {
    var s := At(START, es, n);
    p in s.processes && s.processes[p].next >= next
    && (s.processes[p].next == next ==>
          && AtItem(s, p, next, sid)
          && match s.processes[p].phase
             case Sized(inf) => inf == info && (Untouched(es, i + 1, n, sid) ==>
               ObjectOf(s, sid).Some? && ObjectOf(s, sid).value.length == info.size)
             case Passed(inf) => inf == info && (Untouched(es, i + 1, n, sid) ==> Fits(ObjectOf(s, sid), info))
             case Ready => false
             case Loaded(_) => false
             case _ => true)
  }

  lemma {:induction false} HoldsOn(es: seq<Event>, i: nat, n: nat, p: nat, next: nat, sid: Id, info: Info)
    requires i < n <= |es| && SizeChecked(es, i, p, next, sid, info)
    ensures Holding(es, i, n, p, next, sid, info)
    decreases n
  {
    hide Run, Next, Advanced, Admit, Fits, ObjectOf;
    AtNext(START, es, n - 1);
    if n == i + 1 {
      SizedStep(At(START, es, i), p, es[i].drawn, next, sid, info);
    } else {
      HoldsOn(es, i, n - 1, p, next, sid, info);
      var s, e := At(START, es, n - 1), es[n - 1];
      if e.Advance? && e.p == p {
        OwnStep(s, p, e.drawn);
        if Running(s, p) && s.processes[p].phase.Sized? {
          BothChecks(s, sid, info);
        }
      } else {
        OtherStep(s, e, p);
      }
      if Untouched(es, i + 1, n, sid) {
        assert !Changes(es, n - 1, sid);
      }
    }
  }

  lemma BothChecks(s: System, sid: Id, info: Info)
    ensures ObjectOf(s, sid).Some? && ObjectOf(s, sid).value.length == info.size && !MagicFails(s.world, sid, info) ==>
      Fits(ObjectOf(s, sid), info)
  {
  }

  lemma SizedStep(s: System, p: nat, drawn: Id, next: nat, sid: Id, info: Info)
    requires AtItem(s, p, next, sid) && s.processes[p].phase == Loaded(info) && Head(s.world, sid, info).Ok?
    ensures var after := Next(s, Advance(p, drawn));
      AtItem(after, p, next, sid) && after.processes[p].phase == Sized(info)
      && ObjectOf(after, sid).Some? && ObjectOf(after, sid).value.length == info.size
  {
  }

  lemma OwnStep(s: System, p: nat, drawn: Id)
    requires p in s.processes
    ensures var after := Next(s, Advance(p, drawn));
      && p in after.processes && after.processes[p].call == s.processes[p].call
      && after.processes[p].next >= s.processes[p].next
      && (after.processes[p].next == s.processes[p].next && Running(s, p) ==>
            var old_, new_ := s.processes[p].phase, after.processes[p].phase;
            && (old_.Sized? && !new_.Mismatched? ==>
                  new_ == Passed(old_.info) && !MagicFails(s.world, ItemOf(s, p), old_.info))
            && (old_.Passed? ==> new_.Stopped?)
            && (old_.Mismatched? || old_.Unstored? || old_.Stopped? ==> new_.Unstored? || new_.Stopped?))
      && (Running(s, p) && s.processes[p].phase.Sized? ==> after.world == s.world)
  {
  }

  function ItemOf(s: System, p: nat): Id
    requires Running(s, p)
  {
    s.processes[p].call.items[s.processes[p].next]
  }

  lemma OtherStep(s: System, e: Event, p: nat)
    requires p in s.processes && !(e.Advance? && e.p == p)
    ensures p in Next(s, e).processes && Next(s, e).processes[p] == s.processes[p]
  {
    hide Advanced, Admit, Sent;
  }

  /** An attachment is committed over an object that does not fit what was declared exactly when
      the object was changed between the size check and the transaction, and the last change left
      one that does not fit, or none. */
  lemma UncheckedIff(es: seq<Event>, i: nat, k: nat, p: nat, next: nat, sid: Id, info: Info)
    requires i < k < |es| && SizeChecked(es, i, p, next, sid, info)
    requires AtItem(At(START, es, k), p, next, sid) && At(START, es, k).processes[p].phase.Passed?
    ensures !Fits(ObjectOf(At(START, es, k), sid), info) <==>
      exists j :: i < j < k && Changes(es, j, sid) && Untouched(es, j + 1, k, sid)
        && !Fits(ObjectOf(At(START, es, j + 1), sid), info)
  {
    hide Run, Fits, ObjectOf, SizeChecked;
    HoldsOn(es, i, k, p, next, sid, info);
    if Untouched(es, i + 1, k, sid) {
    } else {
      var j := LastChange(es, i + 1, k, sid);
      StaysFrom(es, j + 1, k, sid);
    }
    forall j | i < j < k && Changes(es, j, sid) && Untouched(es, j + 1, k, sid)
      ensures ObjectOf(At(START, es, j + 1), sid) == ObjectOf(At(START, es, k), sid)
    {
      StaysFrom(es, j + 1, k, sid);
    }
  }

  lemma {:induction false} LastChange(es: seq<Event>, from: nat, k: nat, sid: Id) returns (j: nat)
    requires from <= k <= |es| && !Untouched(es, from, k, sid)
    ensures from <= j < k && Changes(es, j, sid) && Untouched(es, j + 1, k, sid)
    decreases k
  {
    hide Changes;
    if Changes(es, k - 1, sid) {
      j := k - 1;
    } else {
      j := LastChange(es, from, k - 1, sid);
    }
  }

  lemma {:induction false} StaysFrom(es: seq<Event>, from: nat, k: nat, sid: Id)
    requires from <= k <= |es| && Untouched(es, from, k, sid)
    ensures ObjectOf(At(START, es, from), sid) == ObjectOf(At(START, es, k), sid)
    decreases k
  {
    hide Run, ObjectOf;
    if from < k {
      StaysFrom(es, from, k - 1, sid);
      assert !Changes(es, k - 1, sid);
    }
  }

  /** A second upload just before the transaction: the attachment is made over an object of the
      wrong size that nobody looked at. */
  lemma ReplacedBeforeCommit()
    ensures var info := Info(7, 3, 1, false, 100);
      var begin, next := Begin(0, 7, 3, Body(None, Some(3), [0]), 1, true), Advance(0, 5);
      var es := [Issue(0, info), UploadRace.Upload(0, Object(1, true)), begin, next, next, next,
        UploadRace.Upload(0, Object(2, true)), next];
      var s := Run(START, es);
      5 in s.world.attachments && s.world.attachments[5].session == 0
      && 0 in s.world.objects && s.world.objects[0].length != info.size
  {
    hide Run, Next;
    var info := Info(7, 3, 1, false, 100);
    var begin, next := Begin(0, 7, 3, Body(None, Some(3), [0]), 1, true), Advance(0, 5);
    var first, second := [Issue(0, info), UploadRace.Upload(0, Object(1, true)), begin],
      [next, next, next, UploadRace.Upload(0, Object(2, true)), next];
    assert [Issue(0, info), UploadRace.Upload(0, Object(1, true)), begin, next, next, next,
      UploadRace.Upload(0, Object(2, true)), next] == first + second;
    RunAppend(START, first, second);
    ReadyToComplete(info, begin);
    LateUpload(info, Run(START, first));
  }

  function ReadyWorld(info: Info): World {
    World(map[], map[0 := Session(info, false)], map[0 := Object(1, true)], map[], map[0 := info], [])
  }

  const CALL := Call(7, 3, None, [0], 1)

  lemma ReadyToComplete(info: Info, begin: Event)
    requires info == Info(7, 3, 1, false, 100) && begin == Begin(0, 7, 3, Body(None, Some(3), [0]), 1, true)
    ensures Run(START, [Issue(0, info), UploadRace.Upload(0, Object(1, true)), begin])
      == System(ReadyWorld(info), map[0 := Process(CALL, 0, 0, Ready)])
  {
    hide Run;
    var a, b := Issue(0, info), UploadRace.Upload(0, Object(1, true));
    assert [a, b, begin] == [a] + ([b] + [begin]);
    RunAppend(START, [a], [b] + [begin]);
    RunSingle(START, a);
    var s1 := Next(START, a);
    RunAppend(s1, [b], [begin]);
    RunSingle(s1, b);
    RunSingle(Next(s1, b), begin);
  }

  lemma RunSingle(s: System, e: Event)
    ensures Run(s, [e]) == Next(s, e)
  {
    hide Next;
    assert [e][..0] == [];
    RunNothing(s);
  }

  lemma LateUpload(info: Info, s: System)
    requires info == Info(7, 3, 1, false, 100) && s == System(ReadyWorld(info), map[0 := Process(CALL, 0, 0, Ready)])
    ensures var next := Advance(0, 5);
      var after := Run(s, [next, next, next, UploadRace.Upload(0, Object(2, true)), next]);
      5 in after.world.attachments && after.world.attachments[5].session == 0
      && 0 in after.world.objects && after.world.objects[0].length == 2
  {
    hide Run, Next;
    var next, upload := Advance(0, 5), UploadRace.Upload(0, Object(2, true));
    var es := [next, next, next, upload, next];
    RunNothing(s);
    assert es[..0] == [] && es[..5] == es;
    AtNext(s, es, 0);
    AtNext(s, es, 1);
    AtNext(s, es, 2);
    AtNext(s, es, 3);
    AtNext(s, es, 4);
    ThreeChecks(info, s);
    var passed := System(ReadyWorld(info), map[0 := Process(CALL, 0, 0, Passed(info))]);
    LastTwo(info, passed);
  }

  lemma ThreeChecks(info: Info, s: System)
    requires info == Info(7, 3, 1, false, 100) && s == System(ReadyWorld(info), map[0 := Process(CALL, 0, 0, Ready)])
    ensures var next := Advance(0, 5);
      Next(Next(Next(s, next), next), next) == System(ReadyWorld(info), map[0 := Process(CALL, 0, 0, Passed(info))])
  {
    assert Next(s, Advance(0, 5)) == System(ReadyWorld(info), map[0 := Process(CALL, 0, 0, Loaded(info))]);
  }

  lemma LastTwo(info: Info, s: System)
    requires info == Info(7, 3, 1, false, 100)
      && s == System(ReadyWorld(info), map[0 := Process(CALL, 0, 0, Passed(info))])
    ensures var after := Next(Next(s, UploadRace.Upload(0, Object(2, true))), Advance(0, 5));
      5 in after.world.attachments && after.world.attachments[5].session == 0
      && 0 in after.world.objects && after.world.objects[0].length == 2
  {
  }
}
