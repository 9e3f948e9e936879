/** The limit of ten attachments a message, with any number of calls at work. */
module UploadCap {
  import opened Wrappers
  import opened Sets
  import opened Upload
  import opened UploadRace

  /** How many attachments a message has. */
  function Count(s: System, m: Id): nat { |AttachedTo(s.world.attachments, m)| }

  predicate To(s: System, p: nat, m: Id) {
    p in s.processes && s.processes[p].call.message == Some(m)
  }

  /** A call that may still attach something. */
  predicate Unfinished(s: System, p: nat) {
    Running(s, p) && !s.processes[p].phase.Stopped?
  }

  /** Event `e` is the beginning of a call to the message. */
  predicate Begins(s: System, e: Event, m: Id) {
    e.Begin? && e.p !in s.processes
    && var admitted := Admit(s.world, e.uploader, e.route, e.body, e.now, e.mayUpload);
       admitted.Ok? && admitted.value.message == Some(m)
  }

  // ---- what each event attaches ---------------------------------------------------------------

  /** Attachments and calls are about messages there are. */
  predicate Known(s: System) {
    && (forall a :: a in s.world.attachments && s.world.attachments[a].message.Some? ==>
          s.world.attachments[a].message.value in s.world.messages)
    && (forall p :: p in s.processes && s.processes[p].call.message.Some? ==>
          s.processes[p].call.message.value in s.world.messages)
  }

  lemma AdvanceKnown(s: System, p: nat, drawn: Id)
    requires Known(s) && Running(s, p)
    ensures var (w, q) := Advanced(s.world, s.processes[p], drawn);
      && w.messages == s.world.messages && q.call == s.processes[p].call
      && forall a :: a in w.attachments && w.attachments[a].message.Some? ==>
        w.attachments[a].message.value in w.messages
  {
  }

  lemma NextKnown(s: System, e: Event)
    requires Known(s)
    ensures Known(Next(s, e))
  {
    hide Advanced;
    if e.Advance? && Running(s, e.p) {
      AdvanceKnown(s, e.p, e.drawn);
    }
  }

  /** An access attaches one exactly when its call moves on, and to the call's own message. */
  lemma AdvanceAttaches(w: World, p: Process, drawn: Id, m: Id)
    requires p.next < |p.call.items|
    ensures var (after, q) := Advanced(w, p, drawn);
      && q.call == p.call && q.counted == p.counted && p.next <= q.next <= p.next + 1
      && (p.phase.Stopped? ==> q.phase.Stopped?)
      && |AttachedTo(after.attachments, m)| ==
           |AttachedTo(w.attachments, m)| + if p.call.message == Some(m) then q.next - p.next else 0
  {
    hide AttachedTo;
    if p.phase.Passed? {
      var sid := p.call.items[p.next];
      var committed := Commit(w, p.call, sid, drawn);
      if committed.result.Ok? {
        AttachOne(w.attachments, drawn, committed.world.attachments[drawn], m);
      }
    }
  }

  lemma DropAttaches(attachments: map<Id, Attachment>, a: Id, m: Id)
    ensures |AttachedTo(attachments - {a}, m)| <= |AttachedTo(attachments, m)|
  {
    SubsetSize(AttachedTo(attachments - {a}, m), AttachedTo(attachments, m));
  }

  /** A new message has at most ten; the others keep what they have. */
  lemma SendAttaches(w: World, m: Id, author: Id, channel: Id, links: set<Id>, at: int, other: Id)
    requires forall a :: a in w.attachments && w.attachments[a].message.Some? ==>
      w.attachments[a].message.value in w.messages
    ensures var after := |AttachedTo(Sent(w, m, author, channel, links, at).attachments, other)|;
      if other == m && m !in w.messages then after <= MAX_PER_MESSAGE else after == |AttachedTo(w.attachments, other)|
  {
    var after := Sent(w, m, author, channel, links, at);
    if other == m && m !in w.messages {
      assert AttachedTo(w.attachments, m) == {};
      if |links| <= MAX_PER_MESSAGE {
        SubsetSize(AttachedTo(after.attachments, m), links);
      }
    } else {
      assert AttachedTo(after.attachments, other) == AttachedTo(w.attachments, other);
    }
  }

  // ---- one call at a time ---------------------------------------------------------------------

  /** At most ten, and room for whatever the one call to the message may still attach. */
  predicate Capped(s: System, m: Id) {
    && Known(s) && Count(s, m) <= MAX_PER_MESSAGE
    && (forall p, q ::
          p in s.processes && q in s.processes && To(s, p, m) && To(s, q, m) && Unfinished(s, p) && Unfinished(s, q) ==>
            p == q)
    && (forall p :: p in s.processes && To(s, p, m) && Unfinished(s, p) ==>
          Count(s, m) + |s.processes[p].call.items| - s.processes[p].next <= MAX_PER_MESSAGE)
  }

  lemma AdvanceCapped(s: System, p: nat, drawn: Id, m: Id)
    requires Capped(s, m)
    ensures Capped(Next(s, Advance(p, drawn)), m)
  {
    hide Advanced, AttachedTo, Known;
    NextKnown(s, Advance(p, drawn));
    if Running(s, p) {
      AdvanceAttaches(s.world, s.processes[p], drawn, m);
      if s.processes[p].phase.Stopped? {
        StoppedRests(s.world, s.processes[p], drawn);
      }
    }
  }

  lemma StoppedRests(w: World, p: Process, drawn: Id)
    requires p.phase.Stopped? && p.next < |p.call.items|
    ensures Advanced(w, p, drawn) == (w, p)
  {
  }

  lemma BeginCapped(s: System, e: Event, m: Id)
    requires Capped(s, m) && e.Begin?
    requires Begins(s, e, m) ==> forall p :: p in s.processes && To(s, p, m) ==> !Unfinished(s, p)
    ensures Capped(Next(s, e), m)
  {
    hide AttachedTo;
  }

  lemma OtherCapped(s: System, e: Event, m: Id)
    requires Capped(s, m) && !e.Begin? && !e.Advance?
    ensures Capped(Next(s, e), m)
  {
    hide AttachedTo, Known, Sent;
    NextKnown(s, e);
    var after := Next(s, e);
    assert after.processes == s.processes;
    if e.DropAttachment? {
      DropAttaches(s.world.attachments, e.a, m);
    } else if e.Send? {
      SendIsKnown(s, e, m);
    }
  }

  /** No call can be about a message that is not there yet. */
  lemma SendIsKnown(s: System, e: Event, m: Id)
    requires Known(s) && e.Send?
    ensures var after := Count(Next(s, e), m);
      if e.m == m && m !in s.world.messages then after <= MAX_PER_MESSAGE else after == Count(s, m)
    ensures e.m == m && m !in s.world.messages ==> forall p :: p in s.processes ==> !To(s, p, m)
  {
    hide AttachedTo;
    SendAttaches(s.world, e.m, e.author, e.channel, e.links, e.at, m);
  }

  /** No call to the message begins while another call to it is unfinished. */
  predicate OneAtATime(es: seq<Event>, m: Id) {
    forall k :: 0 <= k < |es| && Begins(At(START, es, k), es[k], m) ==>
      forall p :: p in At(START, es, k).processes && To(At(START, es, k), p, m) ==> !Unfinished(At(START, es, k), p)
  }

  lemma {:induction false} CappedAt(es: seq<Event>, m: Id, n: nat)
    requires OneAtATime(es, m) && n <= |es|
    ensures Capped(At(START, es, n), m)
    decreases n
  {
    hide Run, Next, Capped, Begins, To, Unfinished;
    if n == 0 {
      StartCapped(es, m);
    } else {
      CappedAt(es, m, n - 1);
      AtNext(START, es, n - 1);
      var s, e := At(START, es, n - 1), es[n - 1];
      if e.Begin? {
        BeginCapped(s, e, m);
      } else if e.Advance? {
        AdvanceCapped(s, e.p, e.drawn, m);
      } else {
        OtherCapped(s, e, m);
      }
    }
  }

  lemma StartCapped(es: seq<Event>, m: Id)
    ensures Capped(At(START, es, 0), m)
  {
  }

  /** In every run, at every moment, a message has at most ten attachments, if no call to it
      begins while another call to it is unfinished. */
  lemma TenWhenOneAtATime(es: seq<Event>, m: Id, n: nat)
    requires OneAtATime(es, m) && n <= |es|
    ensures Count(At(START, es, n), m) <= MAX_PER_MESSAGE
  {
    hide Run, OneAtATime;
    CappedAt(es, m, n);
  }

  // ---- when a commit passes ten ---------------------------------------------------------------

  /** What everybody but the call `p` attached to the message, less what was deleted of it, in
      the events from `b` up to `k`. */
  function OthersNet(es: seq<Event>, b: nat, k: nat, p: nat, m: Id): int
    requires b <= k <= |es|
    decreases k
  {
    if k == b then 0
    else
      OthersNet(es, b, k - 1, p, m)
      + if es[k - 1].Advance? && es[k - 1].p == p then 0
        else Count(At(START, es, k), m) - Count(At(START, es, k - 1), m)
  }

  predicate BegunAt(es: seq<Event>, b: nat, p: nat, m: Id)
    requires b < |es|
  {
    Begins(At(START, es, b), es[b], m) && es[b].p == p
  }

  /** A message has what the call counted, what the call attached since, and the rest. */
  lemma {:induction false} CountSplits(es: seq<Event>, b: nat, k: nat, p: nat, m: Id)
    requires b < k <= |es| && BegunAt(es, b, p, m)
    ensures var s := At(START, es, k);
      && To(s, p, m) && s.processes[p].counted == Count(At(START, es, b), m)
      && s.processes[p].counted + |s.processes[p].call.items| <= MAX_PER_MESSAGE
      && Count(s, m) == s.processes[p].counted + s.processes[p].next + OthersNet(es, b + 1, k, p, m)
    decreases k
  {
    hide Run, Next, Admit, Advanced, AttachedTo;
    AtNext(START, es, k - 1);
    if k == b + 1 {
      BeginsOn(At(START, es, b), es[b], m);
    } else {
      CountSplits(es, b, k - 1, p, m);
      var s, e := At(START, es, k - 1), es[k - 1];
      if e.Advance? && e.p == p {
        OwnAccess(s, p, e.drawn, m);
      } else {
        OthersLeave(s, e, p);
      }
    }
  }

  lemma BeginsOn(s: System, e: Event, m: Id)
    requires Begins(s, e, m)
    ensures var after := Next(s, e);
      && To(after, e.p, m) && after.processes[e.p].next == 0
      && after.processes[e.p].counted == Count(s, m) == Count(after, m)
      && Count(s, m) + |after.processes[e.p].call.items| <= MAX_PER_MESSAGE
  {
    hide AttachedTo;
  }

  lemma OwnAccess(s: System, p: nat, drawn: Id, m: Id)
    requires To(s, p, m)
    ensures var after := Next(s, Advance(p, drawn));
      && To(after, p, m) && after.processes[p].counted == s.processes[p].counted
      && after.processes[p].call == s.processes[p].call
      && Count(after, m) - Count(s, m) == after.processes[p].next - s.processes[p].next
  {
    hide AttachedTo, Advanced;
    if Running(s, p) {
      AdvanceAttaches(s.world, s.processes[p], drawn, m);
    }
  }

  lemma OthersLeave(s: System, e: Event, p: nat)
    requires p in s.processes && !(e.Advance? && e.p == p)
    ensures p in Next(s, e).processes && Next(s, e).processes[p] == s.processes[p]
  {
    hide Advanced, Admit, Sent;
  }

  /** A commit of a call passes ten exactly when the others attached, since the call was counted
      in, more than the room it left: at least one more than its own items still to come. */
  lemma CommitPassesTenIff(es: seq<Event>, b: nat, k: nat, p: nat, m: Id)
    requires b < k < |es| && BegunAt(es, b, p, m)
    requires es[k].Advance? && es[k].p == p && To(At(START, es, k + 1), p, m) && p in At(START, es, k).processes
    requires At(START, es, k + 1).processes[p].next == At(START, es, k).processes[p].next + 1
    ensures var proc := At(START, es, k).processes[p];
      && (Count(At(START, es, k + 1), m) > MAX_PER_MESSAGE <==>
            OthersNet(es, b + 1, k, p, m) > MAX_PER_MESSAGE - 1 - proc.counted - proc.next)
      && (Count(At(START, es, k + 1), m) > MAX_PER_MESSAGE ==>
            OthersNet(es, b + 1, k, p, m) >= |proc.call.items| - proc.next)
  {
    hide Run, Next, AttachedTo;
    CountSplits(es, b, k, p, m);
    CountSplits(es, b, k + 1, p, m);
    assert OthersNet(es, b + 1, k + 1, p, m) == OthersNet(es, b + 1, k, p, m);
  }

  // ---- two calls admitted on one count --------------------------------------------------------

  /** Two calls admitted in the same state, each then left alone until it has gone through: the
      message ends with what it had and all their items, past ten when they do not fit together. */
  lemma TwoAdmittedAdd(s: System, p: nat, q: nat, m: Id, drawnP: seq<Id>, drawnQ: seq<Id>)
    requires p != q && To(s, p, m) && To(s, q, m)
    requires var c := s.processes[p]; c.phase.Ready? && c.next == 0 && |drawnP| == |c.call.items|
    requires var c := s.processes[q]; c.phase.Ready? && c.next == 0 && |drawnQ| == |c.call.items|
    requires var first := CompleteFrom(s.world, s.processes[p].call, drawnP, 0);
      && first.result.Ok? && CompleteFrom(first.world, s.processes[q].call, drawnQ, 0).result.Ok?
    ensures var first := CompleteFrom(s.world, s.processes[p].call, drawnP, 0).world;
      var es := CallTurns(s.world, s.processes[p].call, drawnP, 0, p)
        + CallTurns(first, s.processes[q].call, drawnQ, 0, q);
      Count(Run(s, es), m) == Count(s, m) + |drawnP| + |drawnQ|
  {
    hide Run, CompleteFrom, AttachedTo, CallTurns;
    var callP, callQ := s.processes[p].call, s.processes[q].call;
    var turnsP := CallTurns(s.world, callP, drawnP, 0, p);
    UndisturbedCall(s, p, drawnP);
    LoopAttaches(s.world, callP, drawnP, 0, m);
    var mid := Run(s, turnsP);
    UndisturbedCall(mid, q, drawnQ);
    LoopAttaches(mid.world, callQ, drawnQ, 0, m);
    RunAppend(s, turnsP, CallTurns(mid.world, callQ, drawnQ, 0, q));
  }

  const INFO := Info(7, 3, 1, false, 100)
  const OBJECT := Object(1, true)

  /** A message, and `n` sessions of one user with their objects uploaded. */
  function Setup(n: nat): seq<Event> {
    if n == 0 then [Send(0, 7, 3, {}, 0)] else Setup(n - 1) + [Issue(n - 1, INFO), UploadRace.Upload(n - 1, OBJECT)]
  }

  /** The same value under every id below `n`. */
  function Filled<T>(n: nat, v: T): (r: map<Id, T>)
    ensures forall i :: i in r ==> i < n && r[i] == v
    ensures forall i: nat :: i < n ==> i in r
  {
    if n == 0 then map[]
    else
      var rest := Filled(n - 1, v);
      rest[n - 1 := v]
  }

  function SetupWorld(n: nat): World {
    World(map[0 := Message(3, false)], Filled(n, Session(INFO, false)), Filled(n, OBJECT), map[], Filled(n, INFO), [])
  }

  lemma {:induction false} SetupRuns(n: nat)
    ensures Run(START, Setup(n)) == System(SetupWorld(n), map[])
  {
    hide Run;
    if n == 0 {
      FirstMessage();
    } else {
      SetupRuns(n - 1);
      RunAppend(START, Setup(n - 1), [Issue(n - 1, INFO), UploadRace.Upload(n - 1, OBJECT)]);
      OneSession(n - 1);
    }
  }

  lemma FirstMessage()
    ensures Run(START, Setup(0)) == System(SetupWorld(0), map[])
  {
    RunOne(START, Send(0, 7, 3, {}, 0));
  }

  lemma RunOne(s: System, e: Event)
    ensures Run(s, [e]) == Next(s, e)
  {
    hide Next;
    assert [e][..0] == [];
    assert Run(s, []) == s;
  }

  lemma RunTwo(s: System, a: Event, b: Event)
    ensures Run(s, [a, b]) == Next(Next(s, a), b)
  {
    hide Next;
    assert [a, b][..1] == [a];
    RunOne(s, a);
  }

  lemma OneSession(n: nat)
    ensures Run(System(SetupWorld(n), map[]), [Issue(n, INFO), UploadRace.Upload(n, OBJECT)]) ==
      System(SetupWorld(n + 1), map[])
  {
    RunTwo(System(SetupWorld(n), map[]), Issue(n, INFO), UploadRace.Upload(n, OBJECT));
  }

  function From(start: nat): seq<nat> { seq(6, i requires 0 <= i => start + i) }

  function CallOf(start: nat): Call { Call(7, 3, Some(0), From(start), 1) }

  function BeginOf(p: nat, start: nat): Event {
    Begin(p, 7, 3, Body(Some(0), None, From(start)), 1, true)
  }

  /** A call of six to a message with nothing attached. */
  lemma OneBegins(s: System, p: nat, start: nat)
    requires 0 in s.world.messages && s.world.messages[0] == Message(3, false) && s.world.attachments == map[]
    requires p !in s.processes
    ensures Count(s, 0) == 0 && Begins(s, BeginOf(p, start), 0)
    ensures Next(s, BeginOf(p, start)) == s.(processes := s.processes[p := Process(CallOf(start), 0, 0, Ready)])
  {
    hide From;
    FromSix(start);
    assert AttachedTo(s.world.attachments, 0) == {};
  }

  lemma FromSix(start: nat)
    ensures |From(start)| == 6
  {
  }

  lemma SetupBare()
    ensures var w := SetupWorld(12); w.messages == map[0 := Message(3, false)] && w.attachments == map[]
  {
  }

  lemma SetupCompletable(start: nat, sid: Id)
    requires sid < 12
    ensures Completable(SetupWorld(12), CallOf(start), sid) && SetupWorld(12).attachments == map[]
  {
  }

  lemma BothComplete()
    ensures var first := CompleteFrom(SetupWorld(12), CallOf(0), From(0), 0);
      first.result.Ok? && CompleteFrom(first.world, CallOf(6), From(6), 0).result.Ok?
  {
    hide CompleteFrom, Completable, SetupWorld;
    var w := SetupWorld(12);
    forall sid: nat | sid < 12
      ensures w.attachments == map[] && Completable(w, CallOf(0), sid) && Completable(w, CallOf(6), sid)
    {
      SetupCompletable(0, sid);
      SetupCompletable(6, sid);
    }
    SetupCompletable(0, 0);
    CompleteOkIff(w, CallOf(0), From(0));
    var after := CompleteFrom(w, CallOf(0), From(0), 0).world;
    forall i: nat | i < 6 ensures Completable(after, CallOf(6), From(6)[i]) && From(6)[i] !in after.attachments {
      LoopLeavesOthers(w, CallOf(0), From(0), 0, CallOf(6), 6 + i, 6 + i);
    }
    CompleteOkIff(after, CallOf(6), From(6));
  }

  /** A run in which two calls of six items are both admitted on a count of none, and the message
      ends with twelve attachments. */
  lemma TwoCallsPassTen()
    ensures exists es: seq<Event>, k: nat ::
      && k + 1 < |es| && BegunAt(es, k, 0, 0) && BegunAt(es, k + 1, 1, 0)
      && Count(At(START, es, k), 0) == Count(At(START, es, k + 1), 0) == 0
      && Count(Run(START, es), 0) == 12 > MAX_PER_MESSAGE
  {
    hide Run, Next, CompleteFrom, Count, CallTurns, SetupWorld, Setup, Begins;
    var w := SetupWorld(12);
    var first, second := BeginOf(0, 0), BeginOf(1, 6);
    var setup, begins := Setup(12), [first, second];
    var bare := System(w, map[]);
    var s := System(w, map[0 := Process(CallOf(0), 0, 0, Ready), 1 := Process(CallOf(6), 0, 0, Ready)]);
    SetupRuns(12);
    SetupBare();
    OneBegins(bare, 0, 0);
    OneBegins(Next(bare, first), 1, 6);
    assert Next(Next(bare, first), second) == s;
    NoneYet(s);
    BothComplete();
    RunTwo(bare, first, second);
    RunAppend(START, setup, begins);
    TwoAdmittedAdd(s, 0, 1, 0, From(0), From(6));
    var turns := CallTurns(w, CallOf(0), From(0), 0, 0)
      + CallTurns(CompleteFrom(w, CallOf(0), From(0), 0).world, CallOf(6), From(6), 0, 1);
    RunAppend(START, setup + begins, turns);
    var es, k := (setup + begins) + turns, |setup|;
    assert es[..k] == setup && es[..k + 1] == setup + [first] && es[k] == first && es[k + 1] == second;
    RunAppend(START, setup, [first]);
    RunOne(bare, first);
    assert BegunAt(es, k, 0, 0) && BegunAt(es, k + 1, 1, 0);
  }

  lemma NoneYet(s: System)
    requires s.world.attachments == map[]
    ensures Count(s, 0) == 0
  {
    assert AttachedTo(s.world.attachments, 0) == {};
  }
}
