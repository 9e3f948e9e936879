/** Any number of `complete` calls interleaved, one store access at a time, with each other and
    with uploads, cleanups and message sends. */
module UploadRace {
  import opened Wrappers
  import opened Upload

  /** How far a call has come with its current item; it carries the session row it read. */
  datatype Phase =
    | Ready
    | Loaded(info: Info)     // the row passed its checks
    | Sized(info: Info)      // the object is there and of the declared size
    | Mismatched             // the signature is wrong: delete the object, then the row
    | Unstored
    | Passed(info: Info)     // on to the transaction
    | Stopped(error: UploadError)

  /** `counted` is what the call counted on its message when it was admitted. */
  datatype Process = Process(call: Call, counted: nat, next: nat, phase: Phase)

  datatype System = System(world: World, processes: map<nat, Process>)

  datatype Event =
    | Issue(sid: Id, info: Info)
    | Upload(sid: Id, stored: Object)
    | DropObject(sid: Id)
    | DropSession(sid: Id)          // any deletion of a session row, such as the cleanup's
    | DropAttachment(a: Id)
    | Send(m: Id, author: Id, channel: Id, links: set<Id>, at: int)   // a new message with attachments
    | DeleteMessage(m: Id)
    | Begin(p: nat, uploader: Id, route: Id, body: Body, now: int, mayUpload: bool)
    | Advance(p: nat, drawn: Id)    // the next store access of a call

  function Issued(w: World, sid: Id, info: Info): World {
    // session ids are never drawn twice
    if sid in w.issued then w
    else w.(sessions := w.sessions[sid := Session(info, false)], issued := w.issued[sid := info])
  }

  function Advanced(w: World, p: Process, drawn: Id): (World, Process)
    requires p.next < |p.call.items|
  {
    var sid := p.call.items[p.next];
    match p.phase
    case Ready =>
      var looked := Look(w, p.call, sid);
      (w, p.(phase := if looked.Ok? then Loaded(looked.value) else Stopped(looked.error)))
    case Loaded(info) =>
      var head := Head(w, sid, info);
      (w, p.(phase := if head.Ok? then Sized(info) else Stopped(head.error)))
    case Sized(info) =>
      (w, p.(phase := if MagicFails(w, sid, info) then Mismatched else Passed(info)))
    case Mismatched =>
      (w.(objects := w.objects - {sid}), p.(phase := Unstored))
    case Unstored =>
      var removed := RemoveSession(w, sid);
      (removed.world, p.(phase := Stopped(removed.result.error)))
    case Passed(_) =>
      var committed := Commit(w, p.call, sid, drawn);
      (committed.world,
       if committed.result.Ok? then p.(next := p.next + 1, phase := Ready)
         else p.(phase := Stopped(committed.result.error)))
    case Stopped(_) => (w, p)
  }

  function Linkable(att: Attachment, author: Id, channel: Id): bool {
    att.message.None? && att.uploader == author && att.channel == channel
  }

  /** A message is made together with its links, of which its schema takes at most ten; message
      ids are never drawn twice. */
  function Sent(w: World, m: Id, author: Id, channel: Id, links: set<Id>, at: int): World {
    if m in w.messages || |links| > MAX_PER_MESSAGE then w
    else
      w.(messages := w.messages[m := Message(channel, false)],
         attachments := map a | a in w.attachments ::
           if a in links && Linkable(w.attachments[a], author, channel) then
             w.attachments[a].(message := Some(m), linkedAt := Some(at))
           else w.attachments[a])
  }

  /** A call is admitted on the count of its message, and then runs on its own. */
  function Begun(s: System, p: nat, admitted: Result<Call, UploadError>): System {
    if p in s.processes || admitted.Err? then s
    else
      var call := admitted.value;
      var counted := if call.message.Some? then |AttachedTo(s.world.attachments, call.message.value)| else 0;
      s.(processes := s.processes[p := Process(call, counted, 0, Ready)])
  }

  predicate Running(s: System, p: nat) {
    p in s.processes && s.processes[p].next < |s.processes[p].call.items|
  }

  function Next(s: System, e: Event): System {
    var w := s.world;
    match e
    case Issue(sid, info) => s.(world := Issued(w, sid, info))
    case Upload(sid, stored) => s.(world := w.(objects := w.objects[sid := stored]))
    case DropObject(sid) => s.(world := w.(objects := w.objects - {sid}))
    case DropSession(sid) => s.(world := w.(sessions := w.sessions - {sid}))
    case DropAttachment(a) => s.(world := w.(attachments := w.attachments - {a}))
    case Send(m, author, channel, links, at) => s.(world := Sent(w, m, author, channel, links, at))
    case DeleteMessage(m) =>
      if m in w.messages then s.(world := w.(messages := w.messages[m := w.messages[m].(deleted := true)])) else s
    case Begin(p, uploader, route, body, now, mayUpload) => Begun(s, p, Admit(w, uploader, route, body, now, mayUpload))
    case Advance(p, drawn) =>
      if !Running(s, p) then s
      else
        var (world, process) := Advanced(w, s.processes[p], drawn);
        System(world, s.processes[p := process])
  }

  function Run(s: System, es: seq<Event>): System {
    if es == [] then s else Next(Run(s, es[..|es| - 1]), es[|es| - 1])
  }

  /** The system before event `k`. */
  function At(s: System, es: seq<Event>, k: nat): System
    requires k <= |es|
  {
    Run(s, es[..k])
  }

  lemma AtNext(s: System, es: seq<Event>, k: nat)
    requires k < |es|
    ensures At(s, es, k + 1) == Next(At(s, es, k), es[k])
  {
    assert es[..k + 1][..k] == es[..k];
  }

  lemma {:induction false} RunAppend(s: System, a: seq<Event>, b: seq<Event>)
    ensures Run(s, a + b) == Run(Run(s, a), b)
    decreases |b|
  {
    hide Next;
    if b == [] {
      assert a + b == a;
    } else {
      assert (a + b)[..|a + b| - 1] == a + b[..|b| - 1];
      RunAppend(s, a, b[..|b| - 1]);
    }
  }

  const START := System(World(map[], map[], map[], map[], map[], []), map[])

  // ---- the invariant -----------------------------------------------------------------------------

  /** Sessions are those issued, as issued. */
  predicate SessionsIssued(w: World) {
    forall sid :: sid in w.sessions ==> sid in w.issued && w.sessions[sid].info == w.issued[sid]
  }

  predicate MadeFor(w: World, sid: Id) {
    exists i :: 0 <= i < |w.made| && w.made[i].session == sid
  }

  /** No session was ever made into two attachments. */
  predicate MadeOnce(w: World) {
    && (forall i, j :: 0 <= i < j < |w.made| ==> w.made[i].session != w.made[j].session)
    && (forall i :: 0 <= i < |w.made| ==> w.made[i].session in w.issued)
  }

  /** A session that is still there is completed exactly when it was made into an attachment. */
  predicate CompletedIffMade(w: World) {
    forall sid :: sid in w.sessions ==> (w.sessions[sid].completed <==> MadeFor(w, sid))
  }

  /** An attachment is of a session it was made for, in that session's channel and by its owner. */
  predicate AttachmentsMade(w: World) {
    forall a :: a in w.attachments ==>
      var att := w.attachments[a];
      && Creation(att.session, a) in w.made
      && att.session in w.issued
      && att.channel == w.issued[att.session].channel && att.uploader == w.issued[att.session].uploader
  }

  /** A call that has read a row holds what was issued, to its own user for its own channel. */
  predicate Holds(w: World, p: Process) {
    (p.phase.Loaded? || p.phase.Sized? || p.phase.Passed?) ==>
      && p.next < |p.call.items|
      && var sid := p.call.items[p.next];
         && sid in w.issued && w.issued[sid] == p.phase.info
         && p.phase.info.uploader == p.call.uploader && p.phase.info.channel == p.call.channel
  }

  predicate WorldSound(w: World) {
    SessionsIssued(w) && MadeOnce(w) && CompletedIffMade(w) && AttachmentsMade(w)
  }

  predicate Sound(s: System) {
    WorldSound(s.world) && forall p :: p in s.processes ==> Holds(s.world, s.processes[p])
  }

  lemma CommitSound(w: World, call: Call, sid: Id, id: Id)
    requires WorldSound(w) && sid in w.issued
    requires w.issued[sid].uploader == call.uploader && w.issued[sid].channel == call.channel
    ensures WorldSound(Commit(w, call, sid, id).world) && Commit(w, call, sid, id).world.issued == w.issued
  {
    var after := Commit(w, call, sid, id).world;
    if Commit(w, call, sid, id).result.Ok? {
      assert !MadeFor(w, sid);
      forall i | 0 <= i < |w.made| ensures after.made[i] == w.made[i] {
      }
      assert after.made[|w.made|] == Creation(sid, id);
      forall t | t in after.sessions ensures after.sessions[t].completed <==> MadeFor(after, t) {
        if MadeFor(w, t) {
          var i :| 0 <= i < |w.made| && w.made[i].session == t;
          assert after.made[i].session == t;
        }
      }
      forall a | a in after.attachments ensures Creation(after.attachments[a].session, a) in after.made {
        if a != id {
          assert Creation(w.attachments[a].session, a) in w.made;
        }
      }
    }
  }

  predicate SameButLink(a: Attachment, b: Attachment) {
    a.session == b.session && a.channel == b.channel && a.uploader == b.uploader
  }

  /** Steps that make nothing and complete nothing. */
  lemma QuietSound(w: World, after: World)
    requires WorldSound(w) && after.made == w.made
    requires forall sid :: sid in w.issued ==> sid in after.issued && after.issued[sid] == w.issued[sid]
    requires forall sid :: sid in after.sessions ==>
      if sid in w.sessions then after.sessions[sid] == w.sessions[sid]
      else sid !in w.issued && sid in after.issued && after.sessions[sid] == Session(after.issued[sid], false)
    requires forall a :: a in after.attachments ==>
      a in w.attachments && SameButLink(after.attachments[a], w.attachments[a])
    ensures WorldSound(after)
  {
    forall sid | sid in after.sessions ensures after.sessions[sid].completed <==> MadeFor(after, sid) {
      assert MadeFor(after, sid) <==> MadeFor(w, sid);
    }
  }

  lemma AdvanceSound(w: World, p: Process, drawn: Id)
    requires WorldSound(w) && Holds(w, p) && p.next < |p.call.items|
    ensures var (after, q) := Advanced(w, p, drawn);
      WorldSound(after) && Holds(after, q) && after.issued == w.issued
  {
    hide MadeOnce, CompletedIffMade, AttachmentsMade, Commit;
    var sid := p.call.items[p.next];
    if p.phase.Passed? {
      CommitSound(w, p.call, sid, drawn);
    } else if p.phase.Mismatched? || p.phase.Unstored? {
      QuietSound(w, Advanced(w, p, drawn).0);
    }
  }

  lemma NextSound(s: System, e: Event)
    requires Sound(s)
    ensures Sound(Next(s, e))
  {
    hide MadeOnce, CompletedIffMade, AttachmentsMade, Advanced, Admit;
    var w, after := s.world, Next(s, e).world;
    match e {
      case Advance(p, drawn) =>
        if Running(s, p) {
          AdvanceSound(w, s.processes[p], drawn);
        }
      case _ => QuietSound(w, after);
    }
  }

  lemma {:induction false} RunSound(s: System, es: seq<Event>)
    requires Sound(s)
    ensures Sound(Run(s, es))
    decreases |es|
  {
    hide Sound, Next;
    if es != [] {
      RunSound(s, es[..|es| - 1]);
      NextSound(Run(s, es[..|es| - 1]), es[|es| - 1]);
    }
  }

  /** However the calls interleave, with themselves and everything else: a session is never made
      into two attachments, and one that is still there is completed exactly when it was made
      into one; every attachment is its session's owner's, in the session's channel. */
  lemma OneAttachmentASession(es: seq<Event>)
    ensures var w := Run(START, es).world;
      && (forall i, j :: 0 <= i < j < |w.made| ==> w.made[i].session != w.made[j].session)
      && (forall a, b ::
            a in w.attachments && b in w.attachments && w.attachments[a].session == w.attachments[b].session ==>
              a == b)
      && CompletedIffMade(w)
      && AttachmentsMade(w)
  {
    hide Run;
    RunSound(START, es);
    var w := Run(START, es).world;
    forall a, b | a in w.attachments && b in w.attachments && w.attachments[a].session == w.attachments[b].session
      ensures a == b
    {
      var i :| 0 <= i < |w.made| && w.made[i] == Creation(w.attachments[a].session, a);
      var j :| 0 <= j < |w.made| && w.made[j] == Creation(w.attachments[b].session, b);
      assert i == j;
    }
  }

  // ---- while no attachment is deleted ---------------------------------------------------------

  predicate HasAttachment(w: World, sid: Id) {
    exists a :: a in w.attachments && w.attachments[a].session == sid
  }

  predicate AllKept(w: World) {
    forall i :: 0 <= i < |w.made| ==>
      && w.made[i].attachment in w.attachments
      && w.attachments[w.made[i].attachment].session == w.made[i].session
  }

  lemma AdvanceKeeps(w: World, p: Process, drawn: Id)
    requires AllKept(w) && p.next < |p.call.items|
    ensures AllKept(Advanced(w, p, drawn).0)
  {
  }

  lemma NextKeeps(s: System, e: Event)
    requires AllKept(s.world) && !e.DropAttachment?
    ensures AllKept(Next(s, e).world)
  {
    hide Advanced, Admit;
    if e.Advance? && Running(s, e.p) {
      AdvanceKeeps(s.world, s.processes[e.p], e.drawn);
    }
  }

  lemma {:induction false} RunKeeps(s: System, es: seq<Event>)
    requires AllKept(s.world) && forall i :: 0 <= i < |es| ==> !es[i].DropAttachment?
    ensures AllKept(Run(s, es).world)
    decreases |es|
  {
    hide Next, AllKept;
    if es != [] {
      RunKeeps(s, es[..|es| - 1]);
      NextKeeps(Run(s, es[..|es| - 1]), es[|es| - 1]);
    }
  }

  /** Until an attachment is deleted, a session that is still there is completed exactly when it
      has its attachment. */
  lemma CompletedIffAttached(es: seq<Event>, sid: Id)
    requires forall i :: 0 <= i < |es| ==> !es[i].DropAttachment?
    requires sid in Run(START, es).world.sessions
    ensures Run(START, es).world.sessions[sid].completed <==> HasAttachment(Run(START, es).world, sid)
  {
    hide Run;
    RunSound(START, es);
    RunKeeps(START, es);
    var w := Run(START, es).world;
    if MadeFor(w, sid) {
      var i :| 0 <= i < |w.made| && w.made[i].session == sid;
      assert w.attachments[w.made[i].attachment].session == sid;
    }
    if HasAttachment(w, sid) {
      var a :| a in w.attachments && w.attachments[a].session == sid;
      var i :| 0 <= i < |w.made| && w.made[i] == Creation(sid, a);
      assert w.made[i].session == sid;
    }
  }

  // ---- the call as one undisturbed process ------------------------------------------------------

  /** The accesses that one item takes when nothing comes between: four when it goes through,
      and five are enough for it to stop. */
  function Turns(w: World, call: Call, sid: Id, p: nat, drawn: Id): seq<Event> {
    var e := Advance(p, drawn);
    if CompleteItem(w, call, sid, drawn).result.Ok? then [e, e, e, e] else [e, e, e, e, e]
  }

  /** Where the accesses of one item leave its call. */
  function After(proc: Process, item: Outcome<()>): Process {
    if item.result.Ok? then proc.(next := proc.next + 1, phase := Ready) else proc.(phase := Stopped(item.result.error))
  }

  lemma RunFour(s: System, e: Event)
    ensures Run(s, [e, e, e, e]) == Next(Next(Next(Next(s, e), e), e), e)
    ensures Run(s, [e, e, e, e, e]) == Next(Next(Next(Next(Next(s, e), e), e), e), e)
  {
    hide Next;
    var es := [e, e, e, e, e];
    assert es[..0] == [] && es[..4] == [e, e, e, e] && es[..5] == es;
    assert At(s, es, 0) == s;
    AtNext(s, es, 0);
    AtNext(s, es, 1);
    AtNext(s, es, 2);
    AtNext(s, es, 3);
    AtNext(s, es, 4);
  }

  /** One access of the call `p`. */
  lemma OneAccess(s: System, p: nat, drawn: Id)
    requires Running(s, p)
    ensures Next(s, Advance(p, drawn)) ==
      System(Advanced(s.world, s.processes[p], drawn).0, s.processes[p := Advanced(s.world, s.processes[p], drawn).1])
  {
  }

  /** The five accesses of a process on its own world. */
  lemma FiveSteps(w: World, proc: Process, drawn: Id)
    requires proc.phase.Ready? && proc.next < |proc.call.items|
    ensures var item := CompleteItem(w, proc.call, proc.call.items[proc.next], drawn);
      var (w1, p1) := Advanced(w, proc, drawn);
      var (w2, p2) := Advanced(w1, p1, drawn);
      var (w3, p3) := Advanced(w2, p2, drawn);
      var (w4, p4) := Advanced(w3, p3, drawn);
      && (item.result.Ok? ==> (w4, p4) == (item.world, After(proc, item)))
      && (item.result.Err? ==> p4.next == proc.next && Advanced(w4, p4, drawn) == (item.world, After(proc, item)))
  {
    hide Head, MagicFails, Commit;
  }

  /** Left alone, the accesses of a call do to one item what the call as a whole does, whether
      the item goes through or not. */
  lemma UndisturbedItem(s: System, p: nat, drawn: Id)
    requires Running(s, p) && s.processes[p].phase.Ready?
    ensures var proc := s.processes[p];
      var sid := proc.call.items[proc.next];
      var item := CompleteItem(s.world, proc.call, sid, drawn);
      Run(s, Turns(s.world, proc.call, sid, p, drawn)) == System(item.world, s.processes[p := After(proc, item)])
  {
    hide Run, Next, Advanced, CompleteItem;
    var proc, e := s.processes[p], Advance(p, drawn);
    FiveSteps(s.world, proc, drawn);
    RunFour(s, e);
    OneAccess(s, p, drawn);
    var s1 := Next(s, e);
    AccessKeepsItem(s.world, proc, drawn);
    OneAccess(s1, p, drawn);
    var s2 := Next(s1, e);
    AccessKeepsItem(s1.world, s1.processes[p], drawn);
    OneAccess(s2, p, drawn);
    var s3 := Next(s2, e);
    AccessKeepsItem(s2.world, s2.processes[p], drawn);
    OneAccess(s3, p, drawn);
    var s4 := Next(s3, e);
    if CompleteItem(s.world, proc.call, proc.call.items[proc.next], drawn).result.Err? {
      AccessKeepsCall(s3.world, s3.processes[p], drawn);
      OneAccess(s4, p, drawn);
    }
  }

  /** Only the transaction moves a call on to its next item. */
  lemma AccessKeepsItem(w: World, p: Process, drawn: Id)
    requires p.next < |p.call.items| && !p.phase.Passed?
    ensures var q := Advanced(w, p, drawn).1;
      && q.call == p.call && q.next == p.next
      && (p.phase.Ready? ==> q.phase.Loaded? || q.phase.Stopped?)
      && (p.phase.Loaded? ==> q.phase.Sized? || q.phase.Stopped?)
      && (p.phase.Stopped? ==> q.phase.Stopped?)
  {
  }

  lemma AccessKeepsCall(w: World, p: Process, drawn: Id)
    requires p.next < |p.call.items|
    ensures Advanced(w, p, drawn).1.call == p.call
  {
  }

  /** The accesses of a whole call from its item `k` on, when nothing comes between. */
  function CallTurns(w: World, call: Call, drawn: seq<Id>, k: nat, p: nat): seq<Event>
    requires |drawn| == |call.items| && k <= |drawn|
    decreases |drawn| - k
  {
    if k == |drawn| then []
    else
      var item := CompleteItem(w, call, call.items[k], drawn[k]);
      Turns(w, call, call.items[k], p, drawn[k])
      + if item.result.Ok? then CallTurns(item.world, call, drawn, k + 1, p) else []
  }

  /** Left alone, the accesses of a call do what the call as a whole does. */
  lemma {:induction false} UndisturbedCall(s: System, p: nat, drawn: seq<Id>)
    requires p in s.processes && s.processes[p].phase.Ready?
    requires |drawn| == |s.processes[p].call.items| && s.processes[p].next <= |drawn|
    ensures var proc := s.processes[p];
      var after := Run(s, CallTurns(s.world, proc.call, drawn, proc.next, p));
      && after.world == CompleteFrom(s.world, proc.call, drawn, proc.next).world
      && (forall q :: q != p ==>
            && (q in after.processes <==> q in s.processes)
            && (q in s.processes ==> after.processes[q] == s.processes[q]))
    decreases |drawn| - s.processes[p].next
  {
    hide Run, Next, CompleteItem, Turns;
    var proc := s.processes[p];
    if proc.next < |drawn| {
      var sid, id := proc.call.items[proc.next], drawn[proc.next];
      var item := CompleteItem(s.world, proc.call, sid, id);
      var turns := Turns(s.world, proc.call, sid, p, id);
      var next := System(item.world, s.processes[p := After(proc, item)]);
      UndisturbedItem(s, p, id);
      if item.result.Ok? {
        UndisturbedCall(next, p, drawn);
        RunAppend(s, turns, CallTurns(item.world, proc.call, drawn, proc.next + 1, p));
      } else {
        assert turns + [] == turns;
      }
    } else {
      RunNothing(s);
    }
  }

  lemma RunNothing(s: System)
    ensures Run(s, []) == s
  {
  }
}
