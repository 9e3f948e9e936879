/** Upload sessions and the attachments they become: `complete` as one call, and any number of
    calls interleaved with each other and with the rest of the system. */
module Upload {
  import opened Wrappers

  type Id = nat

  const MAX_PER_MESSAGE := 10

  // ---- tables ---------------------------------------------------------------------------------

  /** What a session fixes when it is opened; `magicChecked` says whether its type has a signature. */
  datatype Info = Info(uploader: Id, channel: Id, size: nat, magicChecked: bool, expiresAt: int)

  datatype Session = Session(info: Info, completed: bool)

  /** A stored object; storage keys are built from session ids, so it is found by its session. */
  datatype Object = Object(length: nat, magicMatches: bool)

  datatype Attachment = Attachment(session: Id, channel: Id, uploader: Id, message: Option<Id>, linkedAt: Option<int>)

  datatype Message = Message(channel: Id, deleted: bool)

  datatype Creation = Creation(session: Id, attachment: Id)

  /** `issued` and `made` are history: every session ever opened and every attachment ever made. */
  datatype World = World(
    messages: map<Id, Message>,
    sessions: map<Id, Session>,
    objects: map<Id, Object>,
    attachments: map<Id, Attachment>,
    issued: map<Id, Info>,
    made: seq<Creation>)

  datatype UploadError =
    | MessageNotFound | ValidationFailed | Forbidden | CountExceeded
    | SessionNotFound | SessionExpired | NotUploaded | SizeMismatch | MimeMismatch
    | StoreConflict   // a unique id drawn twice, or a row gone before its delete

  datatype Call = Call(uploader: Id, channel: Id, message: Option<Id>, items: seq<Id>, now: int)

  // ---- the steps of one item ------------------------------------------------------------------

  function Look(w: World, call: Call, sid: Id): Result<Info, UploadError> {
    if sid !in w.sessions || w.sessions[sid].info.uploader != call.uploader
      || w.sessions[sid].info.channel != call.channel then
      Err(SessionNotFound)
    else if w.sessions[sid].completed then Err(SessionNotFound)
    else if w.sessions[sid].info.expiresAt <= call.now then Err(SessionExpired)
    else Ok(w.sessions[sid].info)
  }

  function Head(w: World, sid: Id, info: Info): Result<(), UploadError> {
    if sid !in w.objects then Err(NotUploaded)
    else if w.objects[sid].length != info.size then Err(SizeMismatch)
    else Ok(())
  }

  predicate MagicFails(w: World, sid: Id, info: Info) {
    info.magicChecked && (sid !in w.objects || !w.objects[sid].magicMatches)
  }

  datatype Outcome<T> = Outcome(world: World, result: Result<T, UploadError>)

  /** The transaction: close the session if it is still open, and make the attachment. */
  function Commit(w: World, call: Call, sid: Id, id: Id): Outcome<()> {
    if sid !in w.sessions || w.sessions[sid].completed then Outcome(w, Err(SessionNotFound))
    else if id in w.attachments then Outcome(w, Err(StoreConflict))
    else
      var linkedAt := if call.message.Some? then Some(call.now) else None;
      Outcome(
        w.(sessions := w.sessions[sid := w.sessions[sid].(completed := true)],
           attachments := w.attachments[id := Attachment(sid, call.channel, call.uploader, call.message, linkedAt)],
           made := w.made + [Creation(sid, id)]),
        Ok(()))
  }

  function RemoveSession(w: World, sid: Id): Outcome<()> {
    if sid !in w.sessions then Outcome(w, Err(StoreConflict))
    else Outcome(w.(sessions := w.sessions - {sid}), Err(MimeMismatch))
  }

  function CompleteItem(w: World, call: Call, sid: Id, id: Id): Outcome<()> {
    var looked := Look(w, call, sid);
    if looked.Err? then Outcome(w, Err(looked.error))
    else
      var head := Head(w, sid, looked.value);
      if head.Err? then Outcome(w, Err(head.error))
      else if MagicFails(w, sid, looked.value) then RemoveSession(w.(objects := w.objects - {sid}), sid)
      else Commit(w, call, sid, id)
  }

  /** The loop over the items from `k` on; `drawn` are the attachment ids it draws. */
  function CompleteFrom(w: World, call: Call, drawn: seq<Id>, k: nat): Outcome<seq<Id>>
    requires |drawn| == |call.items| && k <= |drawn|
    decreases |drawn| - k
  {
    if k == |drawn| then Outcome(w, Ok(drawn))
    else
      var item := CompleteItem(w, call, call.items[k], drawn[k]);
      if item.result.Err? then Outcome(item.world, Err(item.result.error))
      else CompleteFrom(item.world, call, drawn, k + 1)
  }

  // ---- the whole call --------------------------------------------------------------------------

  datatype Body = Body(message: Option<Id>, target: Option<Id>, items: seq<Id>)

  function AttachedTo(attachments: map<Id, Attachment>, message: Id): set<Id> {
    set a | a in attachments && attachments[a].message == Some(message)
  }

  /** Where the attachments go, and whether they may; `mayUpload` is the access check. */
  function Admit(w: World, uploader: Id, route: Id, body: Body, now: int, mayUpload: bool): Result<Call, UploadError> {
    if body.message.Some? && (body.message.value !in w.messages || w.messages[body.message.value].deleted) then
      Err(MessageNotFound)
    else if body.message.None? && body.target.None? then Err(ValidationFailed)
    else
      var channel := if body.message.Some? then w.messages[body.message.value].channel else body.target.value;
      var existing := if body.message.Some? then |AttachedTo(w.attachments, body.message.value)| else 0;
      if channel != route then Err(ValidationFailed)
      else if !mayUpload then Err(Forbidden)
      else if existing + |body.items| > MAX_PER_MESSAGE then Err(CountExceeded)
      else Ok(Call(uploader, channel, body.message, body.items, now))
  }

  class UploadService {
    var messages: map<Id, Message>
    var sessions: map<Id, Session>
    var objects: map<Id, Object>
    var attachments: map<Id, Attachment>
    ghost var issued: map<Id, Info>
    ghost var made: seq<Creation>

    ghost function State(): World
      reads this
    {
      World(messages, sessions, objects, attachments, issued, made)
    }

    /** `complete`; `drawn` are the attachment ids it draws. */
    method Complete(uploader: Id, route: Id, body: Body, now: int, mayUpload: bool, drawn: seq<Id>)
      returns (r: Result<seq<Id>, UploadError>)
      requires |drawn| == |body.items|
      modifies this`sessions, this`objects, this`attachments, this`made
      ensures var call := Admit(old(State()), uploader, route, body, now, mayUpload);
        if call.Err? then State() == old(State()) && r == Err(call.error)
        else Outcome(State(), r) == CompleteFrom(old(State()), call.value, drawn, 0)
    {
      var channel: Id;
      var existing := 0;
      if body.message.Some? {
        var m := body.message.value;
        if m !in messages || messages[m].deleted {
          return Err(MessageNotFound);
        }
        channel := messages[m].channel;
        existing := |AttachedTo(attachments, m)|;
      } else if body.target.Some? {
        channel := body.target.value;
      } else {
        return Err(ValidationFailed);
      }
      if channel != route {
        return Err(ValidationFailed);
      }
      if !mayUpload {
        return Err(Forbidden);
      }
      if existing + |body.items| > MAX_PER_MESSAGE {
        return Err(CountExceeded);
      }
      var call := Call(uploader, channel, body.message, body.items, now);
      r := CompleteSessions(call, drawn);
    }

    method CompleteSessions(call: Call, drawn: seq<Id>) returns (r: Result<seq<Id>, UploadError>)
      requires |drawn| == |call.items|
      modifies this`sessions, this`objects, this`attachments, this`made
      ensures Outcome(State(), r) == CompleteFrom(old(State()), call, drawn, 0)
    {
      hide CompleteItem;
      var attachmentIds := [];
      var k := 0;
      while k < |call.items|
        invariant k <= |drawn| && attachmentIds == drawn[..k]
        invariant CompleteFrom(old(State()), call, drawn, 0) == CompleteFrom(State(), call, drawn, k)
      {
        var item := CompleteSession(call, call.items[k], drawn[k]);
        if item.Err? {
          return Err(item.error);
        }
        attachmentIds := attachmentIds + [drawn[k]];
        k := k + 1;
      }
      assert drawn[..k] == drawn;
      r := Ok(attachmentIds);
    }

    method CompleteSession(call: Call, sid: Id, attachmentId: Id) returns (r: Result<(), UploadError>)
      modifies this`sessions, this`objects, this`attachments, this`made
      ensures Outcome(State(), r) == CompleteItem(old(State()), call, sid, attachmentId)
    {
      if sid !in sessions || sessions[sid].info.uploader != call.uploader
        || sessions[sid].info.channel != call.channel {
        return Err(SessionNotFound);
      }
      var session := sessions[sid];
      if session.completed {
        return Err(SessionNotFound);
      }
      if session.info.expiresAt <= call.now {
        return Err(SessionExpired);
      }
      if sid !in objects {
        return Err(NotUploaded);
      }
      if objects[sid].length != session.info.size {
        return Err(SizeMismatch);
      }
      if session.info.magicChecked && !objects[sid].magicMatches {
        objects := objects - {sid};
        sessions := sessions - {sid};
        return Err(MimeMismatch);
      }
      if attachmentId in attachments {
        return Err(StoreConflict);
      }
      sessions := sessions[sid := session.(completed := true)];
      var linkedAt := if call.message.Some? then Some(call.now) else None;
      attachments := attachments[attachmentId := Attachment(sid, call.channel, call.uploader, call.message, linkedAt)];
      made := made + [Creation(sid, attachmentId)];
      r := Ok(());
    }
  }

  // ---- what one undisturbed call does ----------------------------------------------------------

  /** A session that a call can complete. */
  predicate Completable(w: World, call: Call, sid: Id) {
    && sid in w.sessions
    && var s := w.sessions[sid];
       && s.info.uploader == call.uploader && s.info.channel == call.channel
       && !s.completed && s.info.expiresAt > call.now
       && sid in w.objects && w.objects[sid].length == s.info.size
       && (s.info.magicChecked ==> w.objects[sid].magicMatches)
  }

  lemma ItemOkIff(w: World, call: Call, sid: Id, id: Id)
    ensures var item := CompleteItem(w, call, sid, id);
      && (item.result.Ok? <==> Completable(w, call, sid) && id !in w.attachments)
      && (item.result.Ok? ==> item == Commit(w, call, sid, id))
  {
  }

  /** A completed item takes its own session out of reach and leaves the others as they were. */
  lemma CommitLeavesOthers(w: World, call: Call, sid: Id, id: Id, other: Id)
    requires Commit(w, call, sid, id).result.Ok?
    ensures Completable(Commit(w, call, sid, id).world, call, other) <==> other != sid && Completable(w, call, other)
  {
  }

  predicate AllCompletable(w: World, call: Call, drawn: seq<Id>, k: nat)
    requires |drawn| == |call.items|
  {
    && (forall i :: k <= i < |drawn| ==> Completable(w, call, call.items[i]) && drawn[i] !in w.attachments)
    && (forall i, j :: k <= i < j < |drawn| ==> call.items[i] != call.items[j] && drawn[i] != drawn[j])
  }

  lemma {:induction false} LoopOkIff(w: World, call: Call, drawn: seq<Id>, k: nat)
    requires |drawn| == |call.items| && k <= |drawn|
    ensures var all := CompleteFrom(w, call, drawn, k);
      && (all.result.Ok? <==> AllCompletable(w, call, drawn, k))
      && (all.result.Ok? ==> all.result == Ok(drawn))
    decreases |drawn| - k
  {
    hide CompleteItem, Commit, Completable;
    if k < |drawn| {
      var sid, id := call.items[k], drawn[k];
      ItemOkIff(w, call, sid, id);
      if Completable(w, call, sid) && id !in w.attachments {
        var next := Commit(w, call, sid, id).world;
        CommitOk(w, call, sid, id);
        LoopOkIff(next, call, drawn, k + 1);
        forall i | k < i < |drawn|
          ensures Completable(next, call, call.items[i]) <==>
            call.items[i] != sid && Completable(w, call, call.items[i])
        {
          CommitLeavesOthers(w, call, sid, id, call.items[i]);
        }
        AllCompletableSplit(w, next, call, drawn, k);
      }
    }
  }

  lemma CommitOk(w: World, call: Call, sid: Id, id: Id)
    requires Completable(w, call, sid) && id !in w.attachments
    ensures var item := Commit(w, call, sid, id);
      item.result.Ok? && forall a :: a in item.world.attachments <==> a == id || a in w.attachments
  {
  }

  lemma AllCompletableSplit(w: World, next: World, call: Call, drawn: seq<Id>, k: nat)
    requires |drawn| == |call.items| && k < |drawn|
    requires Completable(w, call, call.items[k]) && drawn[k] !in w.attachments
    requires forall a :: a in next.attachments <==> a == drawn[k] || a in w.attachments
    requires forall i :: k < i < |drawn| ==>
      (Completable(next, call, call.items[i]) <==>
        call.items[i] != call.items[k] && Completable(w, call, call.items[i]))
    ensures AllCompletable(w, call, drawn, k) <==> AllCompletable(next, call, drawn, k + 1)
  {
    hide Completable;
    if AllCompletable(w, call, drawn, k) {
      forall i | k + 1 <= i < |drawn| ensures Completable(next, call, call.items[i]) && drawn[i] !in next.attachments {
        assert call.items[k] != call.items[i] && drawn[k] != drawn[i];
      }
    }
    if AllCompletable(next, call, drawn, k + 1) {
      forall i | k + 1 <= i < |drawn|
        ensures Completable(w, call, call.items[i]) && drawn[i] !in w.attachments
        ensures call.items[k] != call.items[i] && drawn[k] != drawn[i]
      {
        assert Completable(next, call, call.items[i]) && drawn[i] !in next.attachments;
      }
    }
  }

  /** An undisturbed call succeeds exactly when every listed session can be completed and none is
      listed twice (ids being drawn fresh), and it then answers one attachment a session. */
  lemma CompleteOkIff(w: World, call: Call, drawn: seq<Id>)
    requires |drawn| == |call.items|
    requires forall i, j :: 0 <= i < j < |drawn| ==> drawn[i] != drawn[j]
    requires forall i :: 0 <= i < |drawn| ==> drawn[i] !in w.attachments
    ensures CompleteFrom(w, call, drawn, 0).result.Ok? <==>
      && (forall i :: 0 <= i < |call.items| ==> Completable(w, call, call.items[i]))
      && (forall i, j :: 0 <= i < j < |call.items| ==> call.items[i] != call.items[j])
    ensures CompleteFrom(w, call, drawn, 0).result.Ok? ==> CompleteFrom(w, call, drawn, 0).result == Ok(drawn)
  {
    hide Completable, CompleteFrom;
    LoopOkIff(w, call, drawn, 0);
    assert AllCompletable(w, call, drawn, 0) <==>
      && (forall i :: 0 <= i < |call.items| ==> Completable(w, call, call.items[i]))
      && (forall i, j :: 0 <= i < j < |call.items| ==> call.items[i] != call.items[j]);
  }

  lemma AttachOne(attachments: map<Id, Attachment>, id: Id, att: Attachment, message: Id)
    requires id !in attachments
    ensures |AttachedTo(attachments[id := att], message)| ==
      |AttachedTo(attachments, message)| + if att.message == Some(message) then 1 else 0
  {
    assert AttachedTo(attachments[id := att], message)
      == AttachedTo(attachments, message) + if att.message == Some(message) then {id} else {};
  }

  lemma ItemAttachesOne(w: World, call: Call, sid: Id, id: Id, message: Id)
    ensures var item := CompleteItem(w, call, sid, id);
      |AttachedTo(item.world.attachments, message)| ==
        |AttachedTo(w.attachments, message)| + if item.result.Ok? && call.message == Some(message) then 1 else 0
  {
    hide AttachedTo;
    var item := CompleteItem(w, call, sid, id);
    if item.result.Ok? {
      AttachOne(w.attachments, id, item.world.attachments[id], message);
    }
  }

  lemma {:induction false} LoopAttaches(w: World, call: Call, drawn: seq<Id>, k: nat, message: Id)
    requires |drawn| == |call.items| && k <= |drawn|
    ensures var all := CompleteFrom(w, call, drawn, k);
      var before, after := |AttachedTo(w.attachments, message)|, |AttachedTo(all.world.attachments, message)|;
      && before <= after <= before + |drawn| - k
      && (all.result.Ok? && call.message == Some(message) ==> after == before + |drawn| - k)
    decreases |drawn| - k
  {
    hide CompleteItem, AttachedTo;
    if k < |drawn| {
      ItemAttachesOne(w, call, call.items[k], drawn[k], message);
      LoopAttaches(CompleteItem(w, call, call.items[k], drawn[k]).world, call, drawn, k + 1, message);
    }
  }

  /** Nobody else at work, a message never gets more than ten attachments, however far an
      admitted call comes. */
  lemma AtMostTen(w: World, uploader: Id, route: Id, body: Body, now: int, mayUpload: bool, drawn: seq<Id>, message: Id)
    requires |drawn| == |body.items| && body.message == Some(message)
    requires Admit(w, uploader, route, body, now, mayUpload).Ok?
    ensures var call := Admit(w, uploader, route, body, now, mayUpload).value;
      |AttachedTo(CompleteFrom(w, call, drawn, 0).world.attachments, message)| <= MAX_PER_MESSAGE
  {
    hide CompleteFrom, AttachedTo;
    LoopAttaches(w, Admit(w, uploader, route, body, now, mayUpload).value, drawn, 0, message);
  }

  /** A completed item leaves the other sessions completable, by any call, and the other
      attachments where they are. */
  lemma ItemLeavesOthers(w: World, call: Call, sid: Id, id: Id, byCall: Call, other: Id, a: Id)
    requires CompleteItem(w, call, sid, id).result.Ok? && other != sid && a != id
    ensures var after := CompleteItem(w, call, sid, id).world;
      && (Completable(after, byCall, other) <==> Completable(w, byCall, other))
      && (a in after.attachments <==> a in w.attachments)
  {
  }

  lemma {:induction false} LoopLeavesOthers(w: World, call: Call, drawn: seq<Id>, k: nat, byCall: Call, other: Id,
        a: Id)
    requires |drawn| == |call.items| && k <= |drawn|
    requires CompleteFrom(w, call, drawn, k).result.Ok?
    requires forall i :: k <= i < |drawn| ==> call.items[i] != other && drawn[i] != a
    ensures var after := CompleteFrom(w, call, drawn, k).world;
      && (Completable(after, byCall, other) <==> Completable(w, byCall, other))
      && (a in after.attachments <==> a in w.attachments)
    decreases |drawn| - k
  {
    hide CompleteItem, Completable;
    if k < |drawn| {
      var item := CompleteItem(w, call, call.items[k], drawn[k]);
      ItemLeavesOthers(w, call, call.items[k], drawn[k], byCall, other, a);
      LoopLeavesOthers(item.world, call, drawn, k + 1, byCall, other, a);
    }
  }
}
