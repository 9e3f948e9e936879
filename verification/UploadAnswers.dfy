/** What `complete` answers, read off the tables, and what it leaves behind when it fails. */
module UploadAnswers {
  import opened Wrappers
  import opened Upload
  import opened UploadRace

  /** Where the attachments would go, and the first thing that stands against it. */
  lemma AdmitAnswers(w: World, uploader: Id, route: Id, body: Body, now: int, mayUpload: bool)
    ensures var r := Admit(w, uploader, route, body, now, mayUpload);
      var gone := body.message.Some? && (body.message.value !in w.messages || w.messages[body.message.value].deleted);
      && (r == Err(MessageNotFound) <==> gone)
      && (body.message.None? && body.target.None? ==> r == Err(ValidationFailed))
      && (!gone && (body.message.Some? || body.target.Some?) ==>
            var channel := if body.message.Some? then w.messages[body.message.value].channel else body.target.value;
            var full := body.message.Some? && |set a | a in w.attachments && w.attachments[a].message == body.message|
              + |body.items| > 10;
            var many := body.message.None? && |body.items| > 10;
            && (r == Err(ValidationFailed) <==> channel != route)
            && (r == Err(Forbidden) <==> channel == route && !mayUpload)
            && (r == Err(CountExceeded) <==> channel == route && mayUpload && (full || many))
            && (r.Ok? <==> channel == route && mayUpload && !full && !many)
            && (r.Ok? ==> r.value == Call(uploader, route, body.message, body.items, now)))
  {
    if body.message.Some? {
      assert AttachedTo(w.attachments, body.message.value)
        == set a | a in w.attachments && w.attachments[a].message == body.message;
    }
  }

  /** The session is the caller's, for the call's channel, and still open. */
  predicate IsOpenFor(w: World, call: Call, sid: Id) {
    && sid in w.sessions && !w.sessions[sid].completed
    && w.sessions[sid].info.uploader == call.uploader && w.sessions[sid].info.channel == call.channel
  }

  predicate IsUploaded(w: World, sid: Id) {
    sid in w.sessions && sid in w.objects && w.objects[sid].length == w.sessions[sid].info.size
  }

  /** One item: which check fails, and what is left of session and object. */
  lemma ItemAnswers(w: World, call: Call, sid: Id, id: Id)
    ensures var item := CompleteItem(w, call, sid, id);
      && (item.result == Err(SessionNotFound) <==> !IsOpenFor(w, call, sid))
      && (IsOpenFor(w, call, sid) ==>
            var info := w.sessions[sid].info;
            var late := info.expiresAt <= call.now;
            var forged := info.magicChecked && sid in w.objects && !w.objects[sid].magicMatches;
            && (item.result == Err(SessionExpired) <==> late)
            && (item.result == Err(NotUploaded) <==> !late && sid !in w.objects)
            && (item.result == Err(SizeMismatch) <==> !late && sid in w.objects && !IsUploaded(w, sid))
            && (item.result == Err(MimeMismatch) <==> !late && IsUploaded(w, sid) && forged)
            && (item.result == Err(StoreConflict) <==>
                  !late && IsUploaded(w, sid) && !forged && id in w.attachments)
            && (item.result.Ok? <==> !late && IsUploaded(w, sid) && !forged && id !in w.attachments))
      && (item.result == Err(MimeMismatch) ==>
            item.world == w.(objects := w.objects - {sid}, sessions := w.sessions - {sid}))
      && (item.result.Err? && item.result != Err(MimeMismatch) ==> item.world == w)
  {
  }

  /** A completed item closes its session and makes one attachment: of the session, in the call's
      channel, by its caller, linked now to its message if it has one, and else not linked. */
  lemma ItemMakes(w: World, call: Call, sid: Id, id: Id)
    requires CompleteItem(w, call, sid, id).result.Ok?
    ensures var after := CompleteItem(w, call, sid, id).world;
      && id !in w.attachments && after.attachments.Keys == w.attachments.Keys + {id}
      && (forall a :: a in w.attachments ==> after.attachments[a] == w.attachments[a])
      && after.attachments[id].session == sid
      && after.attachments[id].channel == call.channel && after.attachments[id].uploader == call.uploader
      && after.attachments[id].message == call.message
      && (after.attachments[id].linkedAt == if call.message.Some? then Some(call.now) else None)
      && sid in after.sessions && after.sessions[sid].completed && after.sessions[sid].info == w.sessions[sid].info
      && (forall s :: s != sid ==> (s in after.sessions <==> s in w.sessions))
      && (forall s :: s != sid && s in w.sessions ==> after.sessions[s] == w.sessions[s])
      && after.objects == w.objects && after.messages == w.messages
  {
  }

  /** A call that fails at an item keeps what the items before it made, and stops there. */
  lemma {:induction false} CallStops(w: World, call: Call, drawn: seq<Id>, k: nat)
    requires |drawn| == |call.items| && k < |drawn|
    ensures var item := CompleteItem(w, call, call.items[k], drawn[k]);
      && (item.result.Err? ==> CompleteFrom(w, call, drawn, k) == Outcome(item.world, Err(item.result.error)))
      && (item.result.Ok? && k + 1 == |drawn| ==> CompleteFrom(w, call, drawn, k) == Outcome(item.world, Ok(drawn)))
  {
    hide CompleteItem;
  }

  // ---- what others do meanwhile -------------------------------------------------------------------

  /** A call that comes to an object or a session after its deletion finds it gone. */
  lemma DroppedIsGone(s: System, sid: Id, call: Call, info: Info)
    ensures Head(Next(s, DropObject(sid)).world, sid, info) == Err(NotUploaded)
    ensures Look(Next(s, DropSession(sid)).world, call, sid) == Err(SessionNotFound)
  {
  }

  /** A send links every attachment it names that is the sender's, in its channel and not linked
      yet, and leaves all others. */
  lemma SendDoesLink(s: System, m: Id, author: Id, channel: Id, links: set<Id>, at: int, a: Id)
    requires m !in s.world.messages && |links| <= 10 && a in s.world.attachments
    ensures var after, att := Next(s, Send(m, author, channel, links, at)).world, s.world.attachments[a];
      && m in after.messages && a in after.attachments
      && after.attachments[a] ==
           if a in links && att.message.None? && att.uploader == author && att.channel == channel then
             att.(message := Some(m), linkedAt := Some(at))
           else att
  {
  }

  /** A deletion takes what it names and nothing else. */
  lemma DropsOnlyThat(s: System, e: Event)
    requires e.DropObject? || e.DropSession? || e.DropAttachment? || e.DeleteMessage?
    ensures var w, after := s.world, Next(s, e).world;
      && after.objects == (if e.DropObject? then w.objects - {e.sid} else w.objects)
      && after.sessions == (if e.DropSession? then w.sessions - {e.sid} else w.sessions)
      && after.attachments == (if e.DropAttachment? then w.attachments - {e.a} else w.attachments)
      && after.messages.Keys == w.messages.Keys
      && (e.DeleteMessage? && e.m in w.messages ==> after.messages[e.m].deleted)
      && Next(s, e).processes == s.processes
  {
  }
}
