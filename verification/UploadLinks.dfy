/** When an attachment belongs to a message, and what that keeps the sweep from. */
module UploadLinks {
  import opened Wrappers
  import opened Upload
  import opened UploadRace
  import Gc

  /** The send at event `k` links attachment `a`, which is the sender's and not linked yet. */
  predicate SendLinks(es: seq<Event>, k: nat, a: Id, m: Id, at: int)
    requires k < |es|
  {
    var w := At(START, es, k).world;
    && es[k].Send? && es[k].m == m && es[k].at == at && m !in w.messages
    && a in es[k].links && |es[k].links| <= MAX_PER_MESSAGE && a in w.attachments
    && w.attachments[a].message.None? && w.attachments[a].uploader == es[k].author
    && w.attachments[a].channel == es[k].channel
  }

  /** Access `k` makes attachment `a` for a call that began, at event `b`, for that message. */
  predicate CallLinks(es: seq<Event>, b: nat, k: nat, a: Id, m: Id, at: int)
    requires b < k < |es|
  {
    && es[b].Begin? && es[b].body.message == Some(m) && es[b].now == at
    && es[k].Advance? && es[k].p == es[b].p && es[k].drawn == a && a !in At(START, es, k).world.attachments
  }

  ghost predicate LinkedBefore(es: seq<Event>, n: nat, a: Id, m: Id, at: int)
    requires n <= |es|
  {
    || (exists k :: 0 <= k < n && SendLinks(es, k, a, m, at))
    || (exists b, k :: 0 <= b < k < n && CallLinks(es, b, k, a, m, at))
  }

  /** A linked attachment has its message and its time from what linked it; one that is not linked
      has neither. */
  ghost predicate LinkTold(es: seq<Event>, n: nat, a: Id)
    requires n <= |es| && a in At(START, es, n).world.attachments
  {
    var att := At(START, es, n).world.attachments[a];
    && (att.linkedAt.Some? <==> att.message.Some?)
    && (att.message.Some? ==> LinkedBefore(es, n, a, att.message.value, att.linkedAt.value))
  }

  lemma LinkedLater(es: seq<Event>, n: nat, a: Id, m: Id, at: int)
    requires n < |es| && LinkedBefore(es, n, a, m, at)
    ensures LinkedBefore(es, n + 1, a, m, at)
  {
    hide SendLinks, CallLinks;
  }

  /** A call runs for what it was begun for. */
  lemma {:induction false} BegunAs(es: seq<Event>, n: nat, p: nat) returns (b: nat)
    requires n <= |es| && p in At(START, es, n).processes
    ensures var call := At(START, es, n).processes[p].call;
      b < n && es[b].Begin? && es[b].p == p && es[b].body.message == call.message && es[b].now == call.now
    decreases n
  {
    hide Run, At;
    if n == 0 {
      NobodyYet(es);
      assert false;
    } else {
      AtNext(START, es, n - 1);
      var s := At(START, es, n - 1);
      if p in s.processes {
        CallStays(s, es[n - 1], p);
        b := BegunAs(es, n - 1, p);
      } else {
        BeginsAs(s, es[n - 1], p);
        b := n - 1;
      }
    }
  }

  lemma NobodyYet(es: seq<Event>)
    ensures At(START, es, 0) == START
  {
  }

  lemma CallStays(s: System, e: Event, p: nat)
    requires p in s.processes
    ensures p in Next(s, e).processes && Next(s, e).processes[p].call == s.processes[p].call
  {
    hide Admit, Sent;
    if e.Advance? && Running(s, e.p) {
      AccessKeepsCall(s.world, s.processes[e.p], e.drawn);
    }
  }

  lemma BeginsAs(s: System, e: Event, p: nat)
    requires p !in s.processes && p in Next(s, e).processes
    ensures e.Begin? && e.p == p
    ensures var call := Next(s, e).processes[p].call; call.message == e.body.message && call.now == e.now
  {
    hide Sent, Advanced;
  }

  /** What one event does to an attachment's link: nothing, but for a send that names it and the
      access that makes it. */
  lemma LinkStep(s: System, e: Event, a: Id)
    requires a in Next(s, e).world.attachments
    ensures var att := Next(s, e).world.attachments[a];
      || (a in s.world.attachments && att.message == s.world.attachments[a].message
          && att.linkedAt == s.world.attachments[a].linkedAt)
      || (e.Send? && a in s.world.attachments && e.m !in s.world.messages && a in e.links
          && |e.links| <= MAX_PER_MESSAGE && s.world.attachments[a].message.None?
          && s.world.attachments[a].uploader == e.author && s.world.attachments[a].channel == e.channel
          && att.message == Some(e.m) && att.linkedAt == Some(e.at))
      || (e.Advance? && e.p in s.processes && e.drawn == a && a !in s.world.attachments
          && att.message == s.processes[e.p].call.message
          && att.linkedAt == if att.message.Some? then Some(s.processes[e.p].call.now) else None)
  {
    hide Admit, Look, Head, MagicFails, AttachedTo;
  }

  /** In every run, however calls, sends and cleanups interleave: an attachment has a link time
      exactly when it has a message, and that message and time are those of the send or of the
      call that linked it. */
  lemma {:induction false} LinksAreTold(es: seq<Event>, n: nat, a: Id)
    requires n <= |es| && a in At(START, es, n).world.attachments
    ensures LinkTold(es, n, a)
    decreases n
  {
    hide Run, At, Next;
    if n == 0 {
      NobodyYet(es);
      assert false;
    } else {
      AtNext(START, es, n - 1);
      var s, e := At(START, es, n - 1), es[n - 1];
      var att := Next(s, e).world.attachments[a];
      LinkStep(s, e, a);
      if a in s.world.attachments && att.message == s.world.attachments[a].message
        && att.linkedAt == s.world.attachments[a].linkedAt {
        LinksAreTold(es, n - 1, a);
        if att.message.Some? {
          LinkedLater(es, n - 1, a, att.message.value, att.linkedAt.value);
        }
      } else if e.Send? {
        assert SendLinks(es, n - 1, a, e.m, e.at);
      } else if att.message.Some? {
        var b := BegunAs(es, n - 1, e.p);
        assert CallLinks(es, b, n - 1, a, att.message.value, att.linkedAt.value);
      }
    }
  }

  // ---- the sweep ----------------------------------------------------------------------------------

  /** An attachment as the sweep reads it. */
  function AsSwept(att: Attachment, createdAt: int, key: Gc.Id): Gc.Attachment {
    Gc.Attachment(att.linkedAt, createdAt, key, false)
  }

  /** The sweep takes no attachment of a message for an orphan, and of the others those past the
      grace. */
  lemma OrphanIff(es: seq<Event>, n: nat, a: Id, createdAt: int, key: Gc.Id, now: int)
    requires n <= |es| && a in At(START, es, n).world.attachments
    ensures var att := At(START, es, n).world.attachments[a];
      Gc.Orphan(AsSwept(att, createdAt, key), now) <==> att.message.None? && createdAt < now - 24 * 60 * 60 * 1000
  {
    hide LinkedBefore, At;
    LinksAreTold(es, n, a);
  }
}
