/** What an event does to its handler, read off the event and the answers from outside:
    which streams live on, which are closed, and what they are told. */
module EventLaws {
  import opened Registry
  import opened ReactorMgrs
  import opened SockEvents

  /** A stream with an event. Its socket answers the write, if there is one, and its
      reactor the read. It ends if it is broken, the write fails, its reactor refuses or
      breaks it, or the event is an error or an interrupt: then handler and registration
      are gone and it is told so, once. Otherwise it stays, wants to write exactly if it
      has bytes left, and nobody is told that it ended. */
  ghost predicate StreamFate(v: MgrView, w: MgrView, ev: Event, slot: nat, replies: nat -> Reply)
    requires slot in v.handlers && v.handlers[slot].StreamType?
  {
    var h := v.handlers[slot];
    var writes := ev.writable && h.queued > 0;
    var wrote, read := replies(v.asked), replies(if writes then v.asked + 1 else v.asked);
    var left := if writes && wrote.ok && wrote.more <= h.queued then h.queued - wrote.more else h.queued;
    var queued := left + if ev.readable then read.more else 0;
    var ends :=
      || h.broken || ev.isErr || ev.isInterrupt
      || (writes && !wrote.ok)
      || (ev.readable && (!read.ok || read.failed));
    && w.asked == v.asked + (if writes then 1 else 0) + (if ev.readable then 1 else 0)
    && w.trace == v.trace
         + (if writes then [Flushed(h.id, wrote.ok, left)] else [])
         + (if ev.readable then [Readable(h.id, read)] else [])
         + (if ends then [Closed(h.id)] else [])
    && w.served == v.served + [h.id]
    && h.sock in v.poller
    && (ends ==> w.handlers == v.handlers - {slot} && w.poller == v.poller - {h.sock})
    && (!ends ==>
          var polled := queued > 0 && (v.poller[h.sock].writable || !(h.interestedWritable || ev.writable));
          && w.handlers == v.handlers[slot := StreamType(h.id, h.sock, queued > 0, queued, false)]
          && w.poller == v.poller[h.sock := Registration(ev.key, polled)])
  }

  /** A listener with an event. If it is readable and its reactor keeps the connection,
      there is a new stream, unless that one refuses, and the listener stays. Otherwise
      the listener ends exactly if the event is about writing, an error or an interrupt.
      `id` and `sock` are those of the new stream. */
  ghost predicate ListenerFate(v: MgrView, w: MgrView, ev: Event, slot: nat, id: ReactorID, sock: nat,
                               replies: nat -> Reply)
    requires slot in v.handlers && v.handlers[slot].ListenerType?
  {
    var h := v.handlers[slot];
    var keeps, answer := ev.readable && replies(v.asked).ok, replies(v.asked + 1);
    var ends := !keeps && (ev.writable || ev.isErr || ev.isInterrupt);
    && w.asked == v.asked + (if ev.readable then 1 else 0) + (if keeps then 1 else 0)
    && w.trace == v.trace
         + (if ev.readable then [NewConnection(h.id, keeps)] else [])
         + (if keeps then [Connected(id, h.id, answer)] else [])
         + (if keeps && !answer.ok then [Closed(id)] else [])
         + (if ends then [Closed(h.id)] else [])
    && w.served == v.served + [h.id]
    && h.sock in v.poller
    && (keeps ==> id.sockslot !in v.handlers && sock !in v.poller)
    && (ends ==> w.handlers == v.handlers - {slot} && w.poller == v.poller - {h.sock})
    && (keeps && answer.ok ==>
          && w.handlers == v.handlers[id.sockslot := StreamType(id, sock, false, answer.more, answer.failed)]
          && w.poller == v.poller[sock := Registration(ToUsize(id), false)])
    && (!ends && !(keeps && answer.ok) ==> w.handlers == v.handlers && w.poller == v.poller)
  }

  lemma StreamEnds(v: MgrView, w: MgrView, ev: Event, report: Report, replies: nat -> Reply)
    requires Outcome(v, w, ev, report, replies) && Meets(v.handlers, ev)
    requires v.handlers[FromUsize(ev.key).sockslot].StreamType?
    ensures StreamFate(v, w, ev, FromUsize(ev.key).sockslot, replies)
  {}

  lemma ListenerEnds(v: MgrView, w: MgrView, ev: Event, report: Report, replies: nat -> Reply)
    returns (id: ReactorID, sock: nat)
    requires Outcome(v, w, ev, report, replies) && Meets(v.handlers, ev)
    requires v.handlers[FromUsize(ev.key).sockslot].ListenerType?
    ensures ListenerFate(v, w, ev, FromUsize(ev.key).sockslot, id, sock, replies)
  {
    id, sock := report.newId, report.newSock;
  }

  /** The fate of the handler that an event is for. */
  ghost predicate Fate(v: MgrView, w: MgrView, ev: Event, id: ReactorID, sock: nat, replies: nat -> Reply)
    requires Meets(v.handlers, ev)
  {
    var slot := FromUsize(ev.key).sockslot;
    if v.handlers[slot].StreamType? then StreamFate(v, w, ev, slot, replies)
    else ListenerFate(v, w, ev, slot, id, sock, replies)
  }

  lemma EventDecides(v: MgrView, w: MgrView, ev: Event, report: Report, replies: nat -> Reply)
    returns (id: ReactorID, sock: nat)
    requires Outcome(v, w, ev, report, replies) && Meets(v.handlers, ev)
    ensures Fate(v, w, ev, id, sock, replies)
  {
    hide Outcome, StreamFate, ListenerFate;
    id, sock := INVALID_REACTOR_ID, 0;
    if v.handlers[FromUsize(ev.key).sockslot].StreamType? {
      StreamEnds(v, w, ev, report, replies);
    } else {
      id, sock := ListenerEnds(v, w, ev, report, replies);
    }
  }

  // ---------------------------------------------------------- within a batch

  /** From `b` to `w` nothing has been taken back of what was told, and the event's
      handler, if it was left, is as it was. */
  ghost predicate StaysFrom(b: MgrView, w: MgrView, ev: Event) {
    b.trace <= w.trace && (Meets(b.handlers, ev) ==> Untouched(b, w, ev))
  }

  lemma OutcomeTells(v: MgrView, w: MgrView, ev: Event, report: Report, replies: nat -> Reply)
    requires Outcome(v, w, ev, report, replies)
    ensures v.trace <= w.trace
  {}

  lemma StaysFurther(b: MgrView, u: MgrView, w: MgrView, ev: Event, other: Event, report: Report,
                     replies: nat -> Reply)
    requires StaysFrom(b, u, ev) && Outcome(u, w, other, report, replies) && OwnSockets(u.handlers, u.poller)
    requires Meets(u.handlers, other) && other.key != ev.key
    ensures StaysFrom(b, w, ev)
  {
    hide Outcome, OwnSockets, PolledToWrite;
    OutcomeTells(u, w, other, report, replies);
    if Meets(b.handlers, ev) {
      OthersUntouched(u, w, other, report, ev, replies);
    }
  }

  lemma UntouchedMeets(v: MgrView, w: MgrView, ev: Event)
    requires Untouched(v, w, ev) && Meets(v.handlers, ev)
    ensures Meets(w.handlers, ev)
  {}

  /** Each event of a batch finds its handler as it was before the batch, decides its
      fate, from state `a` to state `b`, and no later event of the batch changes that. */
  lemma {:induction false} BatchDecides(v: MgrView, w: MgrView, events: seq<Event>, i: nat, replies: nat -> Reply)
    returns (a: MgrView, b: MgrView, id: ReactorID, sock: nat)
    requires Handled(v, w, events, replies) && OwnSockets(v.handlers, v.poller) && MeetsAll(v.handlers, events)
    requires i < |events|
    ensures Handled(v, a, events[..i], replies) && Untouched(v, a, events[i]) && Meets(a.handlers, events[i])
    ensures Fate(a, b, events[i], id, sock, replies)
    ensures StaysFrom(b, w, events[i])
    decreases |events|
  {
    var n := |events| - 1;
    var u, report := LastHandled(v, w, events, replies);
    BatchFront(v, events);
    hide Handled, Outcome, OwnSockets, Fate, Untouched, Meets, MeetsAll, StaysFrom;
    HandledLeaves(v, u, events[..n], events[n], replies);
    UntouchedMeets(v, u, events[n]);
    if i == n {
      a, b := u, w;
      id, sock := EventDecides(u, w, events[n], report, replies);
      SelfStays(w, events[n]);
    } else {
      a, b, id, sock := BatchDecides(v, u, events[..n], i, replies);
      assert events[..n][..i] == events[..i] && events[..n][i] == events[i];
      StaysFurther(b, u, w, events[i], events[n], report, replies);
    }
  }

  lemma BatchFront(v: MgrView, events: seq<Event>)
    requires MeetsAll(v.handlers, events) && events != []
    ensures var n := |events| - 1;
      && MeetsAll(v.handlers, events[..n]) && Meets(v.handlers, events[n])
      && (forall j :: 0 <= j < n ==> events[j].key != events[n].key)
      && (forall j :: 0 <= j < n ==> events[..n][j].key != events[n].key)
  {
    hide Meets;
  }

  lemma SelfStays(w: MgrView, ev: Event)
    ensures StaysFrom(w, w, ev)
  {}
}
