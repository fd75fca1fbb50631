/** ReactRuntime::process_sock_events of src/reactor.rs: one batch of events. */
module SockEvents {
  import opened FlatStorages
  import opened Registry
  import opened Commands
  import opened ReactorMgrs
  import Sending

  datatype Event = Event(key: nat, readable: bool, writable: bool, isErr: bool, isInterrupt: bool)

  /** How send_queued ends: with an error, which also breaks the sender, or with
      `left` bytes in the buffer. */
  datatype Flush = Flush(ok: bool, left: nat)

  /** What came of an event: the answers of the socket and of the user's code. */
  datatype Report =
    | Missing
    | AtListener(kept: bool, newId: ReactorID, newSock: nat, reply: Reply)
    | AtStream(flush: Flush, reply: Reply)

  // ------------------------------------------------------ what an event does

  predicate Flushes(h: Handler, ev: Event) { h.StreamType? && ev.writable && h.queued > 0 }

  function Queued(h: Handler, ev: Event, flush: Flush, reply: Reply): nat
    requires h.StreamType?
  {
    (if Flushes(h, ev) then flush.left else h.queued) + (if ev.readable then reply.more else 0)
  }

  /** A stream is given up on a failed send or if its reactor says so. */
  predicate GivesUp(h: Handler, ev: Event, flush: Flush, reply: Reply)
    requires h.StreamType?
  {
    h.broken || (Flushes(h, ev) && !flush.ok) || (ev.readable && (!reply.ok || reply.failed))
  }

  /** A stream after an event that it survives: it wants to be told when it can
      write exactly if it has bytes to write. */
  function Served(h: Handler, ev: Event, flush: Flush, reply: Reply): Handler
    requires h.StreamType?
  {
    var queued := Queued(h, ev, flush, reply);
    StreamType(h.id, h.sock, queued > 0, queued, false)
  }

  /** Whether it is then polled for writing. */
  predicate PolledForWriting(h: Handler, ev: Event, flush: Flush, reply: Reply, before: bool)
    requires h.StreamType?
  {
    Queued(h, ev, flush, reply) > 0 && (before || !(h.interestedWritable || ev.writable))
  }

  predicate Closes(h: Handler, ev: Event, report: Report) {
    match report
    case Missing => false
    case AtListener(kept, _, _, _) => !kept && (ev.writable || ev.isErr || ev.isInterrupt)
    case AtStream(flush, reply) => h.StreamType? && (GivesUp(h, ev, flush, reply) || ev.isErr || ev.isInterrupt)
  }

  /** The handlers after an event for the one in `slot`. */
  ghost function After(hs: Handlers, slot: nat, ev: Event, report: Report): Handlers
    requires slot in hs && (report.AtStream? ==> hs[slot].StreamType?)
  {
    if Closes(hs[slot], ev, report) then hs - {slot}
    else
      match report
      case Missing => hs
      case AtListener(kept, id, sock, reply) =>
        if kept && reply.ok then hs[id.sockslot := StreamType(id, sock, false, reply.more, reply.failed)] else hs
      case AtStream(flush, reply) => hs[slot := Served(hs[slot], ev, flush, reply)]
  }

  /** The registrations after an event for `h`. */
  ghost function PollerAfter(poller: Registrations, h: Handler, ev: Event, report: Report): Registrations
    requires h.sock in poller && (report.AtStream? ==> h.StreamType?)
  {
    if Closes(h, ev, report) then poller - {h.sock}
    else
      match report
      case Missing => poller
      case AtListener(kept, id, sock, reply) =>
        if kept && reply.ok then poller[sock := Registration(ToUsize(id), false)] else poller
      case AtStream(flush, reply) =>
        poller[h.sock := Registration(ev.key, PolledForWriting(h, ev, flush, reply, poller[h.sock].writable))]
  }

  ghost function Calls(h: Handler, ev: Event, id: ReactorID, report: Report): seq<Upcall> {
    (match report
     case Missing => []
     case AtListener(kept, newId, _, reply) =>
       (if ev.readable then [NewConnection(h.id, kept)] else [])
       + (if kept then [Connected(newId, id, reply)] + (if reply.ok then [] else [Closed(newId)]) else [])
     case AtStream(flush, reply) =>
       (if Flushes(h, ev) then [Flushed(h.id, flush.ok, flush.left)] else [])
       + (if ev.readable then [Readable(h.id, reply)] else []))
    + (if Closes(h, ev, report) then [Closed(id)] else [])
  }

  /** How the socket's answer to a write is seen here. */
  function FlushOf(h: Handler, reply: Reply): Flush
    requires h.StreamType?
  {
    Flush(reply.ok, if reply.ok && reply.more <= h.queued then h.queued - reply.more else h.queued)
  }

  /** What a stream's socket and reactor answer to an event: the next answers from
      outside, as many as it has questions. */
  function StreamAnswers(h: Handler, ev: Event, replies: nat -> Reply, asked: nat): (r: (Flush, Reply, nat))
    requires h.StreamType?
  {
    var read := if Flushes(h, ev) then asked + 1 else asked;
    (
      if Flushes(h, ev) then FlushOf(h, replies(asked)) else Flush(true, 0),
      if ev.readable then replies(read) else Reply(true, 0, false),
      if ev.readable then read + 1 else read
    )
  }

  /** The report tells what was answered, `w.asked` how many answers there were. */
  ghost predicate Told(v: MgrView, w: MgrView, h: Handler, ev: Event, report: Report, replies: nat -> Reply) {
    match report
    case Missing => false
    case AtListener(kept, _, newSock, reply) =>
      && h.ListenerType?
      && (kept <==> ev.readable && replies(v.asked).ok)
      && (kept ==> newSock !in v.poller && reply == replies(v.asked + 1))
      && w.asked == v.asked + (if kept then 2 else if ev.readable then 1 else 0)
    case AtStream(flush, reply) =>
      h.StreamType? && (flush, reply, w.asked) == StreamAnswers(h, ev, replies, v.asked)
  }

  /** What handling an event does, from the manager's state `v` to `w`. */
  ghost predicate Outcome(v: MgrView, w: MgrView, ev: Event, report: Report, replies: nat -> Reply) {
    var id := FromUsize(ev.key);
    if id.sockslot !in v.handlers then report == Missing && w == v
    else
      var h := v.handlers[id.sockslot];
      && Told(v, w, h, ev, report, replies)
      && (report.AtListener? && report.kept ==> report.newId.sockslot !in v.handlers)
      && w.handlers == After(v.handlers, id.sockslot, ev, report)
      && w.trace == v.trace + Calls(h, ev, id, report)
      && w.served == v.served + [h.id]
      && h.sock in v.poller && w.poller == PollerAfter(v.poller, h, ev, report)
  }

  /** A survivor that is not polled for writing, and that believes it is or has just
      been told of a chance to write, is not polled for writing afterwards, even with
      bytes to write. Every other survivor is polled exactly if it has some. */
  lemma InterestAgreesExactly(h: Handler, ev: Event, flush: Flush, reply: Reply, before: bool)
    requires h.StreamType?
    ensures PolledForWriting(h, ev, flush, reply, before) == Served(h, ev, flush, reply).interestedWritable <==>
      Queued(h, ev, flush, reply) == 0 || before || !(h.interestedWritable || ev.writable)
  {}

  // -------------------------------------------------------------- one event

  method HandleListener(mgr: ReactorMgr, h: Handler, ev: Event) returns (kept: bool, remove: bool)
    requires mgr.Valid() && h.ListenerType?
    modifies mgr`trace, mgr.channel, mgr.world
    ensures mgr.Valid()
    ensures mgr.channel.taken == old(mgr.channel.taken) && old(mgr.channel.accepted) <= mgr.channel.accepted
    ensures kept <==> ev.readable && mgr.world.replies(old(mgr.world.asked)).ok
    ensures mgr.world.asked == old(mgr.world.asked) + if ev.readable then 1 else 0
    ensures remove <==> ev.writable
    ensures mgr.trace == old(mgr.trace) + if ev.readable then [NewConnection(h.id, kept)] else []
  {
    hide FlatStorage.Valid, FlatStorage.Contents, Consistent, Channel.Valid;
    kept, remove := false, false;
    if ev.readable {
      var reply := mgr.Ask(); // on_new_connection
      kept := reply.ok;
      mgr.trace := mgr.trace + [NewConnection(h.id, kept)];
    }
    if ev.writable {
      remove := true;
    }
  }

  /** MsgSender's send_queued, of which only the number of bytes left matters. */
  method FlushStream(mgr: ReactorMgr, h: Handler) returns (flush: Flush)
    requires h.StreamType?
    modifies mgr.world
    ensures flush == FlushOf(h, mgr.world.replies(old(mgr.world.asked)))
    ensures mgr.world.asked == old(mgr.world.asked) + 1
  {
    var answer := mgr.world.Ask();
    flush := FlushOf(h, answer);
  }

  /** How the sender's own model is seen here: send_queued fails exactly when it
      breaks the sender, and otherwise takes bytes out of the buffer. */
  lemma FlushingTakesBytes<C>(l: Sending.Link<C>, timing: Sending.Timing)
    requires !l.s.broken
    ensures var r := Sending.SendQueued(l, timing);
      && (r.result == Sending.Error <==> r.link.s.broken)
      && |r.link.s.buf| <= |l.s.buf|
      && (r.result == Sending.Complete <==> r.link.s.buf == [] && r.result != Sending.Error)
  {
    var w := Sending.SockWrite(l.net, l.s.buf);
  }

  /** What user code does with a sender only adds to its buffer. */
  lemma SendingAddsBytes<C>(l: Sending.Link<C>, msg: Sending.bytes, done: Option<C>)
    ensures var r := Sending.SendOrQue(l, msg, done);
      |r.link.s.buf| >= |l.s.buf| && r.link.s.broken == l.s.broken
    ensures var r := Sending.StagedSend(l, msg, done);
      |r.link.s.buf| >= |l.s.buf| && (r.link.s.broken <==> l.s.broken || r.result == Sending.Error)
  {
    var t := Sending.TrySendAll(l.net, msg);
  }

  /** Lines 704 to 731: the stream writes and reads. */
  method ServeStream(mgr: ReactorMgr, h: Handler, ev: Event)
    returns (h': Handler, remove: bool, flush: Flush, reply: Reply)
    requires mgr.Valid() && h.StreamType? && h.sock in mgr.poller
    modifies mgr`trace, mgr.channel, mgr.world
    ensures mgr.Valid()
    ensures mgr.channel.taken == old(mgr.channel.taken) && old(mgr.channel.accepted) <= mgr.channel.accepted
    ensures (flush, reply, mgr.world.asked) == StreamAnswers(h, ev, mgr.world.replies, old(mgr.world.asked))
    ensures remove <==> GivesUp(h, ev, flush, reply)
    ensures !remove ==>
      h' == StreamType(h.id, h.sock, h.interestedWritable || ev.writable, Queued(h, ev, flush, reply), false)
    ensures mgr.trace == old(mgr.trace)
      + (if Flushes(h, ev) then [Flushed(h.id, flush.ok, flush.left)] else [])
      + (if ev.readable then [Readable(h.id, reply)] else [])
  {
    hide FlatStorage.Valid, FlatStorage.Contents, Consistent, Channel.Valid;
    h', remove, flush, reply := h, false, Flush(true, 0), Reply(true, 0, false);
    if ev.writable {
      h' := h'.(interestedWritable := true); // in case of an unsolicited event
      if h'.queued > 0 {
        flush := FlushStream(mgr, h');
        h' := h'.(queued := flush.left, broken := h'.broken || !flush.ok);
        mgr.trace := mgr.trace + [Flushed(h.id, flush.ok, flush.left)];
        if !flush.ok {
          remove := true;
        }
      }
    }
    if ev.readable {
      reply := mgr.Ask();
      h' := Answered(h', reply);
      mgr.trace := mgr.trace + [Readable(h.id, reply)];
      if !reply.ok {
        remove := true;
      }
    }
    if h'.broken {
      remove := true;
    }
  }

  /** Lines 732 to 755: the stream's interest in writing and its registration
      follow its buffer. */
  method SettleInterest(mgr: ReactorMgr, slot: nat, h: Handler, key: nat)
    requires mgr.Valid() && h.StreamType?
    requires slot in mgr.handlers.Contents()
    requires var was := mgr.handlers.Contents()[slot];
      && was.StreamType? && was.id == h.id && was.sock == h.sock && (was.interestedWritable ==> h.interestedWritable)
      && h.sock in mgr.poller && mgr.poller[h.sock].key == key
    modifies mgr`poller, mgr.handlers
    ensures mgr.Valid() && |mgr.handlers.data| == old(|mgr.handlers.data|)
    ensures mgr.handlers.Contents() == old(mgr.handlers.Contents())[slot := h.(interestedWritable := h.queued > 0)]
    ensures mgr.poller == old(mgr.poller)[h.sock :=
      Registration(key, h.queued > 0 && (old(mgr.poller)[h.sock].writable || !h.interestedWritable))]
  {
    hide FlatStorage.Valid, FlatStorage.Contents, Consistent, Channel.Valid;
    ghost var hs, poller := mgr.handlers.Contents(), mgr.poller;
    InterestOf(hs, poller, slot);
    var h' := h;
    if !h.interestedWritable && h.queued > 0 {
      mgr.poller := mgr.poller[h.sock := Registration(key, true)];
      h' := h.(interestedWritable := true);
    } else if h.interestedWritable && h.queued == 0 {
      mgr.poller := mgr.poller[h.sock := Registration(key, false)];
      h' := h.(interestedWritable := false);
    }
    ghost var writable := mgr.poller[h.sock].writable;
    UpdateKeepsConsistent(hs, poller, slot, h', writable);
    StreamsUpdate(hs, slot, h');
    assert mgr.poller == poller[h.sock := Registration(key, writable)];
    mgr.handlers.Set(slot, h');
  }

  lemma KeyOf(hs: Handlers, poller: Registrations, k: nat)
    requires Consistent(hs, poller) && k in hs
    ensures hs[k].sock in poller && poller[hs[k].sock].key == ToUsize(hs[k].id)
  {}

  /** Lines 704 to 755. */
  method StreamTurn(mgr: ReactorMgr, id: ReactorID, h: Handler, ev: Event)
    returns (remove: bool, flush: Flush, reply: Reply)
    requires mgr.Valid() && id == FromUsize(ev.key)
    requires id.sockslot in mgr.handlers.Contents() && mgr.handlers.Contents()[id.sockslot] == h && h.StreamType?
    requires h.sock in mgr.poller && mgr.poller[h.sock].key == ev.key
    modifies mgr`poller, mgr`trace, mgr.handlers, mgr.channel, mgr.world
    ensures mgr.Valid() && |mgr.handlers.data| == old(|mgr.handlers.data|)
    ensures (flush, reply, mgr.world.asked) == StreamAnswers(h, ev, mgr.world.replies, old(mgr.world.asked))
    ensures mgr.channel.taken == old(mgr.channel.taken) && old(mgr.channel.accepted) <= mgr.channel.accepted
    ensures remove <==> GivesUp(h, ev, flush, reply)
    ensures mgr.handlers.Contents() ==
      if remove then old(mgr.handlers.Contents())
      else old(mgr.handlers.Contents())[id.sockslot := Served(h, ev, flush, reply)]
    ensures mgr.poller ==
      if remove then old(mgr.poller)
      else old(mgr.poller)[h.sock :=
        Registration(ev.key, PolledForWriting(h, ev, flush, reply, old(mgr.poller)[h.sock].writable))]
    ensures mgr.trace == old(mgr.trace)
      + (if Flushes(h, ev) then [Flushed(h.id, flush.ok, flush.left)] else [])
      + (if ev.readable then [Readable(h.id, reply)] else [])
  {
    hide FlatStorage.Valid, FlatStorage.Contents, Consistent, Channel.Valid;
    ghost var hs := mgr.handlers.Contents();
    InterestOf(hs, mgr.poller, id.sockslot);
    var h';
    h', remove, flush, reply := ServeStream(mgr, h, ev);
    if !remove {
      SettleInterest(mgr, id.sockslot, h', ev.key);
    }
  }

  /** An event for a stream. */
  method HandleStream(mgr: ReactorMgr, id: ReactorID, h: Handler, ev: Event) returns (report: Report)
    requires mgr.Valid() && id == FromUsize(ev.key)
    requires id.sockslot in mgr.handlers.Contents() && mgr.handlers.Contents()[id.sockslot] == h && h.StreamType?
    requires ToUsize(h.id) == ev.key
    modifies mgr, mgr.handlers, mgr.channel, mgr.world
    ensures mgr.Valid() && |mgr.handlers.data| == old(|mgr.handlers.data|)
    ensures mgr.channel.taken == old(mgr.channel.taken) && old(mgr.channel.accepted) <= mgr.channel.accepted
    ensures Outcome(old(mgr.View()), mgr.View(), ev, report, mgr.world.replies)
  {
    hide FlatStorage.Valid, FlatStorage.Contents, Consistent, Channel.Valid, Outcome, Served, PolledForWriting, GivesUp;
    ghost var v := mgr.View();
    mgr.served := mgr.served + [h.id];
    KeyOf(v.handlers, mgr.poller, id.sockslot);
    var remove, flush, reply := StreamTurn(mgr, id, h, ev);
    ServedSocket(h, ev, flush, reply);
    ghost var w := mgr.View();
    if remove || ev.isErr || ev.isInterrupt {
      var existed := mgr.CloseReactor(id);
    }
    report := AtStream(flush, reply);
    StreamOutcome(v, w, mgr.View(), ev, h, flush, reply, mgr.world.replies);
  }

  lemma ServedSocket(h: Handler, ev: Event, flush: Flush, reply: Reply)
    requires h.StreamType?
    ensures Served(h, ev, flush, reply).sock == h.sock
  {}

  /** The state `w` before a closed handler is taken out, and the state after. */
  lemma StreamOutcome(v: MgrView, w: MgrView, x: MgrView, ev: Event, h: Handler, flush: Flush, reply: Reply,
                      replies: nat -> Reply)
    requires h.StreamType? && h.sock in v.poller
    requires var id := FromUsize(ev.key); id.sockslot in v.handlers && v.handlers[id.sockslot] == h
    requires w.handlers ==
      if GivesUp(h, ev, flush, reply) then v.handlers
      else v.handlers[FromUsize(ev.key).sockslot := Served(h, ev, flush, reply)]
    requires x.handlers ==
      if Closes(h, ev, AtStream(flush, reply)) then w.handlers - {FromUsize(ev.key).sockslot} else w.handlers
    requires x.trace == v.trace
      + (if Flushes(h, ev) then [Flushed(h.id, flush.ok, flush.left)] else [])
      + (if ev.readable then [Readable(h.id, reply)] else [])
      + (if Closes(h, ev, AtStream(flush, reply)) then [Closed(FromUsize(ev.key))] else [])
    requires x.served == v.served + [h.id]
    requires (flush, reply, x.asked) == StreamAnswers(h, ev, replies, v.asked)
    requires w.poller ==
      if GivesUp(h, ev, flush, reply) then v.poller
      else v.poller[h.sock :=
        Registration(ev.key, PolledForWriting(h, ev, flush, reply, v.poller[h.sock].writable))]
    requires x.poller == if Closes(h, ev, AtStream(flush, reply)) then w.poller - {h.sock} else w.poller
    ensures Outcome(v, x, ev, AtStream(flush, reply), replies)
  {
    var slot := FromUsize(ev.key).sockslot;
    assert v.handlers[slot := Served(h, ev, flush, reply)] - {slot} == v.handlers - {slot};
    var polled := PolledForWriting(h, ev, flush, reply, v.poller[h.sock].writable);
    assert v.poller[h.sock := Registration(ev.key, polled)] - {h.sock} == v.poller - {h.sock};
    assert Calls(h, ev, FromUsize(ev.key), AtStream(flush, reply)) ==
      (if Flushes(h, ev) then [Flushed(h.id, flush.ok, flush.left)] else [])
      + (if ev.readable then [Readable(h.id, reply)] else [])
      + (if Closes(h, ev, AtStream(flush, reply)) then [Closed(FromUsize(ev.key))] else []);
  }

  /** An event for a listener. */
  method HandleAccept(mgr: ReactorMgr, id: ReactorID, h: Handler, ev: Event) returns (report: Report)
    requires mgr.Valid() && mgr.Room(1) && id == FromUsize(ev.key)
    requires id.sockslot in mgr.handlers.Contents() && mgr.handlers.Contents()[id.sockslot] == h && h.ListenerType?
    modifies mgr, mgr.handlers, mgr.channel, mgr.world
    ensures mgr.Valid() && |mgr.handlers.data| <= old(|mgr.handlers.data|) + 1
    ensures mgr.channel.taken == old(mgr.channel.taken) && old(mgr.channel.accepted) <= mgr.channel.accepted
    ensures Outcome(old(mgr.View()), mgr.View(), ev, report, mgr.world.replies)
  {
    hide FlatStorage.Valid, FlatStorage.Contents, Consistent, Channel.Valid;
    mgr.served := mgr.served + [h.id];
    KeyOf(mgr.handlers.Contents(), mgr.poller, id.sockslot);
    var kept, remove := HandleListener(mgr, h, ev);
    if kept {
      var sock := mgr.UnusedSocket();
      var newId, reply := mgr.Connect(sock, id);
      return AtListener(true, newId, sock, reply);
    }
    if remove || ev.isErr || ev.isInterrupt {
      var existed := mgr.CloseReactor(id);
    }
    report := AtListener(false, INVALID_REACTOR_ID, 0, Reply(true, 0, false));
  }

  /** One turn of the loop over the events. */
  method HandleEvent(mgr: ReactorMgr, ev: Event) returns (report: Report)
    requires mgr.Valid() && mgr.Room(1)
    requires var id := FromUsize(ev.key);
      id.sockslot in mgr.handlers.Contents() ==> ToUsize(mgr.handlers.Contents()[id.sockslot].id) == ev.key
    modifies mgr, mgr.handlers, mgr.channel, mgr.world
    ensures mgr.Valid() && |mgr.handlers.data| <= old(|mgr.handlers.data|) + 1
    ensures mgr.channel.taken == old(mgr.channel.taken) && old(mgr.channel.accepted) <= mgr.channel.accepted
    ensures Outcome(old(mgr.View()), mgr.View(), ev, report, mgr.world.replies)
  {
    hide FlatStorage.Valid, FlatStorage.Contents, Consistent, Channel.Valid;
    var id := FromUsize(ev.key);
    var found := mgr.handlers.Get(id.sockslot);
    match found {
      case None => report := Missing;
      case Some(h) =>
        if h.ListenerType? {
          report := HandleAccept(mgr, id, h, ev);
        } else {
          report := HandleStream(mgr, id, h, ev);
        }
    }
  }

  // ------------------------------------------------------------- one batch

  ghost predicate Polled(poller: Registrations, ev: Event) {
    exists s :: KeyInUse(poller, s, ev.key)
  }

  /** The event's slot holds the handler with the identifier that was polled. */
  ghost predicate Meets(hs: Handlers, ev: Event) {
    var id := FromUsize(ev.key);
    id.sockslot in hs && hs[id.sockslot].id == id && ToUsize(id) == ev.key
  }

  lemma PolledMeets(hs: Handlers, poller: Registrations, ev: Event)
    requires Consistent(hs, poller) && Polled(poller, ev)
    ensures Meets(hs, ev)
  {
    var s :| KeyInUse(poller, s, ev.key);
    KeyNamesHandler(hs, poller, s, ev.key);
    KeyOf(hs, poller, FromUsize(ev.key).sockslot);
  }

  /** Handling one event leaves the handlers of all other polled events in place:
      the slots that it empties or fills are not theirs. */
  lemma OthersStayMet(v: MgrView, w: MgrView, ev: Event, report: Report, other: Event, replies: nat -> Reply)
    requires Outcome(v, w, ev, report, replies) && Meets(v.handlers, ev)
    requires Meets(v.handlers, other) && other.key != ev.key
    ensures Meets(w.handlers, other)
  {
    assert FromUsize(other.key).sockslot != FromUsize(ev.key).sockslot;
  }

  function Ids(events: seq<Event>): seq<ReactorID> {
    seq(|events|, i requires 0 <= i < |events| => FromUsize(events[i].key))
  }

  /** The manager goes from `v` to `w` by handling these events, one by one. */
  ghost predicate Handled(v: MgrView, w: MgrView, events: seq<Event>, replies: nat -> Reply)
    decreases |events|
  {
    if events == [] then w == v
    else
      var last := |events| - 1;
      exists u, report :: Handled(v, u, events[..last], replies) && Outcome(u, w, events[last], report, replies)
  }

  lemma HandledMore(v: MgrView, u: MgrView, w: MgrView, events: seq<Event>, i: nat, report: Report,
                    replies: nat -> Reply)
    requires i < |events| && Handled(v, u, events[..i], replies) && Outcome(u, w, events[i], report, replies)
    ensures Handled(v, w, events[..i + 1], replies)
  {
    hide Outcome;
    assert events[..i + 1][..i] == events[..i];
  }

  /** process_sock_events, given what the poller returned: events with distinct
      keys of registered sockets. Each event reaches the handler that it was
      polled for, whatever the events before it have closed and accepted. */
  method ProcessSockEvents(mgr: ReactorMgr, events: seq<Event>) returns (n: nat)
    requires mgr.Valid() && mgr.Room(|events|)
    requires forall i :: 0 <= i < |events| ==> Polled(mgr.poller, events[i])
    requires forall i, j :: 0 <= i < j < |events| ==> events[i].key != events[j].key
    modifies mgr, mgr.handlers, mgr.channel, mgr.world
    ensures mgr.Valid() && |mgr.handlers.data| <= old(|mgr.handlers.data|) + |events|
    ensures mgr.channel.taken == old(mgr.channel.taken) && old(mgr.channel.accepted) <= mgr.channel.accepted
    ensures Handled(old(mgr.View()), mgr.View(), events, mgr.world.replies)
    ensures mgr.served == old(mgr.served) + Ids(events)
    ensures n == |events|
  {
    hide FlatStorage.Valid, FlatStorage.Contents, Consistent, Channel.Valid, Outcome, Meets;
    forall i | 0 <= i < |events| ensures Meets(mgr.handlers.Contents(), events[i]) {
      PolledMeets(mgr.handlers.Contents(), mgr.poller, events[i]);
    }
    assert events[..0] == [];
    hide Handled;
    assert Handled(mgr.View(), mgr.View(), events[..0], mgr.world.replies) by {
      NothingHandled(mgr.View(), mgr.world.replies);
    }
    for i := 0 to |events|
      invariant mgr.Valid() && |mgr.handlers.data| <= old(|mgr.handlers.data|) + i
      invariant mgr.channel.taken == old(mgr.channel.taken) && old(mgr.channel.accepted) <= mgr.channel.accepted
      invariant forall j :: i <= j < |events| ==> Meets(mgr.handlers.Contents(), events[j])
      invariant Handled(old(mgr.View()), mgr.View(), events[..i], mgr.world.replies)
      invariant mgr.served == old(mgr.served) + Ids(events)[..i]
    {
      ghost var v := mgr.View();
      MeetsKey(v.handlers, events[i]);
      var report := HandleEvent(mgr, events[i]);
      HandledMore(old(mgr.View()), v, mgr.View(), events, i, report, mgr.world.replies);
      ServesPolled(v, mgr.View(), events[i], report, mgr.world.replies);
      forall j | i + 1 <= j < |events| ensures Meets(mgr.handlers.Contents(), events[j]) {
        OthersStayMet(v, mgr.View(), events[i], report, events[j], mgr.world.replies);
      }
    }
    assert events[..|events|] == events;
    n := |events|;
  }

  lemma NothingHandled(v: MgrView, replies: nat -> Reply)
    ensures Handled(v, v, [], replies)
  {}

  lemma MeetsKey(hs: Handlers, ev: Event)
    requires Meets(hs, ev)
    ensures ToUsize(hs[FromUsize(ev.key).sockslot].id) == ev.key
  {}

  lemma ServesPolled(v: MgrView, w: MgrView, ev: Event, report: Report, replies: nat -> Reply)
    requires Outcome(v, w, ev, report, replies) && Meets(v.handlers, ev)
    ensures w.served == v.served + [FromUsize(ev.key)]
  {}

  // ------------------------------------------------- which streams go astray

  /** The stream in the event's slot is left waiting for a chance to write that it is
      not polled for. */
  ghost predicate LeavesAstray(v: MgrView, ev: Event, report: Report) {
    var slot := FromUsize(ev.key).sockslot;
    && slot in v.handlers && v.handlers[slot].StreamType? && report.AtStream?
    && var h := v.handlers[slot];
       && !Closes(h, ev, report) && Queued(h, ev, report.flush, report.reply) > 0
       && !PolledToWrite(h, v.poller) && (h.interestedWritable || ev.writable)
  }

  /** One event decides about its own stream and about no other. */
  lemma AstrayAfter(v: MgrView, w: MgrView, ev: Event, report: Report, replies: nat -> Reply)
    requires Outcome(v, w, ev, report, replies) && OwnSockets(v.handlers, v.poller)
    ensures OwnSockets(w.handlers, w.poller)
    ensures forall k :: k in Astray(w.handlers, w.poller) <==>
      if k == FromUsize(ev.key).sockslot then LeavesAstray(v, ev, report) else k in Astray(v.handlers, v.poller)
  {
    var slot := FromUsize(ev.key).sockslot;
    if slot in v.handlers {
      var h := v.handlers[slot];
      forall k | k in w.handlers && k != slot && k in v.handlers
        ensures w.handlers[k] == v.handlers[k]
        ensures PolledToWrite(w.handlers[k], w.poller) == PolledToWrite(v.handlers[k], v.poller)
      {
        assert v.handlers[k].sock != h.sock;
      }
    }
  }

  /** The event is about a chance to write that its stream was not polled for. */
  ghost predicate Unsolicited(v: MgrView, ev: Event) {
    var slot := FromUsize(ev.key).sockslot;
    ev.writable && slot in v.handlers && !PolledToWrite(v.handlers[slot], v.poller)
  }

  ghost function UnsolicitedSlots(v: MgrView, events: seq<Event>): set<nat> {
    set i | 0 <= i < |events| && Unsolicited(v, events[i]) :: FromUsize(events[i].key).sockslot
  }

  /** The handler and the registration in the event's slot are as they were. */
  ghost predicate Untouched(v: MgrView, w: MgrView, ev: Event) {
    var slot := FromUsize(ev.key).sockslot;
    && slot in v.handlers && slot in w.handlers && w.handlers[slot] == v.handlers[slot]
    && (PolledToWrite(w.handlers[slot], w.poller) <==> PolledToWrite(v.handlers[slot], v.poller))
  }

  lemma OthersUntouched(v: MgrView, w: MgrView, ev: Event, report: Report, other: Event, replies: nat -> Reply)
    requires Outcome(v, w, ev, report, replies) && OwnSockets(v.handlers, v.poller)
    requires Meets(v.handlers, ev) && Meets(v.handlers, other) && other.key != ev.key
    ensures Untouched(v, w, other)
  {
    var slot, mine := FromUsize(other.key).sockslot, FromUsize(ev.key).sockslot;
    assert slot != mine && v.handlers[slot].sock != v.handlers[mine].sock;
  }

  lemma LastHandled(v: MgrView, w: MgrView, events: seq<Event>, replies: nat -> Reply)
    returns (u: MgrView, report: Report)
    requires Handled(v, w, events, replies) && events != []
    ensures var n := |events| - 1;
      Handled(v, u, events[..n], replies) && Outcome(u, w, events[n], report, replies)
  {
    hide Outcome;
    var n := |events| - 1;
    u, report :| Handled(v, u, events[..n], replies) && Outcome(u, w, events[n], report, replies);
  }

  /** What the poller returns: events that meet their handlers, with distinct keys. */
  ghost predicate MeetsAll(hs: Handlers, events: seq<Event>) {
    && (forall i :: 0 <= i < |events| ==> Meets(hs, events[i]))
    && (forall i, j :: 0 <= i < j < |events| ==> events[i].key != events[j].key)
  }

  lemma {:induction false} HandledLeaves(v: MgrView, w: MgrView, events: seq<Event>, other: Event,
                                         replies: nat -> Reply)
    requires Handled(v, w, events, replies) && OwnSockets(v.handlers, v.poller) && MeetsAll(v.handlers, events)
    requires Meets(v.handlers, other) && forall i :: 0 <= i < |events| ==> events[i].key != other.key
    ensures OwnSockets(w.handlers, w.poller) && Untouched(v, w, other)
    decreases |events|
  {
    if events != [] {
      var n := |events| - 1;
      var u, report := LastHandled(v, w, events, replies);
      hide Handled, Outcome, OwnSockets, PolledToWrite;
      assert MeetsAll(v.handlers, events[..n]);
      HandledLeaves(v, u, events[..n], other, replies);
      HandledLeaves(v, u, events[..n], events[n], replies);
      OthersUntouched(u, w, events[n], report, other, replies);
      AstrayAfter(u, w, events[n], report, replies);
    }
  }

  /** After a batch, a stream is astray only if it was before or has been told of a
      chance to write that it was not polled for when the poller returned. */
  lemma {:induction false} HandledAstray(v: MgrView, w: MgrView, events: seq<Event>, replies: nat -> Reply)
    requires Handled(v, w, events, replies) && OwnSockets(v.handlers, v.poller) && MeetsAll(v.handlers, events)
    ensures OwnSockets(w.handlers, w.poller)
    ensures Astray(w.handlers, w.poller) <= Astray(v.handlers, v.poller) + UnsolicitedSlots(v, events)
    decreases |events|
  {
    if events != [] {
      var n := |events| - 1;
      var u, report := LastHandled(v, w, events, replies);
      hide Handled, Outcome, OwnSockets;
      assert MeetsAll(v.handlers, events[..n]);
      HandledAstray(v, u, events[..n], replies);
      HandledLeaves(v, u, events[..n], events[n], replies);
      AstrayAfter(u, w, events[n], report, replies);
      LastAstray(v, u, w, events, report);
    }
  }

  lemma LastAstray(v: MgrView, u: MgrView, w: MgrView, events: seq<Event>, report: Report)
    requires events != [] && Untouched(v, u, events[|events| - 1])
    requires Astray(u.handlers, u.poller)
      <= Astray(v.handlers, v.poller) + UnsolicitedSlots(v, events[..|events| - 1])
    requires var ev := events[|events| - 1];
      forall k :: k in Astray(w.handlers, w.poller) <==>
        if k == FromUsize(ev.key).sockslot then LeavesAstray(u, ev, report) else k in Astray(u.handlers, u.poller)
    ensures Astray(w.handlers, w.poller) <= Astray(v.handlers, v.poller) + UnsolicitedSlots(v, events)
  {
    var n := |events| - 1;
    var slot := FromUsize(events[n].key).sockslot;
    forall k | k in Astray(w.handlers, w.poller)
      ensures k in Astray(v.handlers, v.poller) + UnsolicitedSlots(v, events)
    {
      if k == slot && events[n].writable {
        assert Unsolicited(v, events[n]);
      } else {
        assert k in Astray(u.handlers, u.poller);
        if k in UnsolicitedSlots(v, events[..n]) {
          var i :| 0 <= i < n && Unsolicited(v, events[..n][i]) && FromUsize(events[..n][i].key).sockslot == k;
          assert events[i] == events[..n][i];
        }
      }
    }
  }
}
