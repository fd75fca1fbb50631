/** What holds over every error-free run of a sender. */
module SendingLaws {
  import opened FlatStorages
  import opened Sending

  // ------------------------------------------------------------- conservation

  lemma DirectKeepsStream<C>(l: Link<C>, msg: bytes, done: Option<C>)
    requires SendOrQue(l, msg, done).result != Error
    ensures Stream(SendOrQue(l, msg, done).link) == Stream(l) + msg
    ensures l.net.wire <= SendOrQue(l, msg, done).link.net.wire
  {
    hide TrySendAll, SockWrite;
    if msg != [] && l.s.buf == [] {
      var t := TrySendAll(l.net, msg);
      assert msg == msg[..t.sent] + msg[t.sent..];
    }
  }

  lemma StagedKeepsStream<C>(l: Link<C>, staged: bytes, done: Option<C>)
    requires StagedSend(l, staged, done).result != Error
    ensures Stream(StagedSend(l, staged, done).link) == Stream(l) + staged
    ensures l.net.wire <= StagedSend(l, staged, done).link.net.wire
  {
    hide TrySendAll, SockWrite;
    if staged != [] && l.s.buf == [] {
      var t := TrySendAll(l.net, staged);
      assert staged == staged[..t.sent] + staged[t.sent..];
    }
  }

  lemma WritableKeepsStream<C>(l: Link<C>, timing: Timing)
    requires SendQueued(l, timing).result != Error
    ensures Stream(SendQueued(l, timing).link) == Stream(l)
    ensures l.net.wire <= SendQueued(l, timing).link.net.wire
  {
    var w := SockWrite(l.net, l.s.buf);
    if l.s.buf != [] && w.step.Accept? {
      assert l.s.buf == l.s.buf[..w.step.n] + l.s.buf[w.step.n..];
    }
  }

  lemma StepKeepsStream(l: TLink, op: Op, serial: nat, timing: Timing)
    requires Step(l, op, serial, timing).result != Error
    ensures Stream(Step(l, op, serial, timing).link) == Stream(l) + Message(op)
    ensures l.net.wire <= Step(l, op, serial, timing).link.net.wire
  {
    var done := TicketFor(l, op, serial);
    match op {
      case Direct(msg, _) => DirectKeepsStream(l, msg, done);
      case Staged(edits, _) => StagedKeepsStream(l, Typed(edits), done);
      case Writable => WritableKeepsStream(l, timing);
    }
  }

  /** Whatever the socket accepts and when, the wire followed by the buffer is
      what it was, followed by the messages sent, complete and in order. */
  lemma {:induction false} ByteStreamIsConserved(l: TLink, ops: seq<Op>, serial: nat, timing: Timing)
    requires ErrorFree(l, ops, serial, timing)
    ensures Stream(Run(l, ops, serial, timing)) == Stream(l) + Messages(ops)
    ensures l.net.wire <= Run(l, ops, serial, timing).net.wire
    decreases |ops|
  {
    if ops != [] {
      hide Step, Stream;
      var next := Step(l, ops[0], serial, timing).link;
      StepKeepsStream(l, ops[0], serial, timing);
      ByteStreamIsConserved(next, ops[1..], serial + 1, timing);
      Regroup3(Stream(l), Message(ops[0]), Messages(ops[1..]));
      PrefixThrough(l.net.wire, next.net.wire, Run(l, ops, serial, timing).net.wire);
    } else {
      assert Stream(l) + [] == Stream(l);
    }
  }

  lemma Regroup3(a: bytes, b: bytes, c: bytes)
    ensures a + b + c == a + (b + c)
  {}

  lemma PrefixThrough(a: bytes, b: bytes, c: bytes)
    requires a <= b <= c
    ensures a <= c
  {}

  /** For a new sender: the wire and the buffer are the messages, in order. */
  lemma FreshStream(script: seq<WriteStep>, ops: seq<Op>, timing: Timing)
    requires ErrorFree(Fresh(script), ops, 0, timing)
    ensures var l := Run(Fresh(script), ops, 0, timing); l.net.wire + l.s.buf == Messages(ops)
  {
    ByteStreamIsConserved(Fresh(script), ops, 0, timing);
    assert Stream(Fresh(script)) == [];
  }

  // --------------------------------------------- completions are run once each

  /** The completions a sender has run or still holds. */
  ghost function Held(l: TLink): multiset<Ticket> {
    multiset(l.s.fired) + multiset(Dones(l.s.queue))
  }

  lemma DonesSplit<C>(queue: seq<Entry<C>>, k: nat)
    requires k <= |queue|
    ensures Dones(queue) == Dones(queue[..k]) + Dones(queue[k..])
  {}

  lemma DonesAppend<C>(queue: seq<Entry<C>>, e: Entry<C>)
    ensures Dones(queue + [e]) == Dones(queue) + [e.done]
  {}

  ghost function AsSeq(t: Option<Ticket>): seq<Ticket> { if t.Some? then [t.value] else [] }

  lemma EnqueueHolds(s: Sender<Ticket>, t: Ticket)
    ensures multiset(Dones(Enqueue(s, Some(t)).queue)) == multiset(Dones(s.queue)) + multiset{t}
  {
    DonesAppend(s.queue, Entry(s.bytesSent + |s.buf|, t));
  }

  lemma SettleHolds(s: Sender<Ticket>, limit: nat)
    ensures var r := Settle(s, limit);
      multiset(r.fired) + multiset(Dones(r.queue)) == multiset(s.fired) + multiset(Dones(s.queue))
  {
    DonesSplit(s.queue, Due(s.queue, limit));
  }

  lemma DirectHolds(l: TLink, msg: bytes, done: Option<Ticket>)
    requires SendOrQue(l, msg, done).result != Error
    ensures Held(SendOrQue(l, msg, done).link) == Held(l) + multiset(AsSeq(done))
  {
    hide TrySendAll, SockWrite, Dones;
    var r := SendOrQue(l, msg, done);
    if done.Some? && r.result == InQueue {
      EnqueueHolds(r.link.s.(queue := l.s.queue), done.value);
    }
  }

  lemma StagedHolds(l: TLink, staged: bytes, done: Option<Ticket>)
    requires StagedSend(l, staged, done).result != Error
    ensures Held(StagedSend(l, staged, done).link) == Held(l) + multiset(AsSeq(done))
  {
    hide TrySendAll, SockWrite, Dones;
    var r := StagedSend(l, staged, done);
    if done.Some? && r.result == InQueue {
      EnqueueHolds(r.link.s.(queue := l.s.queue), done.value);
    }
  }

  lemma WritableHolds(l: TLink, timing: Timing)
    ensures Held(SendQueued(l, timing).link) == Held(l)
  {
    var w := SockWrite(l.net, l.s.buf);
    if l.s.buf != [] && w.step.Accept? {
      SettleHolds(l.s, Limit(l.s, w.step.n, timing));
    }
  }

  lemma StepKeepsTickets(l: TLink, op: Op, serial: nat, timing: Timing)
    requires Step(l, op, serial, timing).result != Error
    ensures Held(Step(l, op, serial, timing).link) == Held(l) + multiset(AsSeq(TicketFor(l, op, serial)))
  {
    var done := TicketFor(l, op, serial);
    match op {
      case Direct(msg, _) => DirectHolds(l, msg, done);
      case Staged(edits, _) => StagedHolds(l, Typed(edits), done);
      case Writable => WritableHolds(l, timing);
    }
  }

  lemma {:induction false} TicketsAreConserved(l: TLink, ops: seq<Op>, serial: nat, timing: Timing)
    requires ErrorFree(l, ops, serial, timing)
    ensures Held(Run(l, ops, serial, timing)) == Held(l) + multiset(Tickets(l, ops, serial, timing))
    decreases |ops|
  {
    if ops != [] {
      var next := Step(l, ops[0], serial, timing).link;
      StepKeepsTickets(l, ops[0], serial, timing);
      TicketsAreConserved(next, ops[1..], serial + 1, timing);
    }
  }

  lemma {:induction false} TicketsAreDistinct(l: TLink, ops: seq<Op>, serial: nat, timing: Timing)
    ensures forall t :: t in Tickets(l, ops, serial, timing) ==>
      t.serial >= serial && multiset(Tickets(l, ops, serial, timing))[t] == 1
    decreases |ops|
  {
    if ops != [] {
      var next := Step(l, ops[0], serial, timing).link;
      TicketsAreDistinct(next, ops[1..], serial + 1, timing);
      var own, later := AsSeq(TicketFor(l, ops[0], serial)), Tickets(next, ops[1..], serial + 1, timing);
      assert Tickets(l, ops, serial, timing) == own + later;
      forall t: Ticket | t in own + later ensures t.serial >= serial && multiset(own + later)[t] == 1 {
        assert multiset(own + later) == multiset(own) + multiset(later);
        if t in own {
          assert own == [t] && t.serial == serial;
          assert t !in later;
        }
      }
    }
  }

  /** The debug assertions on a drained buffer. */
  predicate DrainAsserts<C>(s: Sender<C>) {
    s.buf == [] ==> s.queue == [] && s.bytesSent == 0
  }

  // ------------------------------------------------------------- never early

  /** Every waiting completion's position lies no further than its end does. */
  ghost predicate NotEarly(l: TLink) {
    && l.s.bytesSent <= |l.net.wire|
    && (l.s.buf == [] ==> l.s.bytesSent == 0)
    && (forall i :: 0 <= i < |l.s.queue| ==>
          l.s.queue[i].done.last <= |l.net.wire| - l.s.bytesSent + l.s.queue[i].end)
    && (forall i :: 0 <= i < |l.s.fired| ==> l.s.fired[i].last <= |l.net.wire|)
  }

  /** The completion's position is that of the last byte of `msg`, sent after
      everything accepted so far. */
  ghost predicate Stamped(l: TLink, msg: bytes, done: Option<Ticket>) {
    done.Some? ==> done.value.last == if msg == [] then 0 else |Stream(l)| + |msg|
  }

  lemma EnqueueNotEarly(l: TLink, done: Option<Ticket>)
    requires NotEarly(l) && (done.Some? ==> done.value.last <= |Stream(l)|)
    ensures NotEarly(l.(s := Enqueue(l.s, done)))
  {}

  lemma FireNotEarly(l: TLink, done: Option<Ticket>)
    requires NotEarly(l) && (done.Some? ==> done.value.last <= |l.net.wire|)
    ensures NotEarly(l.(s := Fire(l.s, done)))
  {}

  lemma DirectNotEarly(l: TLink, msg: bytes, done: Option<Ticket>)
    requires NotEarly(l) && Stamped(l, msg, done) && SendOrQue(l, msg, done).result != Error
    ensures NotEarly(SendOrQue(l, msg, done).link)
  {
    DirectKeepsStream(l, msg, done);
    if msg == [] {
      FireNotEarly(l, done);
    } else if l.s.buf != [] {
      EnqueueNotEarly(l.(s := l.s.(buf := l.s.buf + msg)), done);
    } else {
      var t := TrySendAll(l.net, msg);
      if t.sent == |msg| {
        FireNotEarly(Link(l.s, t.net), done);
      } else {
        EnqueueNotEarly(Link(l.s.(buf := msg[t.sent..]), t.net), done);
      }
    }
  }

  lemma StagedNotEarly(l: TLink, msg: bytes, done: Option<Ticket>)
    requires NotEarly(l) && Stamped(l, msg, done) && StagedSend(l, msg, done).result != Error
    ensures NotEarly(StagedSend(l, msg, done).link)
  {
    StagedKeepsStream(l, msg, done);
    if msg == [] {
      FireNotEarly(l, done);
    } else if l.s.buf != [] {
      EnqueueNotEarly(l.(s := l.s.(buf := l.s.buf + msg)), done);
    } else {
      var t := TrySendAll(l.net, msg);
      var full := l.s.(buf := msg);
      var moved := Link(if t.sent > 0 then MoveFront(full, t.sent) else full, t.net);
      if t.sent == |msg| {
        FireNotEarly(moved, done);
      } else {
        EnqueueNotEarly(moved, done);
      }
    }
  }

  /** The sender after one write of `n` bytes. */
  lemma SettledFields<C>(s: Sender<C>, limit: nat, n: nat)
    requires n <= |s.buf|
    ensures |Settle(s, limit).buf| == |s.buf|
    ensures var k, r := Due(s.queue, limit), MoveFront(Settle(s, limit), n);
      && r.queue == s.queue[k..] && r.fired == s.fired + Dones(s.queue[..k])
      && r.buf == s.buf[n..] && r.bytesSent == if n == |s.buf| then 0 else s.bytesSent + n
  {}

  lemma DoneAt<C>(queue: seq<Entry<C>>, k: nat, i: nat)
    requires i < k <= |queue|
    ensures Dones(queue[..k])[i] == queue[i].done
  {}

  lemma SettleNotEarly(l: TLink, limit: nat, n: nat, net: Net)
    requires NotEarly(l) && limit <= l.s.bytesSent + n && n <= |l.s.buf| && |net.wire| == |l.net.wire| + n
    ensures NotEarly(Link(MoveFront(Settle(l.s, limit), n), net))
  {
    hide Due, Dones, MoveFront, Settle;
    SettledFields(l.s, limit, n);
    var k := Due(l.s.queue, limit);
    var r := MoveFront(Settle(l.s, limit), n);
    forall i | 0 <= i < |r.fired| ensures r.fired[i].last <= |net.wire| {
      if i >= |l.s.fired| {
        DoneAt(l.s.queue, k, i - |l.s.fired|);
      }
    }
    forall i | 0 <= i < |r.queue| ensures r.queue[i].done.last <= |net.wire| - r.bytesSent + r.queue[i].end {
      assert r.queue[i] == l.s.queue[k + i];
    }
  }

  lemma StepIsNotEarly(l: TLink, op: Op, serial: nat, timing: Timing)
    requires NotEarly(l) && Step(l, op, serial, timing).result != Error
    ensures NotEarly(Step(l, op, serial, timing).link)
  {
    var done := TicketFor(l, op, serial);
    match op {
      case Direct(msg, _) => DirectNotEarly(l, msg, done);
      case Staged(edits, _) => StagedNotEarly(l, Typed(edits), done);
      case Writable =>
        var w := SockWrite(l.net, l.s.buf);
        if l.s.buf != [] && w.step.Accept? {
          SettleNotEarly(l, Limit(l.s, w.step.n, timing), w.step.n, w.net);
        }
    }
  }

  lemma {:induction false} RunIsNotEarly(l: TLink, ops: seq<Op>, serial: nat, timing: Timing)
    requires NotEarly(l) && ErrorFree(l, ops, serial, timing)
    ensures NotEarly(Run(l, ops, serial, timing))
    decreases |ops|
  {
    if ops != [] {
      StepIsNotEarly(l, ops[0], serial, timing);
      RunIsNotEarly(Step(l, ops[0], serial, timing).link, ops[1..], serial + 1, timing);
    }
  }

  function Fresh(script: seq<WriteStep>): TLink { Link(NewSender(), Net(script, [])) }

  /** With either timing, over any error-free run of a new sender: a completion
      has run at most once, one that has not run is waiting, and none has run
      while the last byte of its message is not yet on the wire. */
  lemma CompletionsAreNeverEarly(script: seq<WriteStep>, ops: seq<Op>, timing: Timing)
    requires ErrorFree(Fresh(script), ops, 0, timing)
    ensures var r := Run(Fresh(script), ops, 0, timing);
      forall t :: t in Tickets(Fresh(script), ops, 0, timing) ==>
        && multiset(r.s.fired)[t] + multiset(Dones(r.s.queue))[t] == 1
        && (t in r.s.fired ==> t.last <= |r.net.wire|)
  {
    var l := Fresh(script);
    TicketsAreConserved(l, ops, 0, timing);
    TicketsAreDistinct(l, ops, 0, timing);
    RunIsNotEarly(l, ops, 0, timing);
    var r, all := Run(l, ops, 0, timing), Tickets(l, ops, 0, timing);
    assert Held(l) == multiset{};
    forall t | t in all
      ensures multiset(r.s.fired)[t] + multiset(Dones(r.s.queue))[t] == 1
      ensures t in r.s.fired ==> t.last <= |r.net.wire|
    {
      assert Held(r)[t] == multiset(all)[t];
    }
  }

  // ------------------------------------------------------------ in queue order

  /** The completions that a step puts at the back of the queue. */
  ghost function Queued(l: TLink, op: Op, serial: nat, timing: Timing): seq<Ticket> {
    if Step(l, op, serial, timing).result == InQueue then AsSeq(TicketFor(l, op, serial)) else []
  }

  /** The completions that a step runs from the front of the queue. */
  ghost function Notified(l: TLink, op: Op, timing: Timing): seq<Ticket> {
    var w := SockWrite(l.net, l.s.buf);
    if op.Writable? && l.s.buf != [] && w.step.Accept? && w.step.n > 0
    then Dones(l.s.queue[..Due(l.s.queue, Limit(l.s, w.step.n, timing))])
    else []
  }

  ghost function AllQueued(l: TLink, ops: seq<Op>, serial: nat, timing: Timing): seq<Ticket>
    decreases |ops|
  {
    if ops == [] then [] else
      Queued(l, ops[0], serial, timing)
      + AllQueued(Step(l, ops[0], serial, timing).link, ops[1..], serial + 1, timing)
  }

  ghost function AllNotified(l: TLink, ops: seq<Op>, serial: nat, timing: Timing): seq<Ticket>
    decreases |ops|
  {
    if ops == [] then [] else
      Notified(l, ops[0], timing)
      + AllNotified(Step(l, ops[0], serial, timing).link, ops[1..], serial + 1, timing)
  }

  lemma StepIsFifo(l: TLink, op: Op, serial: nat, timing: Timing)
    requires Step(l, op, serial, timing).result != Error
    ensures Dones(l.s.queue) + Queued(l, op, serial, timing)
         == Notified(l, op, timing) + Dones(Step(l, op, serial, timing).link.s.queue)
    ensures op.Writable? ==> Step(l, op, serial, timing).link.s.fired == l.s.fired + Notified(l, op, timing)
  {
    match op {
      case Direct(msg, _) => DirectIsFifo(l, msg, TicketFor(l, op, serial));
      case Staged(edits, _) => StagedIsFifo(l, Typed(edits), TicketFor(l, op, serial));
      case Writable => WritableIsFifo(l, timing);
    }
  }

  lemma DirectIsFifo(l: TLink, msg: bytes, done: Option<Ticket>)
    ensures var r := SendOrQue(l, msg, done);
      Dones(l.s.queue) + (if r.result == InQueue then AsSeq(done) else []) == Dones(r.link.s.queue)
  {
    hide SockWrite, TrySendAll;
  }

  lemma StagedIsFifo(l: TLink, msg: bytes, done: Option<Ticket>)
    ensures var r := StagedSend(l, msg, done);
      Dones(l.s.queue) + (if r.result == InQueue then AsSeq(done) else []) == Dones(r.link.s.queue)
  {
    hide SockWrite, TrySendAll;
  }

  lemma WritableIsFifo(l: TLink, timing: Timing)
    requires SendQueued(l, timing).result != Error
    ensures var s := SendQueued(l, timing).link.s;
      && Dones(l.s.queue) == Notified(l, Writable, timing) + Dones(s.queue)
      && s.fired == l.s.fired + Notified(l, Writable, timing)
  {
    hide SockWrite, Due, Dones, Settle, MoveFront, Limit;
    if l.s.buf != [] {
      SendQueuedCases(l, timing);
      hide SendQueued;
      var w := SockWrite(l.net, l.s.buf);
      if w.step.Accept? {
        var limit := Limit(l.s, w.step.n, timing);
        SettledFields(l.s, limit, w.step.n);
        DonesSplit(l.s.queue, Due(l.s.queue, limit));
      }
    }
  }

  /** Completions leave the queue in the order in which they entered it. */
  lemma {:induction false} QueueIsFifo(l: TLink, ops: seq<Op>, serial: nat, timing: Timing)
    requires ErrorFree(l, ops, serial, timing)
    ensures Dones(l.s.queue) + AllQueued(l, ops, serial, timing)
         == AllNotified(l, ops, serial, timing) + Dones(Run(l, ops, serial, timing).s.queue)
    decreases |ops|
  {
    if ops != [] {
      var next := Step(l, ops[0], serial, timing).link;
      StepIsFifo(l, ops[0], serial, timing);
      QueueIsFifo(next, ops[1..], serial + 1, timing);
      var q1, q2 := Queued(l, ops[0], serial, timing), AllQueued(next, ops[1..], serial + 1, timing);
      var n1, n2 := Notified(l, ops[0], timing), AllNotified(next, ops[1..], serial + 1, timing);
      var end := Dones(Run(next, ops[1..], serial + 1, timing).s.queue);
      Regroup(Dones(l.s.queue), q1, n1, Dones(next.s.queue), q2, n2, end);
    }
  }

  lemma Regroup<X>(d0: seq<X>, q1: seq<X>, n1: seq<X>, d1: seq<X>, q2: seq<X>, n2: seq<X>, d2: seq<X>)
    requires d0 + q1 == n1 + d1 && d1 + q2 == n2 + d2
    ensures d0 + (q1 + q2) == (n1 + n2) + d2
  {
    assert d0 + (q1 + q2) == (d0 + q1) + q2;
    assert (n1 + d1) + q2 == n1 + (d1 + q2);
    assert n1 + (n2 + d2) == (n1 + n2) + d2;
  }

  // ------------------------------------------------- the intended form: prompt

  ghost predicate Ordered<C>(queue: seq<Entry<C>>) {
    forall i, j :: 0 <= i < j < |queue| ==> queue[i].end <= queue[j].end
  }

  /** A waiting completion's end is exactly its position, which is still ahead. */
  ghost predicate Ahead(l: TLink, e: Entry<Ticket>) {
    && e.done.last == |l.net.wire| - l.s.bytesSent + e.end
    && l.s.bytesSent < e.end <= l.s.bytesSent + |l.s.buf|
  }

  ghost predicate Prompt(l: TLink) {
    && NotEarly(l)
    && Ordered(l.s.queue)
    && forall i :: 0 <= i < |l.s.queue| ==> Ahead(l, l.s.queue[i])
  }

  lemma PromptDrains(l: TLink)
    requires Prompt(l)
    ensures DrainAsserts(l.s)
  {
    assert l.s.queue != [] ==> Ahead(l, l.s.queue[0]);
  }

  lemma EnqueuePrompt(l: TLink, done: Option<Ticket>)
    requires Prompt(l) && l.s.buf != [] && (done.Some? ==> done.value.last == |Stream(l)|)
    ensures Prompt(l.(s := Enqueue(l.s, done)))
  {}

  lemma FirePrompt(l: TLink, done: Option<Ticket>)
    requires Prompt(l) && NotEarly(l.(s := Fire(l.s, done)))
    ensures Prompt(l.(s := Fire(l.s, done)))
  {
    var r := l.(s := Fire(l.s, done));
    forall i | 0 <= i < |r.s.queue| ensures Ahead(r, r.s.queue[i]) {
      assert Ahead(l, l.s.queue[i]);
    }
  }

  lemma DirectPrompt(l: TLink, msg: bytes, done: Option<Ticket>)
    requires Prompt(l) && Stamped(l, msg, done) && SendOrQue(l, msg, done).result != Error
    ensures Prompt(SendOrQue(l, msg, done).link)
  {
    PromptDrains(l);
    DirectNotEarly(l, msg, done);
    DirectKeepsStream(l, msg, done);
    if msg == [] {
      FirePrompt(l, done);
    } else if l.s.buf != [] {
      GrowPrompt(l, msg);
      EnqueuePrompt(l.(s := l.s.(buf := l.s.buf + msg)), done);
    } else {
      var t := TrySendAll(l.net, msg);
      if t.sent < |msg| {
        EnqueuePrompt(Link(l.s.(buf := msg[t.sent..]), t.net), done);
      }
    }
  }

  lemma StagedPrompt(l: TLink, msg: bytes, done: Option<Ticket>)
    requires Prompt(l) && Stamped(l, msg, done) && StagedSend(l, msg, done).result != Error
    ensures Prompt(StagedSend(l, msg, done).link)
  {
    PromptDrains(l);
    StagedNotEarly(l, msg, done);
    StagedKeepsStream(l, msg, done);
    if msg == [] {
      FirePrompt(l, done);
    } else if l.s.buf != [] {
      GrowPrompt(l, msg);
      EnqueuePrompt(l.(s := l.s.(buf := l.s.buf + msg)), done);
    } else {
      var t := TrySendAll(l.net, msg);
      var full := l.s.(buf := msg);
      if t.sent < |msg| {
        EnqueuePrompt(Link(if t.sent > 0 then MoveFront(full, t.sent) else full, t.net), done);
      }
    }
  }

  lemma GrowPrompt(l: TLink, msg: bytes)
    requires Prompt(l) && l.s.buf != []
    ensures Prompt(l.(s := l.s.(buf := l.s.buf + msg)))
  {
    var r := l.(s := l.s.(buf := l.s.buf + msg));
    forall i | 0 <= i < |r.s.queue| ensures Ahead(r, r.s.queue[i]) {
      assert Ahead(l, l.s.queue[i]);
    }
  }

  lemma DueIsAll<C>(queue: seq<Entry<C>>, limit: nat)
    requires Ordered(queue)
    ensures var k := Due(queue, limit);
      Ordered(queue[k..]) && forall i :: 0 <= i < |queue| - k ==> queue[k..][i].end > limit
  {
    var k := Due(queue, limit);
    forall i | 0 <= i < |queue| - k ensures queue[k..][i].end > limit {
      assert i > 0 ==> queue[k].end <= queue[k + i].end;
    }
  }

  lemma SettlePrompt(l: TLink, n: nat, net: Net)
    requires Prompt(l) && 0 < n <= |l.s.buf| && |net.wire| == |l.net.wire| + n
    ensures Prompt(Link(MoveFront(Settle(l.s, l.s.bytesSent + n), n), net))
  {
    hide NotEarly, Ordered, Ahead, Due, Dones, MoveFront, Settle;
    var limit := l.s.bytesSent + n;
    var k := Due(l.s.queue, limit);
    SettledFields(l.s, limit, n);
    var r := Link(MoveFront(Settle(l.s, limit), n), net);
    SettleNotEarly(l, limit, n, net);
    DueIsAll(l.s.queue, limit);
    forall i | 0 <= i < |r.s.queue| ensures Ahead(r, r.s.queue[i]) {
      assert Ahead(l, l.s.queue[k + i]);
      SettledAhead(l, n, net, l.s.queue[k..][i]);
    }
  }

  lemma SettledAhead(l: TLink, n: nat, net: Net, e: Entry<Ticket>)
    requires Ahead(l, e) && e.end > l.s.bytesSent + n && 0 < n <= |l.s.buf| && |net.wire| == |l.net.wire| + n
    ensures Ahead(Link(MoveFront(Settle(l.s, l.s.bytesSent + n), n), net), e)
  {}

  lemma WritablePrompt(l: TLink)
    requires Prompt(l) && SendQueued(l, Intended).result != Error
    ensures Prompt(SendQueued(l, Intended).link)
  {
    hide NotEarly, Ahead, Ordered, Settle, MoveFront;
    var w := SockWrite(l.net, l.s.buf);
    if l.s.buf != [] {
      if w.step.Accept? {
        SettlePrompt(l, w.step.n, w.net);
      } else {
        BlockedPrompt(l, w.net);
      }
    }
  }

  lemma BlockedPrompt(l: TLink, net: Net)
    requires Prompt(l) && net.wire == l.net.wire
    ensures Prompt(l.(net := net))
  {
    forall i | 0 <= i < |l.s.queue| ensures Ahead(l.(net := net), l.s.queue[i]) {
      assert Ahead(l, l.s.queue[i]);
    }
  }

  lemma StepIsPrompt(l: TLink, op: Op, serial: nat)
    requires Prompt(l) && Step(l, op, serial, Intended).result != Error
    ensures Prompt(Step(l, op, serial, Intended).link)
  {
    var done := TicketFor(l, op, serial);
    match op {
      case Direct(msg, _) => DirectPrompt(l, msg, done);
      case Staged(edits, _) => StagedPrompt(l, Typed(edits), done);
      case Writable => WritablePrompt(l);
    }
  }

  lemma {:induction false} RunIsPrompt(l: TLink, ops: seq<Op>, serial: nat)
    requires Prompt(l) && ErrorFree(l, ops, serial, Intended)
    ensures Prompt(Run(l, ops, serial, Intended))
    decreases |ops|
  {
    if ops != [] {
      StepIsPrompt(l, ops[0], serial);
      RunIsPrompt(Step(l, ops[0], serial, Intended).link, ops[1..], serial + 1);
    }
  }

  /** The intended form, over any error-free run of a new sender: a completion
      has run, once, exactly when the last byte of its message is on the wire;
      and an empty buffer leaves nothing waiting. */
  lemma CompletionsArePrompt(script: seq<WriteStep>, ops: seq<Op>)
    requires ErrorFree(Fresh(script), ops, 0, Intended)
    ensures var r := Run(Fresh(script), ops, 0, Intended);
      && (forall t :: t in Tickets(Fresh(script), ops, 0, Intended) ==>
            multiset(r.s.fired)[t] == if t.last <= |r.net.wire| then 1 else 0)
      && (r.s.buf == [] ==> r.s.queue == [] && r.s.bytesSent == 0)
  {
    var l := Fresh(script);
    var r, all := Run(l, ops, 0, Intended), Tickets(l, ops, 0, Intended);
    CompletionsAreNeverEarly(script, ops, Intended);
    RunIsPrompt(l, ops, 0);
    PromptDrains(r);
    forall t | t in all ensures multiset(r.s.fired)[t] == if t.last <= |r.net.wire| then 1 else 0 {
      if t !in r.s.fired {
        var i :| 0 <= i < |r.s.queue| && Dones(r.s.queue)[i] == t;
        assert Ahead(r, r.s.queue[i]);
      }
    }
  }

  // ------------------------------------------------ the form as written: late

  /** As written, a write that empties the buffer satisfies the assertions on the
      drained buffer if and only if no completion was waiting for a byte that was
      still in it. */
  lemma DrainAssertsAsWritten<C>(l: Link<C>)
    requires l.s.buf != [] && SendQueued(l, AsWritten).result == Complete
    ensures DrainAsserts(SendQueued(l, AsWritten).link.s) <==>
      forall i :: 0 <= i < |l.s.queue| ==> l.s.queue[i].end <= l.s.bytesSent
  {
    hide DrainAsserts, SendQueued, Due;
    DrainedState(l);
    DueIsEverything(l.s.queue, l.s.bytesSent);
  }

  lemma DrainedState<C>(l: Link<C>)
    requires l.s.buf != [] && SendQueued(l, AsWritten).result == Complete
    ensures DrainAsserts(SendQueued(l, AsWritten).link.s) <==> Due(l.s.queue, l.s.bytesSent) == |l.s.queue|
  {
    hide SockWrite, Settle, MoveFront, Due, Dones;
    var n := SockWrite(l.net, l.s.buf).step.n;
    SettledFields(l.s, l.s.bytesSent, n);
    assert SendQueued(l, AsWritten).link.s == MoveFront(Settle(l.s, l.s.bytesSent), n);
  }

  lemma DueIsEverything<C>(queue: seq<Entry<C>>, limit: nat)
    ensures Due(queue, limit) == |queue| <==> forall i :: 0 <= i < |queue| ==> queue[i].end <= limit
  {
    var k := Due(queue, limit);
    assert k < |queue| ==> queue[k].end > limit;
  }

  /** No completion is waiting although its last byte is on the wire. */
  ghost predicate OnTime(l: TLink) {
    forall i :: 0 <= i < |l.s.queue| ==> l.s.queue[i].done.last > |l.net.wire|
  }

  /** The next write will send the last byte that the first completion waits for. */
  predicate FinishesWaiting(l: TLink) {
    && l.s.buf != [] && l.s.queue != []
    && var w := SockWrite(l.net, l.s.buf);
       w.step.Accept? && l.s.queue[0].end <= l.s.bytesSent + w.step.n
  }

  /** Every state of the run as written is on time. */
  ghost predicate AlwaysOnTime(l: TLink, ops: seq<Op>, serial: nat)
    decreases |ops|
  {
    && OnTime(l)
    && (ops != [] ==> AlwaysOnTime(Step(l, ops[0], serial, AsWritten).link, ops[1..], serial + 1))
  }

  /** No write of the run as written finishes a message that a completion waits for. */
  predicate NeverFinishesWaiting(l: TLink, ops: seq<Op>, serial: nat)
    decreases |ops|
  {
    ops != [] ==>
      && !(ops[0].Writable? && FinishesWaiting(l))
      && NeverFinishesWaiting(Step(l, ops[0], serial, AsWritten).link, ops[1..], serial + 1)
  }

  lemma PromptIsOnTime(l: TLink)
    requires Prompt(l)
    ensures OnTime(l)
  {
    forall i | 0 <= i < |l.s.queue| ensures l.s.queue[i].done.last > |l.net.wire| {
      assert Ahead(l, l.s.queue[i]);
    }
  }

  /** What a write of `n` bytes as written leaves of a prompt sender: nothing is due. */
  lemma NothingIsDue(l: TLink, n: nat)
    requires Prompt(l) && n <= |l.s.buf|
    ensures Due(l.s.queue, l.s.bytesSent) == 0
    ensures |Settle(l.s, l.s.bytesSent).buf| == |l.s.buf|
    ensures MoveFront(Settle(l.s, l.s.bytesSent), n).queue == l.s.queue
  {
    assert l.s.queue != [] ==> Ahead(l, l.s.queue[0]);
    SettledFields(l.s, l.s.bytesSent, n);
  }

  /** A write that finishes no message with a waiting completion. */
  lemma UnfinishedStaysPrompt(l: TLink, n: nat, net: Net)
    requires Prompt(l) && 0 < n <= |l.s.buf| && |net.wire| == |l.net.wire| + n
    requires l.s.queue != [] ==> l.s.queue[0].end > l.s.bytesSent + n
    ensures |Settle(l.s, l.s.bytesSent).buf| == |l.s.buf|
    ensures Prompt(Link(MoveFront(Settle(l.s, l.s.bytesSent), n), net))
  {
    NothingIsDue(l, n);
    SettledFields(l.s, l.s.bytesSent, n);
    SettleNotEarly(l, l.s.bytesSent, n, net);
    var r := Link(MoveFront(Settle(l.s, l.s.bytesSent), n), net);
    hide NotEarly, Due, Dones, Settle, MoveFront;
    forall i | 0 <= i < |r.s.queue| ensures Ahead(r, r.s.queue[i]) {
      assert Ahead(l, l.s.queue[i]) && l.s.queue[0].end <= l.s.queue[i].end;
    }
  }

  /** A write that finishes one leaves it waiting, too late. */
  lemma FinishedIsLate(l: TLink, n: nat, net: Net)
    requires Prompt(l) && 0 < n <= |l.s.buf| && |net.wire| == |l.net.wire| + n
    requires l.s.queue != [] && l.s.queue[0].end <= l.s.bytesSent + n
    ensures |Settle(l.s, l.s.bytesSent).buf| == |l.s.buf|
    ensures !OnTime(Link(MoveFront(Settle(l.s, l.s.bytesSent), n), net))
  {
    NothingIsDue(l, n);
    hide Due, Dones, Settle, MoveFront;
    var r := Link(MoveFront(Settle(l.s, l.s.bytesSent), n), net);
    assert r.s.queue[0] == l.s.queue[0] && Ahead(l, l.s.queue[0]);
  }

  lemma WritableOnTimeExactly(l: TLink)
    requires Prompt(l) && SendQueued(l, AsWritten).result != Error
    ensures FinishesWaiting(l) ==> !OnTime(SendQueued(l, AsWritten).link)
    ensures !FinishesWaiting(l) ==> Prompt(SendQueued(l, AsWritten).link)
  {
    hide Prompt, OnTime, SockWrite, Settle, MoveFront, Due, Dones;
    if l.s.buf != [] {
      SendQueuedCases(l, AsWritten);
      hide SendQueued;
      var w := SockWrite(l.net, l.s.buf);
      if w.step.Accept? {
        if FinishesWaiting(l) {
          FinishedIsLate(l, w.step.n, w.net);
        } else {
          UnfinishedStaysPrompt(l, w.step.n, w.net);
        }
      } else {
        BlockedPrompt(l, w.net);
      }
    }
  }

  /** As written, an error-free run is on time in every state if and only if no write
      of it sends the last byte that some completion is waiting for. */
  lemma {:induction false} RunOnTimeExactly(l: TLink, ops: seq<Op>, serial: nat)
    requires Prompt(l) && ErrorFree(l, ops, serial, AsWritten)
    ensures AlwaysOnTime(l, ops, serial) <==> NeverFinishesWaiting(l, ops, serial)
    decreases |ops|
  {
    PromptIsOnTime(l);
    if ops != [] {
      var next := Step(l, ops[0], serial, AsWritten).link;
      var done := TicketFor(l, ops[0], serial);
      match ops[0] {
        case Direct(msg, _) => DirectPrompt(l, msg, done);
        case Staged(edits, _) => StagedPrompt(l, Typed(edits), done);
        case Writable => WritableOnTimeExactly(l);
      }
      hide Step, Prompt, OnTime, FinishesWaiting;
      if !(ops[0].Writable? && FinishesWaiting(l)) {
        RunOnTimeExactly(next, ops[1..], serial + 1);
      } else {
        assert !OnTime(next);
      }
    }
  }

  lemma {:induction false} EndsOnTime(l: TLink, ops: seq<Op>, serial: nat)
    requires AlwaysOnTime(l, ops, serial)
    ensures OnTime(Run(l, ops, serial, AsWritten))
    decreases |ops|
  {
    if ops != [] {
      hide Step, OnTime;
      EndsOnTime(Step(l, ops[0], serial, AsWritten).link, ops[1..], serial + 1);
    }
  }

  /** So for a new sender: as written, every completion has run exactly when the last
      byte of its message is on the wire, in a run with no such write. */
  lemma CompletionsOnTimeAsWritten(script: seq<WriteStep>, ops: seq<Op>)
    requires ErrorFree(Fresh(script), ops, 0, AsWritten) && NeverFinishesWaiting(Fresh(script), ops, 0)
    ensures var r := Run(Fresh(script), ops, 0, AsWritten);
      forall t :: t in Tickets(Fresh(script), ops, 0, AsWritten) ==>
        multiset(r.s.fired)[t] == if t.last <= |r.net.wire| then 1 else 0
  {
    var l := Fresh(script);
    var r, all := Run(l, ops, 0, AsWritten), Tickets(l, ops, 0, AsWritten);
    CompletionsAreNeverEarly(script, ops, AsWritten);
    RunOnTimeExactly(l, ops, 0);
    EndsOnTime(l, ops, 0);
    hide Run, ErrorFree, NeverFinishesWaiting, AlwaysOnTime;
    forall t | t in all ensures multiset(r.s.fired)[t] == if t.last <= |r.net.wire| then 1 else 0 {
      if t !in r.s.fired {
        var i :| 0 <= i < |r.s.queue| && Dones(r.s.queue)[i] == t;
        assert r.s.queue[i].done.last > |r.net.wire|;
      }
    }
  }

  /** As written, a write only runs completions whose last byte was on the wire
      before it: never one whose last byte it sends itself. */
  lemma NoWriteRunsItsOwn(l: TLink)
    requires NotEarly(l)
    ensures forall t :: t in Notified(l, Writable, AsWritten) ==> t.last <= |l.net.wire|
  {
    var k := Due(l.s.queue, l.s.bytesSent);
    forall t | t in Notified(l, Writable, AsWritten) ensures t.last <= |l.net.wire| {
      var i :| 0 <= i < k && Dones(l.s.queue[..k])[i] == t;
      DoneAt(l.s.queue, k, i);
    }
  }

  /** This holds at every point of every error-free run, for instance of a new sender. */
  lemma {:induction false} NoRunRunsItsOwn(l: TLink, ops: seq<Op>, serial: nat, k: nat)
    requires NotEarly(l) && ErrorFree(l, ops, serial, AsWritten) && k < |ops|
    ensures var m := Run(l, ops[..k], serial, AsWritten);
      forall t :: t in Notified(m, Writable, AsWritten) ==> t.last <= |m.net.wire|
    decreases k
  {
    if k == 0 {
      NoWriteRunsItsOwn(l);
    } else {
      StepIsNotEarly(l, ops[0], serial, AsWritten);
      hide Step, NotEarly, Notified;
      NoRunRunsItsOwn(Step(l, ops[0], serial, AsWritten).link, ops[1..], serial + 1, k - 1);
      assert ops[..k][0] == ops[0] && ops[..k][1..] == ops[1..][..k - 1];
    }
  }

  function LateStart(): TLink { Fresh([WouldBlock, Accept(1), Accept(1)]) }

  const LATE_OPS: seq<Op> := [Direct([7], true), Writable, Direct([8], true)]

  function AfterQueueing(): TLink {
    Link(Sender([7], [Entry(1, Ticket(0, 1))], 0, false, []), Net([Accept(1), Accept(1)], []))
  }

  lemma LateFirstStep(timing: Timing)
    ensures Step(LateStart(), LATE_OPS[0], 0, timing) == Sent(AfterQueueing(), InQueue)
  {
    assert LateStart().net.script[1..] == [Accept(1), Accept(1)];
    assert [7 as byte][0..] == [7];
  }

  lemma LateSecondStep()
    ensures Step(AfterQueueing(), Writable, 1, AsWritten)
      == Sent(Link(Sender([], [Entry(1, Ticket(0, 1))], 0, false, []), Net([Accept(1)], [7])), Complete)
    ensures Step(AfterQueueing(), Writable, 1, Intended)
      == Sent(Link(Sender([], [], 0, false, [Ticket(0, 1)]), Net([Accept(1)], [7])), Complete)
  {
    var queue := AfterQueueing().s.queue;
    assert Due(queue, 0) == 0 && Due(queue, 1) == 1;
    assert queue[1..] == [] && Dones(queue[..1]) == [Ticket(0, 1)];
    assert AfterQueueing().net.script[1..] == [Accept(1)];
  }

  lemma LateThirdStep(s: Sender<Ticket>, timing: Timing)
    requires s.buf == []
    ensures Step(Link(s, Net([Accept(1)], [7])), Direct([8], true), 2, timing)
      == Sent(Link(s.(fired := s.fired + [Ticket(2, 2)]), Net([], [7, 8])), Complete)
  {
    assert SockWrite(Net([Accept(1)], [7]), [8]) == Written(Net([], [7, 8]), Accept(1));
  }

  /** A run that fails them: one byte is queued with a completion, and the write
      that sends it leaves the completion waiting; the next message, which takes
      the direct path, completes first. In the intended form both run, in order. */
  lemma AsWrittenIsLate()
    ensures !DrainAsserts(Run(LateStart(), LATE_OPS[..2], 0, AsWritten).s)
    ensures var r := Run(LateStart(), LATE_OPS, 0, AsWritten).s;
      r.fired == [Ticket(2, 2)] && r.queue == [Entry(1, Ticket(0, 1))]
    ensures Run(LateStart(), LATE_OPS, 0, Intended).s.fired == [Ticket(0, 1), Ticket(2, 2)]
  {
    hide Run, SendQueued, SendOrQue, SockWrite, Due, Dones;
    RunOfThree(AsWritten);
    RunOfThree(Intended);
    LateSecondStep();
    LateThirdStep(Step(AfterQueueing(), Writable, 1, AsWritten).link.s, AsWritten);
    LateThirdStep(Step(AfterQueueing(), Writable, 1, Intended).link.s, Intended);
  }

  lemma RunOfThree(timing: Timing)
    ensures var second := Step(AfterQueueing(), Writable, 1, timing).link;
      && Run(LateStart(), LATE_OPS[..2], 0, timing) == second
      && Run(LateStart(), LATE_OPS, 0, timing) == Step(second, Direct([8], true), 2, timing).link
  {
    LateFirstStep(timing);
    var second := Step(AfterQueueing(), Writable, 1, timing).link;
    assert LATE_OPS[..2][1..] == [Writable] && LATE_OPS[1..][1..] == [Direct([8], true)];
    assert Run(second, [], 2, timing) == second;
    assert Run(AfterQueueing(), [Writable], 1, timing) == second;
  }
}
