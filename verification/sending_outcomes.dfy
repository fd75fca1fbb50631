/** What each use of a sender comes to, read off the socket's answers, failures
    included; and what holds over every run, whether or not uses of it fail. */
module SendingOutcomes {
  import opened FlatStorages
  import opened Sending
  import opened SendingLaws

  // ------------------------------------------------------- the socket's answers

  /** How many bytes the socket is ready to take, one write after the other, before
      it gives an answer of another kind. */
  function Capacity(script: seq<WriteStep>): nat {
    if script == [] || !script[0].Accept? then 0 else script[0].n + Capacity(script[1..])
  }

  /** That answer. */
  function Stop(script: seq<WriteStep>): (step: WriteStep)
    ensures !step.Accept?
  {
    if script == [] then WouldBlock
    else if script[0].Accept? then Stop(script[1..])
    else script[0]
  }

  /** How much of `size` bytes goes out. */
  function Out(script: seq<WriteStep>, size: nat): (n: nat)
    ensures n <= size
  {
    if Capacity(script) < size then Capacity(script) else size
  }

  /** The socket fails, or interrupts, while some of the bytes are left. */
  predicate FailsWithin(script: seq<WriteStep>, size: nat) {
    Capacity(script) < size && !Stop(script).WouldBlock?
  }

  /** The socket is asked `k` times: while bytes are left, and until it gives an
      answer of another kind or has no more. */
  predicate Asked(script: seq<WriteStep>, size: nat, k: nat) {
    && k <= |script|
    && (forall i :: 0 <= i < k ==> Capacity(script[..i]) < size)
    && (forall i :: 0 <= i < k - 1 ==> script[i].Accept?)
    && (k == |script| || Capacity(script[..k]) >= size || (k > 0 && !script[k - 1].Accept?))
  }

  lemma CapacityOfPart(script: seq<WriteStep>, i: nat)
    requires script != [] && script[0].Accept? && i < |script|
    ensures Capacity(script[..i + 1]) == script[0].n + Capacity(script[1..][..i])
  {
    assert script[..i + 1][1..] == script[1..][..i];
  }

  lemma AskedOnce(script: seq<WriteStep>, size: nat)
    requires size > 0 && script != [] && (script[0].Accept? ==> script[0].n >= size)
    ensures Asked(script, size, 1)
  {
    if script[0].Accept? {
      CapacityOfPart(script, 0);
    }
  }

  lemma {:induction false} AskedMore(script: seq<WriteStep>, size: nat, k: nat)
    requires script != [] && script[0].Accept? && script[0].n < size && Asked(script[1..], size - script[0].n, k)
    ensures Asked(script, size, k + 1)
  {
    forall i | 0 <= i < k + 1 ensures Capacity(script[..i]) < size {
      if i > 0 {
        CapacityOfPart(script, i - 1);
        assert Capacity(script[1..][..i - 1]) < size - script[0].n;
      }
    }
    forall i | 0 <= i < k ensures script[i].Accept? {
      assert i > 0 ==> script[1..][i - 1] == script[i];
    }
    CapacityOfPart(script, k);
  }

  /** try_send_all fails exactly if the socket does while bytes are left; in any case
      the bytes that the socket was ready to take are on the wire, and it has been
      asked no more often than that needs. */
  lemma {:induction false} TrySendAllExactly(net: Net, buf: bytes) returns (k: nat)
    ensures var t, n := TrySendAll(net, buf), Out(net.script, |buf|);
      && t.net.wire == net.wire + buf[..n]
      && (t.ok <==> !FailsWithin(net.script, |buf|))
      && (t.ok ==> t.sent == n)
    ensures Asked(net.script, |buf|, k) && TrySendAll(net, buf).net.script == net.script[k..]
    decreases |net.script|
  {
    k := 0;
    if buf != [] && net.script != [] {
      var w := SockWrite(net, buf);
      if w.step.Accept? && w.step.n < |buf| {
        var n := w.step.n;
        var more := TrySendAllExactly(w.net, buf[n..]);
        SplitWire(net.wire, buf, n, Out(w.net.script, |buf| - n));
        AskedMore(net.script, |buf|, more);
        k := more + 1;
      } else {
        AskedOnce(net.script, |buf|);
        k := 1;
      }
    }
  }

  lemma SplitWire(wire: bytes, buf: bytes, n: nat, m: nat)
    requires n + m <= |buf|
    ensures wire + buf[..n] + buf[n..][..m] == wire + buf[..n + m]
  {
    assert buf[..n] + buf[n..][..m] == buf[..n + m];
  }

  // -------------------------------------------------------------- single uses

  /** The socket is only written to when nothing waits. */
  predicate Tries<C>(l: Link<C>, msg: bytes) { msg != [] && l.s.buf == [] }

  /** How much of a message goes out at once. */
  function Passed<C>(l: Link<C>, msg: bytes): (n: nat)
    ensures n <= |msg|
  {
    if Tries(l, msg) then Out(l.net.script, |msg|) else 0
  }

  predicate Fails<C>(l: Link<C>, msg: bytes) { Tries(l, msg) && FailsWithin(l.net.script, |msg|) }

  function OptionSeq<C>(done: Option<C>): seq<C> { if done.Some? then [done.value] else [] }

  function EntrySeq<C>(end: nat, done: Option<C>): seq<Entry<C>> {
    if done.Some? then [Entry(end, done.value)] else []
  }

  /** How a send that has put `n` bytes on the wire ends. */
  ghost predicate Ends(result: SendResult, fails: bool, n: nat, msg: bytes) {
    && (result == Error <==> fails)
    && (result == Complete <==> !fails && n == |msg|)
  }

  /** send_or_que: a failed send leaves the sender as it was, and its completion is
      neither run nor queued. Otherwise the rest of the message is in the buffer, and
      the completion has been run if there is no rest and waits for it if there is. */
  lemma DirectExactly<C>(l: Link<C>, msg: bytes, done: Option<C>)
    ensures var x, n := SendOrQue(l, msg, done), Passed(l, msg);
      && Ends(x.result, Fails(l, msg), n, msg)
      && x.link.net.wire == l.net.wire + msg[..n]
      && (!Tries(l, msg) ==> x.link.net == l.net)
      && (x.result == Error ==> x.link.s == l.s)
      && (x.result != Error ==> x.link.s.buf == l.s.buf + msg[n..])
      && x.link.s.fired == l.s.fired + (if x.result == Complete then OptionSeq(done) else [])
      && x.link.s.queue == l.s.queue
           + (if x.result == InQueue then EntrySeq(l.s.bytesSent + |x.link.s.buf|, done) else [])
      && x.link.s.bytesSent == l.s.bytesSent && x.link.s.broken == l.s.broken
  {
    if Tries(l, msg) {
      var k := TrySendAllExactly(l.net, msg);
    }
    hide TrySendAll, SockWrite, Capacity, Stop;
    assert l.net.wire + msg[..0] == l.net.wire;
  }

  /** AutoSendBuffer::send: a failed send breaks the sender and leaves the message in
      its buffer, but its completion too is neither run nor queued. */
  lemma StagedExactly<C>(l: Link<C>, msg: bytes, done: Option<C>)
    ensures var x, n := StagedSend(l, msg, done), Passed(l, msg);
      && Ends(x.result, Fails(l, msg), n, msg)
      && x.link.net.wire == l.net.wire + msg[..n]
      && (!Tries(l, msg) ==> x.link.net == l.net)
      && (x.result == Error ==> x.link.s == l.s.(buf := msg, broken := true))
      && (x.result != Error ==> x.link.s.buf == l.s.buf + msg[n..] && x.link.s.broken == l.s.broken)
      && x.link.s.fired == l.s.fired + (if x.result == Complete then OptionSeq(done) else [])
      && x.link.s.queue == l.s.queue
           + (if x.result == InQueue then EntrySeq(x.link.s.bytesSent + |x.link.s.buf|, done) else [])
      && (x.result != Error ==>
            x.link.s.bytesSent == if n > 0 && n == |msg| then 0 else l.s.bytesSent + n)
  {
    if Tries(l, msg) {
      var k := TrySendAllExactly(l.net, msg);
    }
    hide TrySendAll, SockWrite, Capacity, Stop;
    assert l.net.wire + msg[..0] == l.net.wire;
  }

  lemma FailedDirect<C>(l: Link<C>, msg: bytes, done: Option<C>)
    ensures var x := SendOrQue(l, msg, done);
      && (x.result == Error <==> Fails(l, msg))
      && (x.result == Error ==> x.link.s == l.s)
  {
    DirectExactly(l, msg, done);
  }

  lemma FailedStaged<C>(l: Link<C>, msg: bytes, done: Option<C>)
    ensures var x := StagedSend(l, msg, done);
      && (x.result == Error <==> Fails(l, msg))
      && (x.result == Error ==> x.link.s == l.s.(buf := msg, broken := true))
  {
    StagedExactly(l, msg, done);
  }

  /** The socket's next answer. */
  function Next(script: seq<WriteStep>): WriteStep { if script == [] then WouldBlock else script[0] }

  /** send_queued: one write. It fails exactly if the socket does or takes nothing,
      and then breaks the sender and does nothing else to it. Otherwise what the socket
      takes leaves the buffer, and the completions up to the limit leave the queue and
      are run, in order. */
  lemma WritableExactly<C>(l: Link<C>, timing: Timing) returns (k: nat)
    requires l.s.buf != []
    ensures var x, a := SendQueued(l, timing), Next(l.net.script);
      && (x.result == Error <==> a.Reset? || a.Failure? || a == Accept(0))
      && (x.result == Error ==> x.link.s == l.s.(broken := true))
      && (a.WouldBlock? || a.Interrupted? ==> x.result == InQueue && x.link.s == l.s)
      && (!a.Accept? || a.n == 0 ==> x.link.net.wire == l.net.wire)
      && x.link.net.script == (if l.net.script == [] then [] else l.net.script[1..])
    ensures var x, a := SendQueued(l, timing), Next(l.net.script);
      a.Accept? && a.n > 0 ==>
        var n := if a.n < |l.s.buf| then a.n else |l.s.buf|;
        var limit := l.s.bytesSent + if timing.Intended? then n else 0;
        && x.link.net.wire == l.net.wire + l.s.buf[..n] && x.link.s.buf == l.s.buf[n..]
        && x.result == (if n == |l.s.buf| then Complete else InQueue)
        && x.link.s.bytesSent == (if n == |l.s.buf| then 0 else l.s.bytesSent + n)
        && x.link.s.broken == l.s.broken
        && k <= |l.s.queue| && x.link.s.queue == l.s.queue[k..]
        && x.link.s.fired == l.s.fired + Dones(l.s.queue[..k])
        && (forall i :: 0 <= i < k ==> l.s.queue[i].end <= limit)
        && (k < |l.s.queue| ==> l.s.queue[k].end > limit)
  {
    SendQueuedCases(l, timing);
    hide SendQueued;
    var w := SockWrite(l.net, l.s.buf);
    k := 0;
    if w.step.Accept? {
      var limit := Limit(l.s, w.step.n, timing);
      k := Due(l.s.queue, limit);
      SettledFields(l.s, limit, w.step.n);
      hide Settle, MoveFront, Dones;
    }
  }

  lemma NothingToWrite<C>(l: Link<C>, timing: Timing)
    requires l.s.buf == []
    ensures SendQueued(l, timing) == Sent(l, Complete)
  {}

  // --------------------------------------------------------------------- runs

  /** The completions of the uses of a run that failed. */
  function FailedTickets(l: TLink, ops: seq<Op>, serial: nat, timing: Timing): seq<Ticket>
    decreases |ops|
  {
    if ops == [] then []
    else
      (if Fails(l, Message(ops[0])) then OptionSeq(TicketFor(l, ops[0], serial)) else [])
      + FailedTickets(Step(l, ops[0], serial, timing).link, ops[1..], serial + 1, timing)
  }

  /** A failed use adds no completion to those held and starts none. */
  lemma FailedStep(l: TLink, op: Op, serial: nat, timing: Timing)
    requires Step(l, op, serial, timing).result == Error
    ensures var x := Step(l, op, serial, timing).link;
      && x.s.fired == l.s.fired && x.s.queue == l.s.queue && x.s.bytesSent == l.s.bytesSent
      && (x.s.buf == [] ==> l.s.buf == []) && l.net.wire <= x.net.wire
      && (op.Writable? || Fails(l, Message(op)))
  {
    match op {
      case Direct(msg, _) => DirectExactly(l, msg, TicketFor(l, op, serial));
      case Staged(edits, _) => StagedExactly(l, Typed(edits), TicketFor(l, op, serial));
      case Writable =>
        if l.s.buf != [] {
          var k := WritableExactly(l, timing);
        }
    }
  }

  lemma SoundStep(l: TLink, op: Op, serial: nat, timing: Timing)
    requires Step(l, op, serial, timing).result != Error
    ensures !Fails(l, Message(op))
  {
    match op {
      case Direct(msg, _) => DirectExactly(l, msg, TicketFor(l, op, serial));
      case Staged(edits, _) => StagedExactly(l, Typed(edits), TicketFor(l, op, serial));
      case Writable =>
    }
  }

  /** Over every run, each completion passed in is run, or waits, or belongs to a use
      that failed. */
  lemma {:induction false} TicketsOfAnyRun(l: TLink, ops: seq<Op>, serial: nat, timing: Timing)
    ensures Held(Run(l, ops, serial, timing)) + multiset(FailedTickets(l, ops, serial, timing))
      == Held(l) + multiset(Tickets(l, ops, serial, timing))
    decreases |ops|
  {
    if ops != [] {
      hide Step, Fails, Message, TicketFor, Held;
      var next := Step(l, ops[0], serial, timing).link;
      TicketsOfAnyRun(next, ops[1..], serial + 1, timing);
      StepHolds(l, ops[0], serial, timing);
      var f1 := if Fails(l, Message(ops[0])) then OptionSeq(TicketFor(l, ops[0], serial)) else [];
      var f2 := FailedTickets(next, ops[1..], serial + 1, timing);
      var t1, t2 := AsSeq(TicketFor(l, ops[0], serial)), Tickets(next, ops[1..], serial + 1, timing);
      assert multiset(f1 + f2) == multiset(f1) + multiset(f2) && multiset(t1 + t2) == multiset(t1) + multiset(t2);
      HeldFurther(Held(l), Held(next), Held(Run(next, ops[1..], serial + 1, timing)),
                  multiset(f1), multiset(f2), multiset(t1), multiset(t2));
    }
  }

  lemma HeldFurther<X>(a: multiset<X>, b: multiset<X>, c: multiset<X>, f1: multiset<X>, f2: multiset<X>,
                       t1: multiset<X>, t2: multiset<X>)
    requires b + f1 == a + t1 && c + f2 == b + t2
    ensures c + (f1 + f2) == a + (t1 + t2)
  {
    forall x ensures (c + (f1 + f2))[x] == (a + (t1 + t2))[x] {
      assert (b + f1)[x] == (a + t1)[x] && (c + f2)[x] == (b + t2)[x];
    }
  }

  lemma StepHolds(l: TLink, op: Op, serial: nat, timing: Timing)
    ensures Held(Step(l, op, serial, timing).link)
      + multiset(if Fails(l, Message(op)) then OptionSeq(TicketFor(l, op, serial)) else [])
      == Held(l) + multiset(AsSeq(TicketFor(l, op, serial)))
  {
    hide Step, Fails;
    if Step(l, op, serial, timing).result == Error {
      FailedStep(l, op, serial, timing);
    } else {
      SoundStep(l, op, serial, timing);
      StepKeepsTickets(l, op, serial, timing);
    }
  }

  lemma {:induction false} AnyRunIsNotEarly(l: TLink, ops: seq<Op>, serial: nat, timing: Timing)
    requires NotEarly(l)
    ensures NotEarly(Run(l, ops, serial, timing))
    decreases |ops|
  {
    if ops != [] {
      hide Step, NotEarly;
      AnyStepIsNotEarly(l, ops[0], serial, timing);
      AnyRunIsNotEarly(Step(l, ops[0], serial, timing).link, ops[1..], serial + 1, timing);
    }
  }

  lemma AnyStepIsNotEarly(l: TLink, op: Op, serial: nat, timing: Timing)
    requires NotEarly(l)
    ensures NotEarly(Step(l, op, serial, timing).link)
  {
    hide Step;
    if Step(l, op, serial, timing).result == Error {
      FailedStep(l, op, serial, timing);
    } else {
      StepIsNotEarly(l, op, serial, timing);
    }
  }

  lemma {:induction false} FailedArePassedIn(l: TLink, ops: seq<Op>, serial: nat, timing: Timing)
    ensures multiset(FailedTickets(l, ops, serial, timing)) <= multiset(Tickets(l, ops, serial, timing))
    decreases |ops|
  {
    if ops != [] {
      hide Step, Fails, Message, TicketFor;
      FailedArePassedIn(Step(l, ops[0], serial, timing).link, ops[1..], serial + 1, timing);
    }
  }

  /** Over any run of a new sender, failures included, and with either timing: the
      completion of a failed use is neither run nor waiting; every other one has run
      or waits, once, and none has run while its last byte is not yet on the wire. */
  lemma CompletionsOfAnyRun(script: seq<WriteStep>, ops: seq<Op>, timing: Timing)
    ensures var r, failed := Run(Fresh(script), ops, 0, timing), FailedTickets(Fresh(script), ops, 0, timing);
      && (forall t :: t in r.s.fired || t in Dones(r.s.queue) ==> t in Tickets(Fresh(script), ops, 0, timing))
      && forall t :: t in Tickets(Fresh(script), ops, 0, timing) ==>
           && multiset(r.s.fired)[t] + multiset(Dones(r.s.queue))[t] == (if t in failed then 0 else 1)
           && (t in r.s.fired ==> t.last <= |r.net.wire|)
  {
    hide Run, FailedTickets, Tickets, Dones;
    var l := Fresh(script);
    TicketsOfAnyRun(l, ops, 0, timing);
    TicketsAreDistinct(l, ops, 0, timing);
    FailedArePassedIn(l, ops, 0, timing);
    AnyRunIsNotEarly(l, ops, 0, timing);
    var r, all, failed := Run(l, ops, 0, timing), Tickets(l, ops, 0, timing), FailedTickets(l, ops, 0, timing);
    assert Held(l) == multiset{} by {
      assert l.s.fired == [] && l.s.queue == [] && |Dones(l.s.queue)| == 0;
    }
    forall t
      ensures t in r.s.fired || t in Dones(r.s.queue) ==> t in all
      ensures t in all ==>
        multiset(r.s.fired)[t] + multiset(Dones(r.s.queue))[t] == (if t in failed then 0 else 1)
    {
      assert (Held(r) + multiset(failed))[t] == (Held(l) + multiset(all))[t];
      assert multiset(failed)[t] <= multiset(all)[t];
      assert t in failed <==> multiset(failed)[t] > 0;
    }
  }

  // --------------------------------------------------------- the bytes of a run

  /** What a use adds to the wire and the buffer together. A send from a staging
      buffer that fails leaves the message in the buffer, though a part of it has
      gone out. */
  function Added(l: TLink, op: Op): bytes {
    match op
    case Direct(msg, _) => if Fails(l, msg) then msg[..Passed(l, msg)] else msg
    case Staged(edits, _) =>
      if Fails(l, Typed(edits)) then Typed(edits)[..Passed(l, Typed(edits))] + Typed(edits) else Typed(edits)
    case Writable => []
  }

  function AllAdded(l: TLink, ops: seq<Op>, serial: nat, timing: Timing): bytes
    decreases |ops|
  {
    if ops == [] then []
    else Added(l, ops[0]) + AllAdded(Step(l, ops[0], serial, timing).link, ops[1..], serial + 1, timing)
  }

  lemma StepAdds(l: TLink, op: Op, serial: nat, timing: Timing)
    ensures Stream(Step(l, op, serial, timing).link) == Stream(l) + Added(l, op)
  {
    hide Fails, Passed, SendOrQue, StagedSend, SendQueued;
    var x := Step(l, op, serial, timing);
    if x.result != Error {
      SoundStep(l, op, serial, timing);
      StepKeepsStream(l, op, serial, timing);
    } else {
      FailedStep(l, op, serial, timing);
      match op {
        case Direct(msg, _) =>
          DirectExactly(l, msg, TicketFor(l, op, serial));
          TriedWhenEmpty(l, msg);
        case Staged(edits, _) =>
          StagedExactly(l, Typed(edits), TicketFor(l, op, serial));
          TriedWhenEmpty(l, Typed(edits));
        case Writable =>
          if l.s.buf != [] {
            var k := WritableExactly(l, timing);
          } else {
            NothingToWrite(l, timing);
          }
      }
    }
  }

  lemma TriedWhenEmpty<C>(l: Link<C>, msg: bytes)
    requires Fails(l, msg)
    ensures l.s.buf == []
  {}

  /** Over every run, wire and buffer together grow by what its uses add, in order. */
  lemma {:induction false} StreamOfAnyRun(l: TLink, ops: seq<Op>, serial: nat, timing: Timing)
    ensures Stream(Run(l, ops, serial, timing)) == Stream(l) + AllAdded(l, ops, serial, timing)
    decreases |ops|
  {
    hide Step, Stream, Added;
    if ops != [] {
      var next := Step(l, ops[0], serial, timing).link;
      StepAdds(l, ops[0], serial, timing);
      StreamOfAnyRun(next, ops[1..], serial + 1, timing);
      Regroup3(Stream(l), Added(l, ops[0]), AllAdded(next, ops[1..], serial + 1, timing));
    } else {
      assert Stream(l) + [] == Stream(l);
    }
  }
}
