/** An AutoSendBuffer that is written to and then sent behaves like one call of
    send_or_que with everything that was written: always in what it does to the
    bytes, and in when completions run exactly as long as no step parts the two. */
module Staging {
  import opened FlatStorages
  import opened Sending
  import opened SendingLaws

  /** The two senders differ by the distance `d` between their byte counters. */
  ghost predicate Shifted<C>(a: Link<C>, b: Link<C>, d: int) {
    && a.net == b.net
    && a.s.buf == b.s.buf
    && a.s.broken == b.s.broken
    && a.s.fired == b.s.fired
    && a.s.bytesSent == b.s.bytesSent + d
    && ShiftedQueue(a.s.queue, b.s.queue, d)
  }

  ghost predicate ShiftedQueue<C>(a: seq<Entry<C>>, b: seq<Entry<C>>, d: int) {
    && |a| == |b|
    && forall i :: 0 <= i < |a| ==> a[i].done == b[i].done && a[i].end == b[i].end + d
  }

  /** What a caller of either sender can see. */
  ghost predicate LooksLike<C>(a: Link<C>, b: Link<C>) {
    && a.net == b.net && a.s.buf == b.s.buf && a.s.broken == b.s.broken
    && a.s.fired == b.s.fired && Dones(a.s.queue) == Dones(b.s.queue)
  }

  /** The same use of the sender, without staging. */
  function Directly(op: Op): Op {
    match op
    case Staged(edits, wanted) => Direct(Typed(edits), wanted)
    case _ => op
  }

  function AllDirectly(ops: seq<Op>): (r: seq<Op>)
    ensures |r| == |ops|
  {
    if ops == [] then [] else [Directly(ops[0])] + AllDirectly(ops[1..])
  }

  // -------------------------------------------------- bytes: no condition at all

  ghost predicate SameBytes<C>(a: Link<C>, b: Link<C>) {
    a.net == b.net && a.s.buf == b.s.buf && a.s.broken == b.s.broken
  }

  lemma StepKeepsBytes(a: TLink, b: TLink, op: Op, serial: nat, timing: Timing)
    requires SameBytes(a, b) && Step(a, op, serial, timing).result != Error
    ensures TicketFor(a, op, serial) == TicketFor(b, Directly(op), serial)
    ensures Step(a, op, serial, timing).result == Step(b, Directly(op), serial, timing).result
    ensures SameBytes(Step(a, op, serial, timing).link, Step(b, Directly(op), serial, timing).link)
  {
    hide SockWrite, TrySendAll, Due, Dones;
  }

  /** Over every error-free run, with either timing, staging changes nothing about
      the bytes or about which completions are passed in, only when they run. */
  lemma {:induction false} StagingKeepsBytes(a: TLink, b: TLink, ops: seq<Op>, serial: nat, timing: Timing)
    requires SameBytes(a, b) && ErrorFree(a, ops, serial, timing)
    ensures ErrorFree(b, AllDirectly(ops), serial, timing)
    ensures SameBytes(Run(a, ops, serial, timing), Run(b, AllDirectly(ops), serial, timing))
    ensures Tickets(a, ops, serial, timing) == Tickets(b, AllDirectly(ops), serial, timing)
    decreases |ops|
  {
    if ops != [] {
      hide Step, TicketFor;
      assert AllDirectly(ops)[1..] == AllDirectly(ops[1..]);
      StepKeepsBytes(a, b, ops[0], serial, timing);
      StagingKeepsBytes(Step(a, ops[0], serial, timing).link, Step(b, Directly(ops[0]), serial, timing).link,
                        ops[1..], serial + 1, timing);
    }
  }

  // ------------------------------------------ completions: which steps part them

  /** A step of the staged run, at distance `d`, after which the senders are no
      longer shifted: a first part of a staged message goes out while old
      completions wait, or a write drains the buffer and leaves some waiting. */
  predicate Parts(l: TLink, d: int, op: Op, timing: Timing) {
    match op
    case Direct(_, _) => false
    case Staged(edits, _) =>
      && Typed(edits) != [] && l.s.buf == [] && l.s.queue != []
      && 0 < TrySendAll(l.net, Typed(edits)).sent < |Typed(edits)|
    case Writable =>
      && l.s.buf != [] && d != 0
      && SockWrite(l.net, l.s.buf).step == Accept(|l.s.buf|)
      && Due(l.s.queue, Limit(l.s, |l.s.buf|, timing)) < |l.s.queue|
  }

  /** The distance after a step that does not part the senders: what was sent of a
      staged message at once, until a write drains the buffer. */
  function Moved(l: TLink, d: int, op: Op): int {
    match op
    case Direct(_, _) => d
    case Staged(edits, _) =>
      if Typed(edits) == [] || l.s.buf != [] then d
      else
        var sent := TrySendAll(l.net, Typed(edits)).sent;
        if sent < |Typed(edits)| then sent else 0
    case Writable =>
      if l.s.buf != [] && SockWrite(l.net, l.s.buf).step == Accept(|l.s.buf|) then 0 else d
  }

  /** No step of the run parts it from the direct run, which is `d` behind. */
  predicate NeverParts(l: TLink, d: int, ops: seq<Op>, serial: nat, timing: Timing)
    decreases |ops|
  {
    ops != [] ==>
      && !Parts(l, d, ops[0], timing)
      && NeverParts(Step(l, ops[0], serial, timing).link, Moved(l, d, ops[0]), ops[1..], serial + 1, timing)
  }

  predicate Rewound<C>(s: Sender<C>) { s.buf == [] ==> s.bytesSent == 0 }

  /** The senders are at some distance in every state of the two runs. */
  ghost predicate StayShifted(a: TLink, b: TLink, ops: seq<Op>, serial: nat, timing: Timing)
    decreases |ops|
  {
    && (exists e :: Shifted(a, b, e))
    && (ops != [] ==>
          StayShifted(Step(a, ops[0], serial, timing).link, Step(b, Directly(ops[0]), serial, timing).link,
                      ops[1..], serial + 1, timing))
  }

  lemma DirectStaysShifted<C>(a: Link<C>, b: Link<C>, d: int, msg: bytes, done: Option<C>)
    requires Shifted(a, b, d) && Rewound(a.s) && Rewound(b.s)
    requires SendOrQue(a, msg, done).result != Error
    ensures var x, y := SendOrQue(a, msg, done).link, SendOrQue(b, msg, done).link;
      Shifted(x, y, d) && Rewound(x.s) && Rewound(y.s)
  {
    hide SockWrite, TrySendAll;
  }

  /** The first part of a message has gone out and the rest has been queued. */
  lemma RestIsShifted<C>(a: Sender<C>, b: Sender<C>, rest: bytes, sent: nat, done: Option<C>)
    requires ShiftedQueue(a.queue, b.queue, 0) && a.buf == b.buf == rest && a.bytesSent == b.bytesSent + sent
    ensures Enqueue(a, done) == a.(queue := Enqueue(a, done).queue)
    ensures Enqueue(b, done) == b.(queue := Enqueue(b, done).queue)
    ensures Dones(Enqueue(a, done).queue) == Dones(Enqueue(b, done).queue)
    ensures ShiftedQueue(Enqueue(a, done).queue, Enqueue(b, done).queue, sent) <==> sent == 0 || a.queue == []
  {
    var x, y := Enqueue(a, done).queue, Enqueue(b, done).queue;
    if sent != 0 && a.queue != [] {
      assert x[0] == a.queue[0] && y[0] == b.queue[0];
    }
  }

  /** What the two forms of sending leave on an empty buffer. */
  lemma SentAtOnce<C>(l: Link<C>, msg: bytes, done: Option<C>)
    requires msg != [] && l.s.buf == [] && l.s.bytesSent == 0 && TrySendAll(l.net, msg).ok
    ensures var t := TrySendAll(l.net, msg);
      && StagedSend(l, msg, done).link.net == SendOrQue(l, msg, done).link.net == t.net
      && (t.sent == |msg| ==> StagedSend(l, msg, done).link.s == SendOrQue(l, msg, done).link.s == Fire(l.s, done))
      && (t.sent < |msg| ==>
            && StagedSend(l, msg, done).link.s == Enqueue(l.s.(buf := msg[t.sent..], bytesSent := t.sent), done)
            && SendOrQue(l, msg, done).link.s == Enqueue(l.s.(buf := msg[t.sent..]), done))
  {
    hide SockWrite, TrySendAll, Enqueue;
    assert msg[0..] == msg;
  }

  /** A message is sent at once, completely or in part, by two equal senders. */
  lemma StagedAtOnce<C>(a: Link<C>, b: Link<C>, msg: bytes, done: Option<C>)
    requires Shifted(a, b, 0) && msg != [] && a.s.buf == [] && a.s.bytesSent == 0
    requires TrySendAll(a.net, msg).ok
    ensures var x, y := StagedSend(a, msg, done).link, SendOrQue(b, msg, done).link;
      var sent := TrySendAll(a.net, msg).sent;
      && Rewound(x.s) && Rewound(y.s) && LooksLike(x, y)
      && x.s.bytesSent == y.s.bytesSent + (if sent < |msg| then sent else 0)
      && (ShiftedQueue(x.s.queue, y.s.queue, x.s.bytesSent - y.s.bytesSent) <==>
            sent == 0 || sent == |msg| || a.s.queue == [])
  {
    hide SockWrite, TrySendAll, StagedSend, SendOrQue, Enqueue, Dones, ShiftedQueue;
    SentAtOnce(a, msg, done);
    SentAtOnce(b, msg, done);
    ShiftedDones(a.s.queue, b.s.queue, 0);
    var t := TrySendAll(a.net, msg);
    if t.sent < |msg| {
      var rest := msg[t.sent..];
      RestIsShifted(a.s.(buf := rest, bytesSent := t.sent), b.s.(buf := rest), rest, t.sent, done);
    }
  }

  /** The staged bytes join a queue, or there are none. */
  lemma StagedBehind<C>(a: Link<C>, b: Link<C>, d: int, msg: bytes, done: Option<C>)
    requires Shifted(a, b, d) && (msg == [] || a.s.buf != [])
    ensures var x, y := StagedSend(a, msg, done).link, SendOrQue(b, msg, done).link;
      Shifted(x, y, d) && (Rewound(a.s) ==> Rewound(x.s)) && (Rewound(b.s) ==> Rewound(y.s))
  {
    hide SockWrite, TrySendAll, Enqueue, ShiftedQueue;
    var full := a.s.buf + msg;
    GrownIsShifted(a.s.(buf := full), b.s.(buf := full), d, done);
  }

  lemma GrownIsShifted<C>(a: Sender<C>, b: Sender<C>, d: int, done: Option<C>)
    requires ShiftedQueue(a.queue, b.queue, d) && a.buf == b.buf && a.bytesSent == b.bytesSent + d
    ensures ShiftedQueue(Enqueue(a, done).queue, Enqueue(b, done).queue, d)
    ensures Enqueue(a, done) == a.(queue := Enqueue(a, done).queue)
    ensures Enqueue(b, done) == b.(queue := Enqueue(b, done).queue)
    ensures Dones(Enqueue(a, done).queue) == Dones(Enqueue(b, done).queue)
  {}

  lemma ShiftedDones<C>(a: seq<Entry<C>>, b: seq<Entry<C>>, d: int)
    requires ShiftedQueue(a, b, d)
    ensures Dones(a) == Dones(b)
  {}

  lemma {:induction false} DueShifted<C>(a: seq<Entry<C>>, b: seq<Entry<C>>, d: int, la: nat, lb: nat)
    requires ShiftedQueue(a, b, d) && la == lb + d
    ensures Due(a, la) == Due(b, lb)
    decreases |a|
  {
    if a != [] && a[0].end <= la {
      assert ShiftedQueue(a[1..], b[1..], d);
      DueShifted(a[1..], b[1..], d, la, lb);
    }
  }

  lemma SettleShifted<C>(a: Link<C>, b: Link<C>, d: int, n: nat, timing: Timing)
    requires Shifted(a, b, d) && n <= |a.s.buf|
    ensures var x := Settle(a.s, Limit(a.s, n, timing)); var y := Settle(b.s, Limit(b.s, n, timing));
      Shifted(a.(s := x), b.(s := y), d)
  {
    DueShifted(a.s.queue, b.s.queue, d, Limit(a.s, n, timing), Limit(b.s, n, timing));
    var k := Due(a.s.queue, Limit(a.s, n, timing));
    assert Dones(a.s.queue[..k]) == Dones(b.s.queue[..k]);
    assert ShiftedQueue(a.s.queue[k..], b.s.queue[k..], d);
  }

  /** A write of `n` bytes by two shifted senders. */
  lemma WriteStaysShiftedExactly<C>(a: Link<C>, b: Link<C>, d: int, n: nat, net: Net, timing: Timing)
    requires Shifted(a, b, d) && 0 < n <= |a.s.buf|
    ensures |Settle(a.s, Limit(a.s, n, timing)).buf| == |Settle(b.s, Limit(b.s, n, timing)).buf| == |a.s.buf|
    ensures var x := Link(MoveFront(Settle(a.s, Limit(a.s, n, timing)), n), net);
      var y := Link(MoveFront(Settle(b.s, Limit(b.s, n, timing)), n), net);
      && Rewound(x.s) && Rewound(y.s) && LooksLike(x, y)
      && (n < |a.s.buf| ==> Shifted(x, y, d))
      && (n == |a.s.buf| ==>
            && x.s.bytesSent == y.s.bytesSent == 0
            && (Shifted(x, y, 0) <==> d == 0 || Due(a.s.queue, Limit(a.s, n, timing)) == |a.s.queue|))
  {
    SettleShifted(a, b, d, n, timing);
    var la, lb := Limit(a.s, n, timing), Limit(b.s, n, timing);
    SettledFields(a.s, la, n);
    SettledFields(b.s, lb, n);
    hide Due, Dones, Settle, MoveFront, Limit;
    var k := Due(a.s.queue, la);
    if n == |a.s.buf| && k < |a.s.queue| {
      assert Settle(a.s, la).queue[0].end == Settle(b.s, lb).queue[0].end + d;
    }
  }

  /** What send_queued does when it meets no error. */
  lemma WriteIsSettle<C>(l: Link<C>, timing: Timing)
    requires l.s.buf != [] && SendQueued(l, timing).result != Error
    ensures var w, x := SockWrite(l.net, l.s.buf), SendQueued(l, timing).link;
      && (w.step.Accept? ==>
            && 0 < w.step.n <= |Settle(l.s, Limit(l.s, w.step.n, timing)).buf| == |l.s.buf|
            && x == Link(MoveFront(Settle(l.s, Limit(l.s, w.step.n, timing)), w.step.n), w.net))
      && (!w.step.Accept? ==> x == l.(net := w.net))
  {
    SendQueuedCases(l, timing);
  }

  lemma ShiftedElsewhere<C>(a: Link<C>, b: Link<C>, d: int, net: Net)
    requires Shifted(a, b, d)
    ensures Shifted(a.(net := net), b.(net := net), d) && LooksLike(a.(net := net), b.(net := net)) && LooksLike(a, b)
  {
    ShiftedDones(a.s.queue, b.s.queue, d);
  }

  lemma WritableStaysShiftedExactly(a: TLink, b: TLink, d: int, timing: Timing)
    requires Shifted(a, b, d) && Rewound(a.s) && Rewound(b.s) && SendQueued(a, timing).result != Error
    requires SendQueued(b, timing).result != Error
    ensures var x, y := SendQueued(a, timing).link, SendQueued(b, timing).link;
      && Rewound(x.s) && Rewound(y.s) && LooksLike(x, y)
      && (Parts(a, d, Writable, timing) ==> !Shifted(x, y, x.s.bytesSent - y.s.bytesSent))
      && (!Parts(a, d, Writable, timing) ==> Shifted(x, y, Moved(a, d, Writable)))
  {
    ShiftedElsewhere(a, b, d, SockWrite(a.net, a.s.buf).net);
    assert a.net == b.net && a.s.buf == b.s.buf;
    hide SockWrite, Dones, Due, Settle, MoveFront, Shifted, LooksLike, Rewound, Limit;
    if a.s.buf != [] {
      hide SendQueued;
      var w := SockWrite(a.net, a.s.buf);
      WriteIsSettle(a, timing);
      WriteIsSettle(b, timing);
      if w.step.Accept? {
        WriteStaysShiftedExactly(a, b, d, w.step.n, w.net, timing);
      }
    }
  }

  lemma StagedStaysShiftedExactly(a: TLink, b: TLink, d: int, edits: seq<Edit>, timing: Timing,
                                  done: Option<Ticket>)
    requires Shifted(a, b, d) && Rewound(a.s) && Rewound(b.s) && StagedSend(a, Typed(edits), done).result != Error
    ensures var x, y := StagedSend(a, Typed(edits), done).link, SendOrQue(b, Typed(edits), done).link;
      var op := Staged(edits, done.Some?);
      && Rewound(x.s) && Rewound(y.s) && LooksLike(x, y)
      && (Parts(a, d, op, timing) ==> !Shifted(x, y, x.s.bytesSent - y.s.bytesSent))
      && (!Parts(a, d, op, timing) ==> Shifted(x, y, Moved(a, d, op)))
  {
    hide SockWrite, TrySendAll, Enqueue, ShiftedQueue, Dones, SendOrQue;
    var msg := Typed(edits);
    if msg == [] || a.s.buf != [] {
      StagedBehind(a, b, d, msg, done);
      ShiftedLooksLike(StagedSend(a, msg, done).link, SendOrQue(b, msg, done).link, d);
    } else {
      hide StagedSend;
      StagedAtOnce(a, b, msg, done);
    }
  }

  /** One use of the two senders: whatever it is they still look alike, and they
      are at some distance again if and only if it does not part them. */
  lemma StepStaysShiftedExactly(a: TLink, b: TLink, d: int, op: Op, serial: nat, timing: Timing)
    requires Shifted(a, b, d) && Rewound(a.s) && Rewound(b.s) && Step(a, op, serial, timing).result != Error
    ensures var x, y := Step(a, op, serial, timing).link, Step(b, Directly(op), serial, timing).link;
      && Rewound(x.s) && Rewound(y.s) && LooksLike(x, y)
      && ((exists e :: Shifted(x, y, e)) <==> !Parts(a, d, op, timing))
      && (!Parts(a, d, op, timing) ==> Shifted(x, y, Moved(a, d, op)))
  {
    StepKeepsBytes(a, b, op, serial, timing);
    var done := TicketFor(a, op, serial);
    var x, y := Step(a, op, serial, timing).link, Step(b, Directly(op), serial, timing).link;
    match op {
      case Direct(msg, _) =>
        DirectStaysShifted(a, b, d, msg, done);
        ShiftedLooksLike(x, y, d);
      case Staged(edits, _) =>
        StagedStaysShiftedExactly(a, b, d, edits, timing, done);
      case Writable =>
        WritableStaysShiftedExactly(a, b, d, timing);
    }
    assert forall e :: Shifted(x, y, e) ==> e == x.s.bytesSent - y.s.bytesSent;
  }

  lemma ShiftedLooksLike<C>(a: Link<C>, b: Link<C>, d: int)
    requires Shifted(a, b, d)
    ensures LooksLike(a, b)
  {
    ShiftedDones(a.s.queue, b.s.queue, d);
  }

  /** Run side by side, with and without staging, the senders are at some distance
      in every state if and only if no step of the staged run parts them. */
  lemma {:induction false} RunStaysShiftedExactly(a: TLink, b: TLink, d: int, ops: seq<Op>, serial: nat, timing: Timing)
    requires Shifted(a, b, d) && Rewound(a.s) && Rewound(b.s) && ErrorFree(a, ops, serial, timing)
    ensures StayShifted(a, b, ops, serial, timing) <==> NeverParts(a, d, ops, serial, timing)
    decreases |ops|
  {
    if ops != [] {
      hide Step, Parts, Moved, Shifted, Rewound;
      StepStaysShiftedExactly(a, b, d, ops[0], serial, timing);
      if !Parts(a, d, ops[0], timing) {
        var x := Step(a, ops[0], serial, timing).link;
        var y := Step(b, Directly(ops[0]), serial, timing).link;
        RunStaysShiftedExactly(x, y, Moved(a, d, ops[0]), ops[1..], serial + 1, timing);
      }
    }
  }

  lemma {:induction false} StayedShifted(a: TLink, b: TLink, ops: seq<Op>, serial: nat, timing: Timing) returns (e: int)
    requires StayShifted(a, b, ops, serial, timing)
    ensures Shifted(Run(a, ops, serial, timing), Run(b, AllDirectly(ops), serial, timing), e)
    decreases |ops|
  {
    hide Step, Shifted;
    if ops == [] {
      e :| Shifted(a, b, e);
    } else {
      assert AllDirectly(ops)[1..] == AllDirectly(ops[1..]);
      var x := Step(a, ops[0], serial, timing).link;
      var y := Step(b, Directly(ops[0]), serial, timing).link;
      e := StayedShifted(x, y, ops[1..], serial + 1, timing);
    }
  }

  /** Over an error-free run of a new sender that no step parts from the direct run,
      staging makes no visible difference. */
  lemma StagedEqualsDirect(script: seq<WriteStep>, ops: seq<Op>, timing: Timing)
    requires ErrorFree(Fresh(script), ops, 0, timing) && NeverParts(Fresh(script), 0, ops, 0, timing)
    ensures ErrorFree(Fresh(script), AllDirectly(ops), 0, timing)
    ensures LooksLike(Run(Fresh(script), ops, 0, timing), Run(Fresh(script), AllDirectly(ops), 0, timing))
  {
    var l := Fresh(script);
    StagingKeepsBytes(l, l, ops, 0, timing);
    RunStaysShiftedExactly(l, l, 0, ops, 0, timing);
    var e := StayedShifted(l, l, ops, 0, timing);
    ShiftedLooksLike(Run(l, ops, 0, timing), Run(l, AllDirectly(ops), 0, timing), e);
  }

  lemma PromptStepsDoNotPart(l: TLink, d: int, op: Op)
    requires Prompt(l)
    ensures !Parts(l, d, op, Intended)
  {
    PromptDrains(l);
    if op.Writable? && l.s.buf != [] {
      DueIsEverything(l.s.queue, Limit(l.s, |l.s.buf|, Intended));
      forall i | 0 <= i < |l.s.queue| ensures l.s.queue[i].end <= l.s.bytesSent + |l.s.buf| {
        assert Ahead(l, l.s.queue[i]);
      }
    }
  }

  lemma {:induction false} PromptRunsNeverPart(l: TLink, d: int, ops: seq<Op>, serial: nat)
    requires Prompt(l) && ErrorFree(l, ops, serial, Intended)
    ensures NeverParts(l, d, ops, serial, Intended)
    decreases |ops|
  {
    if ops != [] {
      hide Step, Parts, Moved, Prompt;
      PromptStepsDoNotPart(l, d, ops[0]);
      StepIsPrompt(l, ops[0], serial);
      PromptRunsNeverPart(Step(l, ops[0], serial, Intended).link, Moved(l, d, ops[0]), ops[1..], serial + 1);
    }
  }

  /** In the intended form no step ever parts them. */
  lemma StagedEqualsDirectIntended(script: seq<WriteStep>, ops: seq<Op>)
    requires ErrorFree(Fresh(script), ops, 0, Intended)
    ensures ErrorFree(Fresh(script), AllDirectly(ops), 0, Intended)
    ensures LooksLike(Run(Fresh(script), ops, 0, Intended), Run(Fresh(script), AllDirectly(ops), 0, Intended))
  {
    PromptRunsNeverPart(Fresh(script), 0, ops, 0);
    StagedEqualsDirect(script, ops, Intended);
  }
}
