/** As written, a step that parts a staged sender from a direct one can be seen by
    its user: some further uses run a completion in one and not in the other. */
module StagingShows {
  import opened FlatStorages
  import opened Sending
  import opened SendingLaws
  import opened Staging

  // --------------------------------------------------- uses that show a difference

  /** The socket gives these answers from now on. */
  function Resumed(l: TLink, script: seq<WriteStep>): TLink { l.(net := l.net.(script := script)) }

  /** How many bytes are to be sent before the first completion counts as due. */
  function Remaining(s: Sender<Ticket>): int
    requires s.queue != []
  {
    s.queue[0].end - s.bytesSent
  }

  /** Bytes are added, `wait` of them are sent in one write, then one more. */
  function ShowOps(wait: nat): seq<Op> {
    [Direct(seq(wait + 2, i => 0), false)] + ShowWrites(wait)
  }

  function ShowWrites(wait: nat): seq<Op> { if wait > 0 then [Writable, Writable] else [Writable] }

  function ShowAccepts(wait: nat): seq<WriteStep> { if wait > 0 then [Accept(wait), Accept(1)] else [Accept(1)] }

  function ShowScript(empty: bool, wait: nat): seq<WriteStep> {
    (if empty then [WouldBlock] else []) + ShowAccepts(wait)
  }

  lemma PadJoins(l: TLink, pad: bytes, rest: seq<WriteStep>)
    requires pad != [] && l.net.script == (if l.s.buf == [] then [WouldBlock] else []) + rest
    ensures SendOrQue(l, pad, None) == Sent(Link(l.s.(buf := l.s.buf + pad), l.net.(script := rest)), InQueue)
  {
    if l.s.buf == [] {
      assert l.net.script[1..] == rest;
      assert pad[0..] == pad == l.s.buf + pad;
    }
  }

  lemma SendsPart(l: TLink, n: nat, rest: seq<WriteStep>)
    requires 0 < n < |l.s.buf| && l.net.script == [Accept(n)] + rest
    ensures |Settle(l.s, l.s.bytesSent).buf| == |l.s.buf|
    ensures SendQueued(l, AsWritten)
      == Sent(Link(MoveFront(Settle(l.s, l.s.bytesSent), n), Net(rest, l.net.wire + l.s.buf[..n])), InQueue)
  {
    hide Due, Dones;
    assert l.net.script[1..] == rest;
  }

  lemma FirstStays(s: Sender<Ticket>, limit: nat)
    requires s.queue != [] && s.queue[0].end > limit
    ensures Settle(s, limit) == s
  {
    assert s.queue[0..] == s.queue && Dones(s.queue[..0]) == [];
  }

  lemma FirstFires(s: Sender<Ticket>, limit: nat)
    requires s.queue != [] && s.queue[0].end <= limit
    ensures |Settle(s, limit).fired| > |s.fired|
    ensures |s.queue| == 1 ==> Settle(s, limit).fired == s.fired + [s.queue[0].done]
  {
    assert Due(s.queue, limit) > 0;
  }

  lemma RunUnfolds(l: TLink, ops: seq<Op>, serial: nat)
    requires ops != []
    ensures var first := Step(l, ops[0], serial, AsWritten);
      && Run(l, ops, serial, AsWritten) == Run(first.link, ops[1..], serial + 1, AsWritten)
      && (ErrorFree(l, ops, serial, AsWritten) <==>
            first.result != Error && ErrorFree(first.link, ops[1..], serial + 1, AsWritten))
    ensures Run(l, [], serial, AsWritten) == l && ErrorFree(l, [], serial, AsWritten)
  {}

  /** The first completion has run. */
  predicate Shows(s: Sender<Ticket>, r: Sender<Ticket>)
    requires s.queue != []
  {
    && |r.fired| > |s.fired|
    && (|s.queue| == 1 ==> r.fired == s.fired + [s.queue[0].done])
  }

  /** The last write runs the first completion if it is due by then. */
  lemma LastWriteShows(l: TLink, serial: nat)
    requires l.s.queue != [] && |l.s.buf| > 1 && l.net.script == [Accept(1)]
    ensures var r := Run(l, [Writable], serial, AsWritten);
      && ErrorFree(l, [Writable], serial, AsWritten)
      && (Remaining(l.s) <= 0 ==> Shows(l.s, r.s))
      && (Remaining(l.s) > 0 ==> r.s.fired == l.s.fired)
  {
    RunUnfolds(l, [Writable], serial);
    RunUnfolds(SendQueued(l, AsWritten).link, [Writable], serial + 1);
    SendsPart(l, 1, []);
    hide SendQueued, Settle, Run, ErrorFree;
    if Remaining(l.s) <= 0 {
      FirstFires(l.s, l.s.bytesSent);
    } else {
      FirstStays(l.s, l.s.bytesSent);
    }
  }

  lemma WritesShow(l: TLink, wait: nat, serial: nat)
    requires l.s.queue != [] && |l.s.buf| > wait + 1 && l.net.script == ShowAccepts(wait)
    requires wait > 0 ==> Remaining(l.s) >= wait
    ensures var r := Run(l, ShowWrites(wait), serial, AsWritten);
      && ErrorFree(l, ShowWrites(wait), serial, AsWritten)
      && (Remaining(l.s) <= wait ==> Shows(l.s, r.s))
      && (Remaining(l.s) > wait ==> r.s.fired == l.s.fired)
  {
    hide SendQueued, Settle, Run, ErrorFree;
    if wait == 0 {
      LastWriteShows(l, serial);
    } else {
      RunUnfolds(l, [Writable, Writable], serial);
      assert [Accept(wait), Accept(1)] == [Accept(wait)] + [Accept(1)];
      SendsPart(l, wait, [Accept(1)]);
      FirstStays(l.s, l.s.bytesSent);
      var next := SendQueued(l, AsWritten).link;
      LastWriteShows(next, serial + 1);
      assert [Writable, Writable][1..] == [Writable];
    }
  }

  lemma ShowsRemaining(l: TLink, wait: nat, serial: nat)
    requires l.s.queue != [] && l.net.script == ShowScript(l.s.buf == [], wait)
    requires wait > 0 ==> Remaining(l.s) >= wait
    ensures var r := Run(l, ShowOps(wait), serial, AsWritten);
      && ErrorFree(l, ShowOps(wait), serial, AsWritten)
      && (Remaining(l.s) <= wait ==> Shows(l.s, r.s))
      && (Remaining(l.s) > wait ==> r.s.fired == l.s.fired)
  {
    var pad: bytes := seq(wait + 2, i => 0);
    PadJoins(l, pad, ShowAccepts(wait));
    RunUnfolds(l, ShowOps(wait), serial);
    hide SendOrQue, Run, ErrorFree, ShowAccepts, ShowWrites;
    assert ShowOps(wait)[1..] == ShowWrites(wait);
    WritesShow(SendOrQue(l, pad, None).link, wait, serial + 1);
  }

  /** With these answers of the socket, these uses, at most three and none of them
      staged, run different completions. */
  ghost predicate Distinguished(x: TLink, y: TLink, script: seq<WriteStep>, more: seq<Op>, serial: nat) {
    && |more| <= 3
    && (forall i :: 0 <= i < |more| ==> !more[i].Staged?)
    && ErrorFree(Resumed(x, script), more, serial, AsWritten)
    && ErrorFree(Resumed(y, script), more, serial, AsWritten)
    && Run(Resumed(x, script), more, serial, AsWritten).s.fired
         != Run(Resumed(y, script), more, serial, AsWritten).s.fired
  }

  /** Two senders that only differ in how far the first completion is from being
      due are told apart by at most three uses. */
  lemma EarlierShows(x: TLink, y: TLink, serial: nat) returns (script: seq<WriteStep>, more: seq<Op>)
    requires SameBytes(x, y) && x.s.fired == y.s.fired && x.s.queue != [] && y.s.queue != []
    requires Remaining(x.s) < Remaining(y.s) && Remaining(y.s) > 0
    ensures Distinguished(x, y, script, more, serial)
  {
    var wait: nat := if Remaining(x.s) > 0 then Remaining(x.s) else 0;
    script, more := ShowScript(x.s.buf == [], wait), ShowOps(wait);
    hide Run, ErrorFree;
    ShowsRemaining(Resumed(x, script), wait, serial);
    ShowsRemaining(Resumed(y, script), wait, serial);
  }

  ghost predicate PositiveEnds(l: TLink) {
    forall i :: 0 <= i < |l.s.queue| ==> l.s.queue[i].end > 0
  }

  lemma StepKeepsEnds(l: TLink, op: Op, serial: nat)
    requires PositiveEnds(l)
    ensures PositiveEnds(Step(l, op, serial, AsWritten).link)
  {
    hide SockWrite, TrySendAll, Dones, Due;
  }

  /** After a step that parts them, one of the senders is closer than the other to
      running its first completion. */
  lemma PartedRemaining(a: TLink, b: TLink, d: int, op: Op, serial: nat)
    requires Shifted(a, b, d) && Rewound(a.s) && Rewound(b.s) && Step(a, op, serial, AsWritten).result != Error
    requires Parts(a, d, op, AsWritten) && PositiveEnds(a)
    ensures var x, y := Step(a, op, serial, AsWritten).link, Step(b, Directly(op), serial, AsWritten).link;
      && x.s.queue != [] && y.s.queue != [] && Remaining(x.s) != Remaining(y.s)
      && (Remaining(x.s) > 0 || Remaining(y.s) > 0)
  {
    StepKeepsBytes(a, b, op, serial, AsWritten);
    var done := TicketFor(a, op, serial);
    match op {
      case Direct(_, _) => assert false;
      case Staged(edits, _) =>
        SentAtOnce(a, Typed(edits), done);
        SentAtOnce(b, Typed(edits), done);
        hide StagedSend, SendOrQue, TrySendAll;
      case Writable =>
        WriteIsSettle(a, AsWritten);
        WriteIsSettle(b, AsWritten);
        var n := |a.s.buf|;
        SettledFields(a.s, a.s.bytesSent, n);
        SettledFields(b.s, b.s.bytesSent, n);
        DueShifted(a.s.queue, b.s.queue, d, a.s.bytesSent, b.s.bytesSent);
        hide SendQueued, SockWrite, Settle, MoveFront, Due;
    }
  }

  lemma DistinguishedSwaps(x: TLink, y: TLink, script: seq<WriteStep>, more: seq<Op>, serial: nat)
    requires Distinguished(x, y, script, more, serial)
    ensures Distinguished(y, x, script, more, serial)
  {}

  lemma PartedStepShows(a: TLink, b: TLink, d: int, op: Op, serial: nat)
    returns (script: seq<WriteStep>, more: seq<Op>)
    requires Shifted(a, b, d) && Rewound(a.s) && Rewound(b.s) && Step(a, op, serial, AsWritten).result != Error
    requires Parts(a, d, op, AsWritten) && PositiveEnds(a)
    ensures Distinguished(Step(a, op, serial, AsWritten).link, Step(b, Directly(op), serial, AsWritten).link,
                          script, more, serial + 1)
  {
    var x, y := Step(a, op, serial, AsWritten).link, Step(b, Directly(op), serial, AsWritten).link;
    StepStaysShiftedExactly(a, b, d, op, serial, AsWritten);
    PartedRemaining(a, b, d, op, serial);
    hide Step, Parts, Moved, Shifted, Rewound, PositiveEnds, Distinguished;
    if Remaining(x.s) < Remaining(y.s) {
      script, more := EarlierShows(x, y, serial + 1);
    } else {
      script, more := EarlierShows(y, x, serial + 1);
      DistinguishedSwaps(y, x, script, more, serial + 1);
    }
  }

  /** The first `k + 1` uses of both runs. */
  lemma RunsUnfold(a: TLink, b: TLink, ops: seq<Op>, k: nat, serial: nat)
    requires k < |ops|
    ensures Run(a, ops[..k + 1], serial, AsWritten)
      == Run(Step(a, ops[0], serial, AsWritten).link, ops[1..][..k], serial + 1, AsWritten)
    ensures Run(b, AllDirectly(ops[..k + 1]), serial, AsWritten)
      == Run(Step(b, Directly(ops[0]), serial, AsWritten).link, AllDirectly(ops[1..][..k]), serial + 1, AsWritten)
    ensures k == 0 ==>
      && Run(a, ops[..1], serial, AsWritten) == Step(a, ops[0], serial, AsWritten).link
      && Run(b, AllDirectly(ops[..1]), serial, AsWritten) == Step(b, Directly(ops[0]), serial, AsWritten).link
  {
    hide Step;
    assert ops[..k + 1][0] == ops[0] && ops[..k + 1][1..] == ops[1..][..k];
    assert AllDirectly(ops[..k + 1])[1..] == AllDirectly(ops[1..][..k]);
  }

  /** As written, if some step of an error-free run parts it from the direct run,
      then after that step at most three further uses show the difference. */
  lemma {:induction false} PartingShowsFrom(a: TLink, b: TLink, d: int, ops: seq<Op>, serial: nat)
    returns (k: nat, script: seq<WriteStep>, more: seq<Op>)
    requires Shifted(a, b, d) && Rewound(a.s) && Rewound(b.s) && PositiveEnds(a) && ErrorFree(a, ops, serial, AsWritten)
    requires !NeverParts(a, d, ops, serial, AsWritten)
    ensures 0 < k <= |ops|
    ensures Distinguished(Run(a, ops[..k], serial, AsWritten), Run(b, AllDirectly(ops[..k]), serial, AsWritten),
                          script, more, serial + k)
    decreases |ops|
  {
    hide Step, Parts, Moved, Shifted, LooksLike, Rewound, PositiveEnds, Distinguished, Run, AllDirectly, Directly;
    var x, y := Step(a, ops[0], serial, AsWritten).link, Step(b, Directly(ops[0]), serial, AsWritten).link;
    StepStaysShiftedExactly(a, b, d, ops[0], serial, AsWritten);
    StepKeepsEnds(a, ops[0], serial);
    if Parts(a, d, ops[0], AsWritten) {
      script, more := PartedStepShows(a, b, d, ops[0], serial);
      k := 0;
    } else {
      k, script, more := PartingShowsFrom(x, y, Moved(a, d, ops[0]), ops[1..], serial + 1);
    }
    RunsUnfold(a, b, ops, k, serial);
    k := k + 1;
  }

  /** For a new sender: once a step has parted its run from the direct run, at
      most three further uses, the same of both and not staged, tell the two apart. */
  lemma PartingShows(script: seq<WriteStep>, ops: seq<Op>) returns (k: nat, next: seq<WriteStep>, more: seq<Op>)
    requires ErrorFree(Fresh(script), ops, 0, AsWritten) && !NeverParts(Fresh(script), 0, ops, 0, AsWritten)
    ensures 0 < k <= |ops|
    ensures Distinguished(Run(Fresh(script), ops[..k], 0, AsWritten),
                          Run(Fresh(script), AllDirectly(ops[..k]), 0, AsWritten), next, more, k)
  {
    hide Run, ErrorFree, NeverParts, Distinguished;
    k, next, more := PartingShowsFrom(Fresh(script), Fresh(script), 0, ops, 0);
  }

  // ---------------------------------------------------------- and such runs exist

  /** Two bytes are staged with a completion, and one is sent at once; the write that
      sends the other drains the buffer and parts the senders; then it shows. */
  const SHOW_OPS: seq<Op> := [Staged([Write([1, 2])], true), Writable] + ShowOps(1)

  /** The sender after the first `k` steps, when its completion ends at `end`. */
  function ShowState(k: nat, end: nat): TLink
    requires end > 0
  {
    var entry, tail := Entry(end, Ticket(0, 2)), ShowScript(true, 1);
    match k
    case 0 => Fresh([Accept(1), WouldBlock, Accept(1)] + tail)
    case 1 => Link(Sender([2], [entry], end - 1, false, []), Net([Accept(1)] + tail, [1]))
    case _ => Link(Sender([], [entry], 0, false, []), Net(tail, [1, 2]))
  }

  lemma ShowFirst()
    ensures Step(ShowState(0, 2), SHOW_OPS[0], 0, AsWritten) == Sent(ShowState(1, 2), InQueue)
    ensures Step(ShowState(0, 1), Directly(SHOW_OPS[0]), 0, AsWritten) == Sent(ShowState(1, 1), InQueue)
  {
    hide ShowScript;
    var tail := ShowScript(true, 1);
    assert Typed([Write([1, 2])]) == [1, 2] by {
      assert [Write([1, 2])][..0] == [];
    }
    var net, second, third := ShowState(0, 2).net, [WouldBlock, Accept(1)] + tail, [Accept(1)] + tail;
    assert net.script[1..] == second && second[1..] == third;
    assert [1 as byte, 2][1..] == [2] && [1 as byte, 2][..1] == [1];
    assert SockWrite(net, [1, 2]) == Written(Net(second, [1]), Accept(1));
    assert SockWrite(Net(second, [1]), [2]) == Written(Net(third, [1]), WouldBlock);
    assert TrySendAll(net, [1, 2]) == Tried(Net(third, [1]), 1, true);
  }

  lemma ShowSecond(end: nat)
    requires 1 <= end <= 2
    ensures Step(ShowState(1, end), Writable, 1, AsWritten) == Sent(ShowState(2, end), Complete)
  {
    hide ShowScript, Settle;
    var l := ShowState(1, end);
    FirstStays(l.s, l.s.bytesSent);
    assert l.net.script[1..] == ShowScript(true, 1);
    assert SockWrite(l.net, [2]) == Written(Net(ShowScript(true, 1), [1, 2]), Accept(1));
  }

  lemma {:induction false} KeepsUnstaged(ops: seq<Op>)
    requires forall i :: 0 <= i < |ops| ==> !ops[i].Staged?
    ensures AllDirectly(ops) == ops
    decreases |ops|
  {
    if ops != [] {
      KeepsUnstaged(ops[1..]);
    }
  }

  lemma ShowRest(end: nat)
    requires 1 <= end <= 2
    ensures var r := Run(ShowState(1, end), SHOW_OPS[1..], 1, AsWritten);
      && ErrorFree(ShowState(1, end), SHOW_OPS[1..], 1, AsWritten)
      && r.s.fired == if end == 1 then [Ticket(0, 2)] else []
  {
    hide Step, Run, ErrorFree, ShowScript, ShowOps;
    assert SHOW_OPS[1..][0] == Writable && SHOW_OPS[1..][1..] == ShowOps(1);
    RunUnfolds(ShowState(1, end), SHOW_OPS[1..], 1);
    ShowSecond(end);
    ShowsRemaining(ShowState(2, end), 1, 2);
  }

  /** Once a completion has been left waiting on a drained buffer, as only the form
      as written can do, the distance between the byte counters shows: without
      staging the completion runs on the last write, with staging it does not. */
  lemma StagingShowsAsWritten()
    ensures ErrorFree(ShowState(0, 2), SHOW_OPS, 0, AsWritten) && ShowState(0, 2) == ShowState(0, 1)
    ensures Run(ShowState(0, 2), SHOW_OPS, 0, AsWritten).s.fired == []
    ensures Run(ShowState(0, 2), AllDirectly(SHOW_OPS), 0, AsWritten).s.fired == [Ticket(0, 2)]
  {
    hide Step, Run, ErrorFree;
    var direct := AllDirectly(SHOW_OPS);
    ShowFirst();
    KeepsUnstaged(SHOW_OPS[1..]);
    assert direct[0] == Directly(SHOW_OPS[0]) && direct[1..] == SHOW_OPS[1..];
    ShowRest(2);
    ShowRest(1);
    RunUnfolds(ShowState(0, 2), SHOW_OPS, 0);
    RunUnfolds(ShowState(0, 1), direct, 0);
  }
}
