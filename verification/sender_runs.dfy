/** Runs of the class MsgSender: any uses, one after the other, do what the runs of
    module Sending do, so everything proved about those holds of the class. */
module SenderRuns {
  import opened FlatStorages
  import opened Sending
  import opened SendingLaws
  import opened SendingOutcomes
  import opened MsgSenders

  // ------------------------------------------------------- the counters suffice

  function Chunks(edits: seq<Edit>): nat {
    if edits == [] then 0
    else
      var last := |edits| - 1;
      Chunks(edits[..last]) + if edits[last].Write? then |edits[last].chunk| else 0
  }

  /** How many bytes a use can add to the buffer, even if only for a time. */
  function Weight(op: Op): nat {
    match op
    case Direct(msg, _) => |msg|
    case Staged(edits, _) => Chunks(edits)
    case Writable => 0
  }

  function TotalWeight(ops: seq<Op>): nat { if ops == [] then 0 else Weight(ops[0]) + TotalWeight(ops[1..]) }

  lemma {:induction false} TypedFits(edits: seq<Edit>)
    ensures |Typed(edits)| <= Chunks(edits)
    decreases |edits|
  {
    if edits != [] {
      TypedFits(edits[..|edits| - 1]);
    }
  }

  lemma StepGrows(l: TLink, op: Op, serial: nat, timing: Timing)
    ensures var s := Step(l, op, serial, timing).link.s;
      s.bytesSent + |s.buf| <= l.s.bytesSent + |l.s.buf| + Weight(op)
  {
    match op {
      case Direct(msg, _) =>
        hide SockWrite;
      case Staged(edits, _) =>
        hide SockWrite;
        TypedFits(edits);
      case Writable =>
        if l.s.buf != [] {
          SendQueuedCases(l, timing);
          hide SendQueued, SockWrite, Due, Dones;
        }
    }
  }

  // ------------------------------------------------ when line 1210 underflows

  /** The starts of the waiting messages after one use. */
  function NextPosts(l: TLink, p: Posts, op: Op, serial: nat, timing: Timing): (r: Posts)
    requires |p.starts| == |l.s.queue|
    ensures |r.starts| == |Step(l, op, serial, timing).link.s.queue|
  {
    PostsFit(l, op, serial, timing);
    var x := Step(l, op, serial, timing);
    match op
    case Direct(_, wanted) =>
      if x.result == InQueue && wanted then p.(starts := p.starts + [l.s.bytesSent + |l.s.buf|]) else p
    case Staged(_, wanted) =>
      if x.result == InQueue && wanted then p.(starts := p.starts + [x.link.s.bytesSent + |l.s.buf|]) else p
    case Writable => PostsAfterWrite(l, p, timing)
  }

  lemma PostsFit(l: TLink, op: Op, serial: nat, timing: Timing)
    ensures var x := Step(l, op, serial, timing);
      && (!op.Writable? ==> |x.link.s.queue| == |l.s.queue| + if x.result == InQueue && op.wanted then 1 else 0)
      && (op.Writable? ==>
            var w := SockWrite(l.net, l.s.buf);
            if l.s.buf != [] && w.step.Accept? && w.step.n > 0
            then |x.link.s.queue| == |l.s.queue| - Due(l.s.queue, Limit(l.s, w.step.n, timing))
            else x.link.s.queue == l.s.queue)
  {
    hide SockWrite, TrySendAll, Due, Dones;
    if op.Writable? && l.s.buf != [] {
      SendQueuedCases(l, timing);
      hide SendQueued;
      var w := SockWrite(l.net, l.s.buf);
      if w.step.Accept? {
        SettledFields(l.s, Limit(l.s, w.step.n, timing), w.step.n);
      }
    }
  }

  /** The record of a message that is put into the queue covers exactly the bytes of it
      that are put into the buffer. */
  lemma RecordsCoverMessages(l: TLink, p: Posts, op: Op, serial: nat, timing: Timing)
    requires |p.starts| == |l.s.queue|
    ensures var x, q := Step(l, op, serial, timing), NextPosts(l, p, op, serial, timing);
      x.result == InQueue && Wanted(op) ==>
        && |x.link.s.queue| == |l.s.queue| + 1 && x.link.s.queue[..|l.s.queue|] == l.s.queue
        && q.starts[..|l.s.queue|] == p.starts
        && q.starts[|l.s.queue|] + (|x.link.s.buf| - |l.s.buf|) == x.link.s.queue[|l.s.queue|].end
        && q.trapped == p.trapped
  {
    match op {
      case Direct(msg, _) => DirectExactly(l, msg, TicketFor(l, op, serial));
      case Staged(edits, _) => StagedExactly(l, Typed(edits), TicketFor(l, op, serial));
      case Writable =>
    }
  }

  function RunPosts(l: TLink, p: Posts, ops: seq<Op>, serial: nat, timing: Timing): (r: Posts)
    requires |p.starts| == |l.s.queue|
    ensures |r.starts| == |Run(l, ops, serial, timing).s.queue|
    decreases |ops|
  {
    if ops == [] then p
    else
      RunPosts(Step(l, ops[0], serial, timing).link, NextPosts(l, p, ops[0], serial, timing), ops[1..], serial + 1,
               timing)
  }

  /** A write that sends something, while the first completion that is not due waits
      for a message that starts beyond the limit. */
  predicate WriteTraps(l: TLink, p: Posts, op: Op, timing: Timing)
    requires |p.starts| == |l.s.queue|
  {
    && op.Writable? && l.s.buf != []
    && var w := SockWrite(l.net, l.s.buf);
       w.step.Accept? && w.step.n > 0 && TrapsAt(l.s.queue, p.starts, Limit(l.s, w.step.n, timing))
  }

  /** In a run, line 1210 underflows if and only if there is such a write. */
  lemma {:induction false} UnderflowsInRunExactly(l: TLink, p: Posts, ops: seq<Op>, serial: nat, timing: Timing)
    requires |p.starts| == |l.s.queue|
    ensures RunPosts(l, p, ops, serial, timing).trapped <==>
      p.trapped || exists i :: 0 <= i < |ops| && TrapsInState(l, p, ops, serial, timing, i)
    decreases |ops|
  {
    if ops != [] {
      hide Step, TrapsInState, RunPosts, TrapsAt;
      var next, q := Step(l, ops[0], serial, timing).link, NextPosts(l, p, ops[0], serial, timing);
      FirstTraps(l, p, ops, serial, timing);
      UnderflowsInRunExactly(next, q, ops[1..], serial + 1, timing);
      forall i | 0 < i < |ops|
        ensures TrapsInState(l, p, ops, serial, timing, i)
          == TrapsInState(next, q, ops[1..], serial + 1, timing, i - 1)
      {
        LaterTraps(l, p, ops, serial, timing, i);
      }
      var rest, later := ops[1..], serial + 1;
      if exists j :: 0 <= j < |rest| && TrapsInState(next, q, rest, later, timing, j) {
        var j :| 0 <= j < |rest| && TrapsInState(next, q, rest, later, timing, j);
        assert TrapsInState(l, p, ops, serial, timing, j + 1);
      }
    }
  }

  /** The write is number `i` of the run. */
  predicate TrapsInState(l: TLink, p: Posts, ops: seq<Op>, serial: nat, timing: Timing, i: nat)
    requires |p.starts| == |l.s.queue| && i < |ops|
  {
    WriteTraps(Run(l, ops[..i], serial, timing), RunPosts(l, p, ops[..i], serial, timing), ops[i], timing)
  }

  lemma FirstTraps(l: TLink, p: Posts, ops: seq<Op>, serial: nat, timing: Timing)
    requires |p.starts| == |l.s.queue| && ops != []
    ensures RunPosts(l, p, ops, serial, timing)
      == RunPosts(Step(l, ops[0], serial, timing).link, NextPosts(l, p, ops[0], serial, timing), ops[1..], serial + 1,
                  timing)
    ensures NextPosts(l, p, ops[0], serial, timing).trapped <==> p.trapped || TrapsInState(l, p, ops, serial, timing, 0)
  {
    hide Step, TrapsAt;
  }

  lemma LaterTraps(l: TLink, p: Posts, ops: seq<Op>, serial: nat, timing: Timing, i: nat)
    requires |p.starts| == |l.s.queue| && 0 < i < |ops|
    ensures TrapsInState(l, p, ops, serial, timing, i)
      == TrapsInState(Step(l, ops[0], serial, timing).link, NextPosts(l, p, ops[0], serial, timing), ops[1..],
                      serial + 1, timing, i - 1)
  {
    hide Step, NextPosts, WriteTraps;
    assert ops[..i][0] == ops[0] && ops[..i][1..] == ops[1..][..i - 1];
  }

  const TRAP_OPS: seq<Op> := [Direct([1], false), Direct([2], true), Writable]

  function TrapState(k: nat): TLink {
    match k
    case 0 => Fresh([WouldBlock, Accept(1)])
    case 1 => Link(Sender([1], [], 0, false, []), Net([Accept(1)], []))
    case _ => Link(Sender([1, 2], [Entry(2, Ticket(1, 2))], 0, false, []), Net([Accept(1)], []))
  }

  lemma TrapSteps()
    ensures Step(TrapState(0), TRAP_OPS[0], 0, AsWritten) == Sent(TrapState(1), InQueue)
    ensures Step(TrapState(1), TRAP_OPS[1], 1, AsWritten) == Sent(TrapState(2), InQueue)
  {
    assert TrapState(0).net.script[1..] == [Accept(1)] && [1 as byte][0..] == [1];
    assert [1 as byte] + [2] == [1, 2];
  }

  lemma TrapPosts()
    ensures NextPosts(TrapState(0), Posts([], false), TRAP_OPS[0], 0, AsWritten) == Posts([], false)
    ensures NextPosts(TrapState(1), Posts([], false), TRAP_OPS[1], 1, AsWritten) == Posts([1], false)
    ensures WriteTraps(TrapState(2), Posts([1], false), Writable, AsWritten)
  {
    TrapSteps();
    hide Step;
  }

  /** And such runs exist: a byte is queued without a completion, another one with a
      completion, and a write sends one byte. */
  lemma UnderflowShows()
    ensures RunPosts(TrapState(0), Posts([], false), TRAP_OPS, 0, AsWritten).trapped
  {
    hide Step, NextPosts, WriteTraps, RunPosts;
    TrapSteps();
    TrapPosts();
    assert TRAP_OPS[1..][1..] == [Writable] && [Writable][..0] == [];
    FirstTraps(TrapState(0), Posts([], false), TRAP_OPS, 0, AsWritten);
    FirstTraps(TrapState(1), Posts([], false), TRAP_OPS[1..], 1, AsWritten);
    FirstTraps(TrapState(2), Posts([1], false), [Writable], 2, AsWritten);
    NothingLeft(TrapState(2), Posts([1], false), 2);
  }

  lemma NothingLeft(l: TLink, p: Posts, serial: nat)
    requires |p.starts| == |l.s.queue|
    ensures RunPosts(l, p, [Writable], serial, AsWritten) == NextPosts(l, p, Writable, serial, AsWritten)
    ensures RunPosts(l, p, [], serial, AsWritten) == p && Run(l, [], serial, AsWritten) == l
  {
    hide Step, NextPosts;
  }

  // -------------------------------------------------------------------- methods

  /** The calls of write and clear between acquire_send and send. */
  method Stage(a: AutoSendBuffer<Ticket>, edits: seq<Edit>)
    requires a.Valid() && a.Staged() == [] && a.sender.bytesSent + |a.sender.buf| + Chunks(edits) < WORD
    modifies a.sender`buf
    ensures a.Valid() && a.View() == old(a.View()) && a.Staged() == Typed(edits)
  {
    hide FlatStorage.Valid, FlatStorage.Contents, Chained, QueueOf, StartsOf;
    assert edits[..0] == [];
    for i := 0 to |edits|
      invariant a.Valid() && a.View() == old(a.View()) && a.Staged() == Typed(edits[..i])
      invariant a.oldBufSize == old(a.oldBufSize) == old(|a.sender.buf|)
      invariant a.sender.bytesSent == old(a.sender.bytesSent)
    {
      ChunksOfPart(edits, i + 1);
      TypedFits(edits[..i]);
      assert edits[..i + 1][..i] == edits[..i];
      match edits[i] {
        case Write(chunk) => var n := a.Write(chunk);
        case Clear => a.Clear();
      }
    }
    assert edits[..|edits|] == edits;
  }

  lemma {:induction false} ChunksOfPart(edits: seq<Edit>, k: nat)
    requires k <= |edits|
    ensures Chunks(edits[..k]) <= Chunks(edits)
    decreases |edits|
  {
    if k == |edits| {
      assert edits[..k] == edits;
    } else {
      var n := |edits| - 1;
      ChunksOfPart(edits[..n], k);
      assert edits[..n][..k] == edits[..k];
    }
  }

  /** One use of a sender; its completion, if wanted, is a ticket. */
  method Use(s: MsgSender<Ticket>, sock: Socket, op: Op, serial: nat, timing: Timing) returns (result: SendResult)
    requires s.Valid() && s.bytesSent + |s.buf| + Weight(op) < WORD && |s.pending.data| < INVALID_ID
    modifies s, s.pending, sock
    ensures s.Valid() && |s.pending.data| <= old(|s.pending.data|) + 1
    ensures Sent(Link(s.View(), sock.View()), result) == Step(Link(old(s.View()), old(sock.View())), op, serial, timing)
    ensures |old(s.posts).starts| == |old(s.View()).queue|
    ensures s.posts == NextPosts(Link(old(s.View()), old(sock.View())), old(s.posts), op, serial, timing)
  {
    hide FlatStorage.Valid, FlatStorage.Contents, Chained, QueueOf, StartsOf;
    hide Sending.SendOrQue, StagedSend, Sending.SendQueued, SockWrite, TrimmedPosts;
    var accepted := |sock.wire| + |s.buf|;
    match op {
      case Direct(msg, wanted) =>
        result := s.SendOrQue(sock, msg, TicketAt(wanted, serial, accepted, msg));
      case Staged(edits, wanted) =>
        var a := new AutoSendBuffer(s, sock);
        Stage(a, edits);
        var msg, n := a.GetWritten();
        result := a.Send(TicketAt(wanted, serial, accepted, msg));
        ViewOfSent(a);
      case Writable =>
        result := s.SendQueued(sock, timing);
    }
  }

  function TicketAt(wanted: bool, serial: nat, accepted: nat, msg: bytes): Option<Ticket> {
    if wanted then Some(Ticket(serial, if msg == [] then 0 else accepted + |msg|)) else None
  }

  lemma ViewOfSent(a: AutoSendBuffer<Ticket>)
    requires a.Valid() && a.Staged() == []
    ensures a.View() == Link(a.sender.View(), a.sock.View())
  {
    assert a.sender.buf[..a.oldBufSize] == a.sender.buf;
  }

  /** Any uses of a sender, whatever the socket answers. */
  method RunSender(s: MsgSender<Ticket>, sock: Socket, ops: seq<Op>, timing: Timing)
    requires s.Valid() && s.bytesSent + |s.buf| + TotalWeight(ops) < WORD && |s.pending.data| + |ops| <= INVALID_ID
    modifies s, s.pending, sock
    ensures s.Valid()
    ensures Link(s.View(), sock.View()) == Run(Link(old(s.View()), old(sock.View())), ops, 0, timing)
    ensures |old(s.posts).starts| == |old(s.View()).queue|
    ensures s.posts == RunPosts(Link(old(s.View()), old(sock.View())), old(s.posts), ops, 0, timing)
  {
    hide FlatStorage.Valid, FlatStorage.Contents, Chained, QueueOf, StartsOf, Step, NextPosts;
    for i := 0 to |ops|
      invariant s.Valid() && s.bytesSent + |s.buf| + TotalWeight(ops[i..]) < WORD
      invariant |s.pending.data| + (|ops| - i) <= INVALID_ID
      invariant Run(Link(s.View(), sock.View()), ops[i..], i, timing)
        == Run(Link(old(s.View()), old(sock.View())), ops, 0, timing)
      invariant |s.posts.starts| == |s.View().queue| && |old(s.posts).starts| == |old(s.View()).queue|
      invariant RunPosts(Link(s.View(), sock.View()), s.posts, ops[i..], i, timing)
        == RunPosts(Link(old(s.View()), old(sock.View())), old(s.posts), ops, 0, timing)
    {
      assert ops[i..][1..] == ops[i + 1..];
      StepGrows(Link(s.View(), sock.View()), ops[i], i, timing);
      var result := Use(s, sock, ops[i], i, timing);
    }
  }

  /** The completions of the sender `r` after a run of a new one. */
  ghost predicate Settled(r: TLink, script: seq<WriteStep>, ops: seq<Op>, timing: Timing) {
    && (forall t :: t in r.s.fired || t in Dones(r.s.queue) ==> t in Tickets(Fresh(script), ops, 0, timing))
    && forall t :: t in Tickets(Fresh(script), ops, 0, timing) ==>
         && multiset(r.s.fired)[t] + multiset(Dones(r.s.queue))[t]
              == (if t in FailedTickets(Fresh(script), ops, 0, timing) then 0 else 1)
         && (t in r.s.fired ==> t.last <= |r.net.wire|)
  }

  /** A new sender: the completions of failed uses are neither run nor waiting, every
      other one has run or waits, once, and none has run early. Unless some use fails,
      the wire and the buffer are the messages, and with the intended timing no
      completion is late either. */
  method RunNewSender(script: seq<WriteStep>, ops: seq<Op>, timing: Timing)
    returns (s: MsgSender<Ticket>, sock: Socket)
    requires TotalWeight(ops) < WORD && |ops| <= INVALID_ID
    ensures fresh(s) && fresh(s.pending) && fresh(sock) && s.Valid()
    ensures s.posts == RunPosts(Fresh(script), Posts([], false), ops, 0, timing)
    ensures Settled(Link(s.View(), sock.View()), script, ops, timing)
    ensures sock.wire + s.buf == AllAdded(Fresh(script), ops, 0, timing)
    ensures ErrorFree(Fresh(script), ops, 0, timing) ==>
      && sock.wire + s.buf == Messages(ops)
      && forall t :: t in Tickets(Fresh(script), ops, 0, timing) ==>
           timing.Intended? ==> (t in s.fired <==> t.last <= |sock.wire|)
  {
    hide FlatStorage.Valid, FlatStorage.Contents, Chained, QueueOf, StartsOf;
    hide Run, RunPosts, ErrorFree, Tickets, FailedTickets, AllAdded, Messages;
    s := new MsgSender();
    sock := new Socket(script);
    RunSender(s, sock, ops, timing);
    CompletionsOfAnyRun(script, ops, timing);
    StreamOfAnyRun(Fresh(script), ops, 0, timing);
    NothingBefore(script, AllAdded(Fresh(script), ops, 0, timing));
    if ErrorFree(Fresh(script), ops, 0, timing) {
      FreshStream(script, ops, timing);
      if timing.Intended? {
        CompletionsArePrompt(script, ops);
      }
    }
  }

  lemma NothingBefore(script: seq<WriteStep>, added: bytes)
    ensures Stream(Fresh(script)) + added == added
  {}
}
