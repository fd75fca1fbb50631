/** What MsgSender and AutoSendBuffer of src/reactor.rs do, with the completion
    list seen as a queue. The classes in msg_sender.dfy are proved to do this. */
module Sending {
  import opened FlatStorages

  newtype byte = b: int | 0 <= b < 256

  type bytes = seq<byte>

  // --------------------------------------------------------------- the socket

  /** How the socket answers one write. `Accept(n)` takes at most `n` bytes. */
  datatype WriteStep = Accept(n: nat) | WouldBlock | Interrupted | Reset | Failure

  /** The answers still to come (WouldBlock for ever after) and the bytes taken. */
  datatype Net = Net(script: seq<WriteStep>, wire: bytes)

  datatype Written = Written(net: Net, step: WriteStep)

  function SockWrite(net: Net, buf: bytes): (r: Written)
    ensures r.step.Accept? ==>
      && r.step.n <= |buf| && |r.net.script| < |net.script|
      && r.net.wire == net.wire + buf[..r.step.n]
    ensures !r.step.Accept? ==> r.net.wire == net.wire
  {
    if net.script == [] then Written(net, WouldBlock)
    else
      var rest := net.script[1..];
      match net.script[0]
      case Accept(most) =>
        var n := if most < |buf| then most else |buf|;
        Written(Net(rest, net.wire + buf[..n]), Accept(n))
      case step => Written(Net(rest, net.wire), step)
  }

  /** `sent` is only meaningful when `ok`. */
  datatype Tried = Tried(net: Net, sent: nat, ok: bool)

  /** Writes again and again until everything is taken, the socket would block
      or it fails. */
  function TrySendAll(net: Net, buf: bytes): (r: Tried)
    ensures r.sent <= |buf|
    ensures r.ok ==> r.net.wire == net.wire + buf[..r.sent]
    decreases |net.script|
  {
    if buf == [] then Tried(net, 0, true)
    else
      var w := SockWrite(net, buf);
      match w.step
      case Accept(n) =>
        if n < |buf| then
          var more := TrySendAll(w.net, buf[n..]);
          assert buf[..n] + buf[n..][..more.sent] == buf[..n + more.sent];
          Tried(more.net, n + more.sent, more.ok)
        else Tried(w.net, n, true)
      case WouldBlock => Tried(w.net, 0, true)
      case _ => Tried(w.net, 0, false)
  }

  // --------------------------------------------------------------- the sender

  /** A completion waiting for the stream position `end` to be sent. */
  datatype Entry<C> = Entry(end: nat, done: C)

  datatype Sender<C> = Sender(
    buf: bytes,
    queue: seq<Entry<C>>,
    bytesSent: nat,
    broken: bool,
    fired: seq<C> // the completions that have run, in order
  )

  /** A sender and the socket it writes to. */
  datatype Link<C> = Link(s: Sender<C>, net: Net)

  datatype SendResult = Complete | InQueue | Error

  datatype Sent<C> = Sent(link: Link<C>, result: SendResult)

  /** When a completion counts as due: the source compares with the bytes sent
      before the current write, its comments ask for those after it. */
  datatype Timing = AsWritten | Intended

  function NewSender<C>(): Sender<C> { Sender([], [], 0, false, []) }

  function Fire<C>(s: Sender<C>, done: Option<C>): Sender<C> {
    if done.Some? then s.(fired := s.fired + [done.value]) else s
  }

  /** Attaches a completion to the last byte of the buffer. */
  function Enqueue<C>(s: Sender<C>, done: Option<C>): Sender<C> {
    if done.Some? then s.(queue := s.queue + [Entry(s.bytesSent + |s.buf|, done.value)]) else s
  }

  function MoveFront<C>(s: Sender<C>, n: nat): Sender<C>
    requires n <= |s.buf|
  {
    s.(buf := s.buf[n..], bytesSent := if n == |s.buf| then 0 else s.bytesSent + n)
  }

  function SendOrQue<C>(l: Link<C>, msg: bytes, done: Option<C>): Sent<C> {
    if msg == [] then Sent(l.(s := Fire(l.s, done)), Complete)
    else if l.s.buf != [] then Sent(l.(s := Enqueue(l.s.(buf := l.s.buf + msg), done)), InQueue)
    else
      var t := TrySendAll(l.net, msg);
      if !t.ok then Sent(l.(net := t.net), Error)
      else if t.sent == |msg| then Sent(Link(Fire(l.s, done), t.net), Complete)
      else Sent(Link(Enqueue(l.s.(buf := msg[t.sent..]), done), t.net), InQueue)
  }

  /** AutoSendBuffer::send, when `staged` has been written after `l.s.buf`. */
  function StagedSend<C>(l: Link<C>, staged: bytes, done: Option<C>): Sent<C> {
    if staged == [] then Sent(l.(s := Fire(l.s, done)), Complete)
    else if l.s.buf != [] then Sent(l.(s := Enqueue(l.s.(buf := l.s.buf + staged), done)), InQueue)
    else
      var t := TrySendAll(l.net, staged);
      var full := l.s.(buf := staged);
      if !t.ok then Sent(Link(full.(broken := true), t.net), Error)
      else
        var moved := if t.sent > 0 then MoveFront(full, t.sent) else full;
        if t.sent == |staged| then Sent(Link(Fire(moved, done), t.net), Complete)
        else Sent(Link(Enqueue(moved, done), t.net), InQueue)
  }

  /** How many entries at the front of the queue end at or before `limit`. */
  function Due<C>(queue: seq<Entry<C>>, limit: nat): (k: nat)
    ensures k <= |queue|
    ensures forall i :: 0 <= i < k ==> queue[i].end <= limit
    ensures k < |queue| ==> queue[k].end > limit
  {
    if queue != [] && queue[0].end <= limit then 1 + Due(queue[1..], limit) else 0
  }

  function Dones<C>(queue: seq<Entry<C>>): (r: seq<C>)
    ensures |r| == |queue|
  {
    seq(|queue|, i requires 0 <= i < |queue| => queue[i].done)
  }

  function Settle<C>(s: Sender<C>, limit: nat): Sender<C> {
    var k := Due(s.queue, limit);
    s.(queue := s.queue[k..], fired := s.fired + Dones(s.queue[..k]))
  }

  function Limit<C>(s: Sender<C>, n: nat, timing: Timing): nat {
    if timing.Intended? then s.bytesSent + n else s.bytesSent
  }

  /** What the runtime does on a writable socket. */
  function SendQueued<C>(l: Link<C>, timing: Timing): Sent<C> {
    if l.s.buf == [] then Sent(l, Complete)
    else
      var w := SockWrite(l.net, l.s.buf);
      match w.step
      case Accept(n) =>
        if n == 0 then Sent(Link(l.s.(broken := true), w.net), Error)
        else
          var s := MoveFront(Settle(l.s, Limit(l.s, n, timing)), n);
          Sent(Link(s, w.net), if s.buf == [] then Complete else InQueue)
      case WouldBlock => Sent(l.(net := w.net), InQueue)
      case Interrupted => Sent(l.(net := w.net), InQueue)
      case _ => Sent(Link(l.s.(broken := true), w.net), Error)
  }

  lemma SendQueuedCases<C>(l: Link<C>, timing: Timing)
    requires l.s.buf != []
    ensures var w, r := SockWrite(l.net, l.s.buf), SendQueued(l, timing);
      match w.step
      case Accept(n) =>
        && n <= |Settle(l.s, Limit(l.s, n, timing)).buf| == |l.s.buf|
        && var s := MoveFront(Settle(l.s, Limit(l.s, n, timing)), n);
           r == if n == 0 then Sent(Link(l.s.(broken := true), w.net), Error)
                else Sent(Link(s, w.net), if s.buf == [] then Complete else InQueue)
      case WouldBlock => r == Sent(l.(net := w.net), InQueue)
      case Interrupted => r == Sent(l.(net := w.net), InQueue)
      case _ => r == Sent(Link(l.s.(broken := true), w.net), Error)
  {
    hide Due, Dones;
  }

  // ------------------------------------------- where waiting messages start

  /** What the waiting completions' records say about the starts of their messages,
      and whether a subtraction on them has underflowed. A release build wraps, and
      nothing else depends on it; a debug build stops there. */
  datatype Posts = Posts(starts: seq<nat>, trapped: bool)

  /** The first record that is not due starts beyond the limit. */
  predicate TrapsAt<C>(queue: seq<Entry<C>>, starts: seq<nat>, limit: nat)
    requires |starts| == |queue|
  {
    var k := Due(queue, limit);
    k < |queue| && starts[k] > limit
  }

  /** The records after those that are due have been removed and the next trimmed. */
  function TrimmedPosts<C>(queue: seq<Entry<C>>, p: Posts, limit: nat): (r: Posts)
    requires |p.starts| == |queue|
    ensures |r.starts| == |queue| - Due(queue, limit)
  {
    var k := Due(queue, limit);
    Posts(if k < |queue| then [limit] + p.starts[k + 1..] else [], p.trapped || TrapsAt(queue, p.starts, limit))
  }

  function PostsAfterWrite<C>(l: Link<C>, p: Posts, timing: Timing): Posts
    requires |p.starts| == |l.s.queue|
  {
    var w := SockWrite(l.net, l.s.buf);
    if l.s.buf != [] && w.step.Accept? && w.step.n > 0
    then TrimmedPosts(l.s.queue, p, Limit(l.s, w.step.n, timing))
    else p
  }

  // -------------------------------------------------------------------- runs

  datatype Edit = Write(chunk: bytes) | Clear

  /** What an AutoSendBuffer holds after these calls to write and clear. */
  function Typed(edits: seq<Edit>): bytes {
    if edits == [] then []
    else
      var last := |edits| - 1;
      match edits[last]
      case Write(chunk) => Typed(edits[..last]) + chunk
      case Clear => []
  }

  /** The uses of a sender. `wanted` says whether a completion is passed. */
  datatype Op =
    | Direct(msg: bytes, wanted: bool)
    | Staged(edits: seq<Edit>, wanted: bool)
    | Writable

  function Message(op: Op): bytes {
    match op
    case Direct(msg, _) => msg
    case Staged(edits, _) => Typed(edits)
    case Writable => []
  }

  function Wanted(op: Op): bool { !op.Writable? && op.wanted }

  /** A completion that knows which send it belongs to and the position in the
      stream of its message's last byte (0 for an empty message). */
  datatype Ticket = Ticket(serial: nat, last: nat)

  type TLink = Link<Ticket>

  /** Everything that has been accepted: what is on the wire, then the buffer. */
  function Stream<C>(l: Link<C>): bytes { l.net.wire + l.s.buf }

  function TicketFor(l: TLink, op: Op, serial: nat): Option<Ticket> {
    if !Wanted(op) then None
    else Some(Ticket(serial, if Message(op) == [] then 0 else |Stream(l)| + |Message(op)|))
  }

  function Step(l: TLink, op: Op, serial: nat, timing: Timing): Sent<Ticket> {
    match op
    case Direct(msg, _) => SendOrQue(l, msg, TicketFor(l, op, serial))
    case Staged(edits, _) => StagedSend(l, Typed(edits), TicketFor(l, op, serial))
    case Writable => SendQueued(l, timing)
  }

  function Run(l: TLink, ops: seq<Op>, serial: nat, timing: Timing): TLink
    decreases |ops|
  {
    if ops == [] then l else Run(Step(l, ops[0], serial, timing).link, ops[1..], serial + 1, timing)
  }

  predicate ErrorFree(l: TLink, ops: seq<Op>, serial: nat, timing: Timing)
    decreases |ops|
  {
    ops != [] ==>
      && Step(l, ops[0], serial, timing).result != Error
      && ErrorFree(Step(l, ops[0], serial, timing).link, ops[1..], serial + 1, timing)
  }

  function Messages(ops: seq<Op>): bytes {
    if ops == [] then [] else Message(ops[0]) + Messages(ops[1..])
  }

  /** The completions passed in, in order. */
  function Tickets(l: TLink, ops: seq<Op>, serial: nat, timing: Timing): seq<Ticket>
    decreases |ops|
  {
    if ops == [] then []
    else
      var t := TicketFor(l, ops[0], serial);
      (if t.Some? then [t.value] else [])
      + Tickets(Step(l, ops[0], serial, timing).link, ops[1..], serial + 1, timing)
  }
}
