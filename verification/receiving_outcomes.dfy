/** What each read event comes to, read off the socket's answers and the dispatcher's:
    which reads are made, with what arguments the dispatcher is called, and how the
    event ends. */
module ReceivingOutcomes {
  import opened Sending
  import opened Receiving
  import opened ReceivingLaws

  // ------------------------------------------------------- calls of a dispatcher

  /** One call, and its reply. */
  datatype Call = Call(w: bytes, unseen: nat, size: nat, reply: Reply)

  /** The replies are those of the dispatcher, from call number `calls` on. */
  ghost predicate RepliesOf(asked: seq<Call>, calls: nat, d: Dispatcher) {
    forall i :: 0 <= i < |asked| ==> asked[i].reply == d(calls + i, asked[i].w, asked[i].unseen, asked[i].size)
  }

  /** The second call is made for what the first has left behind the message that it
      drops, all of which counts as new. */
  ghost predicate Continues(c: Call, next: Call) {
    && c.reply.verdict.DropMsgSize? && c.reply.verdict.n < |c.reply.slice|
    && next.w == c.reply.slice[c.reply.verdict.n..]
    && next.unseen == |next.w| && next.size == 0
  }

  ghost predicate InTurn(asked: seq<Call>) {
    forall i :: 0 <= i < |asked| - 1 ==> Continues(asked[i], asked[i + 1])
  }

  /** What the last call leaves. */
  ghost predicate Leaves(c: Call, r: Dispatched) {
    match c.reply.verdict
    case ExpectMsgSize(n) => r.window == c.reply.slice && r.size == n && r.ok
    case DropMsgSize(n) => n == |c.reply.slice| && r.window == [] && r.size == 0 && r.ok
    case Refuse => r.window == [] && r.size == 0 && !r.ok
  }

  /** The messages dropped, as they were when the dispatcher was called. */
  ghost predicate Drops(asked: seq<Call>, msgs: seq<bytes>) {
    && |msgs| == |asked| - (if asked != [] && !asked[|asked| - 1].reply.verdict.DropMsgSize? then 1 else 0)
    && forall i :: 0 <= i < |msgs| ==>
         && asked[i].reply.verdict.DropMsgSize? && asked[i].reply.verdict.n <= |asked[i].w|
         && msgs[i] == asked[i].w[..asked[i].reply.verdict.n]
  }

  lemma FirstOfMany(c: Call, rest: seq<Call>, calls: nat, d: Dispatcher, msgs: seq<bytes>)
    requires c.reply == d(calls, c.w, c.unseen, c.size) && RepliesOf(rest, calls + 1, d) && InTurn(rest)
    requires rest != [] ==> Continues(c, rest[0])
    requires c.reply.verdict.DropMsgSize? && c.reply.verdict.n <= |c.w| && Drops(rest, msgs)
    ensures RepliesOf([c] + rest, calls, d) && InTurn([c] + rest)
    ensures Drops([c] + rest, [c.w[..c.reply.verdict.n]] + msgs)
  {
    hide Continues;
    var asked, all := [c] + rest, [c.w[..c.reply.verdict.n]] + msgs;
    forall i | 0 <= i < |asked|
      ensures asked[i].reply == d(calls + i, asked[i].w, asked[i].unseen, asked[i].size)
      ensures i < |asked| - 1 ==> Continues(asked[i], asked[i + 1])
    {
      if i > 0 {
        assert asked[i] == rest[i - 1];
        assert rest[i - 1].reply == d((calls + 1) + (i - 1), rest[i - 1].w, rest[i - 1].unseen, rest[i - 1].size);
        assert i < |asked| - 1 ==> Continues(rest[i - 1], rest[i]);
      }
    }
    forall i | 0 <= i < |all|
      ensures asked[i].reply.verdict.DropMsgSize? && asked[i].reply.verdict.n <= |asked[i].w|
      ensures all[i] == asked[i].w[..asked[i].reply.verdict.n]
    {
      assert i > 0 ==> asked[i] == rest[i - 1] && all[i] == msgs[i - 1];
    }
  }

  /** These are the calls of try_dispatch_all, and `r` is what comes of them. The
      dispatcher is called if there are bytes, and as many as it expects: first with all
      of them, and with the given number of new ones and the carried size, then for what
      follows each dropped message. It is no longer called when it expects more, when it
      has refused, which empties the buffer, or when nothing is left. */
  ghost predicate Traced(asked: seq<Call>, w: bytes, unseen: nat, size: nat, calls: nat, d: Dispatcher,
                         r: Dispatched) {
    && RepliesOf(asked, calls, d) && InTurn(asked) && Drops(asked, r.msgs)
    && r.calls == calls + |asked|
    && (asked == [] <==> w == [] || size > |w|)
    && (asked == [] ==> r.window == w && r.size == size && r.ok)
    && (asked != [] ==>
          && (asked[0].w, asked[0].unseen, asked[0].size) == (w, unseen, size)
          && Leaves(asked[|asked| - 1], r))
  }

  lemma LastCall(w: bytes, unseen: nat, size: nat, calls: nat, d: Dispatcher)
    requires Lawful(d) && w != [] && size <= |w| && !d(calls, w, unseen, size).verdict.DropMsgSize?
    ensures Traced([Call(w, unseen, size, d(calls, w, unseen, size))], w, unseen, size, calls, d,
                   DispatchAll(w, unseen, size, calls, d))
  {
    DispatchUnfolds(w, unseen, size, calls, d);
    hide Lawful, DispatchAll;
  }

  lemma CallAndMore(w: bytes, unseen: nat, size: nat, calls: nat, d: Dispatcher, rest: seq<Call>)
    requires Lawful(d) && w != [] && size <= |w|
    requires var c := d(calls, w, unseen, size);
      && c.verdict.DropMsgSize? && |c.slice| == |w| && 0 < c.verdict.n <= |w|
      && Traced(rest, c.slice[c.verdict.n..], |w| - c.verdict.n, 0, calls + 1, d,
                DispatchAll(c.slice[c.verdict.n..], |w| - c.verdict.n, 0, calls + 1, d))
    ensures Traced([Call(w, unseen, size, d(calls, w, unseen, size))] + rest, w, unseen, size, calls, d,
                   DispatchAll(w, unseen, size, calls, d))
  {
    DispatchUnfolds(w, unseen, size, calls, d);
    hide Lawful, DispatchAll, RepliesOf, InTurn, Drops;
    var c := Call(w, unseen, size, d(calls, w, unseen, size));
    var n := c.reply.verdict.n;
    var r := DispatchAll(c.reply.slice[n..], |w| - n, 0, calls + 1, d);
    FirstOfMany(c, rest, calls, d, r.msgs);
  }

  /** Every call of try_dispatch_all. */
  lemma {:induction false} DispatchIsTraced(w: bytes, unseen: nat, size: nat, calls: nat, d: Dispatcher)
    returns (asked: seq<Call>)
    requires Lawful(d)
    ensures Traced(asked, w, unseen, size, calls, d, DispatchAll(w, unseen, size, calls, d))
    decreases |w|
  {
    if w != [] && size <= |w| {
      LawfulReply(d, calls, w, unseen, size);
      hide Traced, Lawful, DispatchAll;
      var reply := d(calls, w, unseen, size);
      if reply.verdict.DropMsgSize? {
        var n := reply.verdict.n;
        var rest := DispatchIsTraced(reply.slice[n..], |w| - n, 0, calls + 1, d);
        CallAndMore(w, unseen, size, calls, d, rest);
        asked := [Call(w, unseen, size, reply)] + rest;
      } else {
        LastCall(w, unseen, size, calls, d);
        asked := [Call(w, unseen, size, reply)];
      }
    } else {
      DispatchUnfolds(w, unseen, size, calls, d);
      asked := [];
    }
  }

  // ------------------------------------------------------------ reads of an event

  /** Into how many bytes the next read goes. */
  function Room(h: Reader): (room: nat)
    requires |h.window| <= h.cap
  {
    Grow(h).cap - |h.window|
  }

  predicate Fits(heads: seq<Reader>) { forall i :: 0 <= i < |heads| ==> |heads[i].window| <= heads[i].cap }

  /** One read at each head of the loop, from where the read before it has left the
      socket; every one but the last has filled its room. */
  ghost predicate ReadAt(heads: seq<Reader>, answers: seq<GotBytes>, net: Inbound)
    requires Fits(heads)
  {
    && |answers| == |heads| > 0
    && answers[0] == SockRead(net, Room(heads[0]))
    && (forall i :: 0 < i < |answers| ==> answers[i] == SockRead(answers[i - 1].net, Room(heads[i])))
    && (forall i :: 0 <= i < |answers| - 1 ==> Fills(answers[i], Room(heads[i])))
  }

  predicate Fills(x: GotBytes, room: nat) { x.step.Deliver? && 0 < |x.chunk| == room }

  function Bytes(answers: seq<GotBytes>): bytes {
    if answers == [] then [] else answers[0].chunk + Bytes(answers[1..])
  }

  lemma ReadAtOnce(h: Reader, net: Inbound)
    requires |h.window| <= h.cap
    ensures var x := SockRead(net, Room(h)); ReadAt([h], [x], net) && Bytes([x]) == x.chunk
  {}

  lemma ReadAtMore(h: Reader, heads: seq<Reader>, answers: seq<GotBytes>, net: Inbound)
    requires |h.window| <= h.cap && Fits(heads) && Fills(SockRead(net, Room(h)), Room(h))
    requires ReadAt(heads, answers, SockRead(net, Room(h)).net)
    ensures var x := SockRead(net, Room(h));
      Fits([h] + heads) && ReadAt([h] + heads, [x] + answers, net) && Bytes([x] + answers) == x.chunk + Bytes(answers)
  {
    hide SockRead, Fills, Room;
    var x := SockRead(net, Room(h));
    var allHeads, all := [h] + heads, [x] + answers;
    assert all[1..] == answers;
    forall i | 0 < i < |all| ensures all[i] == SockRead(all[i - 1].net, Room(allHeads[i])) {
      assert all[i] == answers[i - 1] && allHeads[i] == heads[i - 1];
      assert i > 1 ==> all[i - 1] == answers[i - 2];
    }
    forall i | 0 <= i < |all| - 1 ensures Fills(all[i], Room(allHeads[i])) {
      assert i > 0 ==> all[i] == answers[i - 1] && allHeads[i] == heads[i - 1];
    }
  }

  /** What has come of these reads when `x` is the state that the reading has led to:
      nothing but the bytes is new. */
  ghost predicate AllRead(r: Reader, net: Inbound, x: Reading, heads: seq<Reader>, answers: seq<GotBytes>) {
    && Fits(heads) && ReadAt(heads, answers, net)
    && Extends(r, x.r, Bytes(answers)) && Consumes(net, x.net, Bytes(answers))
    && x.net == answers[|answers| - 1].net
    && !Fills(answers[|answers| - 1], Room(heads[|heads| - 1]))
  }

  /** How the last read ends a loop. */
  ghost predicate EndsBy(result: ReadResult, last: GotBytes) {
    && (result == PeerClosed <==> last.step == Deliver(0))
    && (result == SockError <==> last.step.ReadFailed?)
  }

  lemma OneRead(r: Reader, net: Inbound, x: Reading)
    requires |r.window| <= r.cap && !Fills(SockRead(net, Room(r)), Room(r))
    requires var got := SockRead(net, Room(r)); Extends(r, x.r, got.chunk) && x.net == got.net
    ensures AllRead(r, net, x, [r], [SockRead(net, Room(r))])
  {
    ReadAtOnce(r, net);
    SockReadConsumes(net, Room(r));
    hide SockRead, Extends, Consumes, Fills, Room;
  }

  lemma LastRead(r: Reader, net: Inbound)
    requires |r.window| <= r.cap && !Fills(SockRead(net, Room(r)), Room(r))
    ensures AllRead(r, net, ReadAll(r, net), ReadAllHeads(r, net), [SockRead(net, Room(r))])
    ensures EndsBy(ReadAll(r, net).result, SockRead(net, Room(r))) && ReadAll(r, net).result != Refused
  {
    ReadAllUnfolds(r, net);
    GrowAppendExtends(r, SockRead(net, Room(r)).chunk);
    hide ReadAll, ReadAllHeads, SockRead, Extends, AllRead;
    OneRead(r, net, ReadAll(r, net));
  }

  lemma ReadAndMore(r: Reader, net: Inbound, more: seq<GotBytes>)
    requires |r.window| <= r.cap && Fills(SockRead(net, Room(r)), Room(r))
    requires var x := SockRead(net, Room(r)); var got := Append(Grow(r), x.chunk);
      && |got.window| <= got.cap
      && AllRead(got, x.net, ReadAll(got, x.net), ReadAllHeads(got, x.net), more)
    ensures var x := SockRead(net, Room(r)); var got := Append(Grow(r), x.chunk);
      && ReadAll(r, net) == ReadAll(got, x.net)
      && AllRead(r, net, ReadAll(r, net), ReadAllHeads(r, net), [x] + more)
  {
    ReadAllUnfolds(r, net);
    GrowAppendExtends(r, SockRead(net, Room(r)).chunk);
    SockReadConsumes(net, Room(r));
    hide ReadAll, ReadAllHeads, SockRead, Extends, Consumes;
    var x := SockRead(net, Room(r));
    var got := Append(Grow(r), x.chunk);
    ReadAtMore(r, ReadAllHeads(got, x.net), more, net);
    ExtendsMore(r, got, ReadAll(got, x.net).r, x.chunk, Bytes(more));
    ConsumesMore(net, x.net, ReadAll(got, x.net).net, x.chunk, Bytes(more));
  }

  /** try_read_all ends by its last read, the first one that leaves room. */
  lemma {:induction false} ReadAllReads(r: Reader, net: Inbound) returns (answers: seq<GotBytes>)
    requires |r.window| <= r.cap
    ensures AllRead(r, net, ReadAll(r, net), ReadAllHeads(r, net), answers)
    ensures EndsBy(ReadAll(r, net).result, answers[|answers| - 1]) && ReadAll(r, net).result != Refused
    decreases |net.script|
  {
    var x := SockRead(net, Room(r));
    hide ReadAll, ReadAllHeads, SockRead, AllRead, Append;
    answers := [x];
    if Fills(x, Room(r)) {
      var got := Append(Grow(r), x.chunk);
      var more := ReadAllReads(got, x.net);
      ReadAndMore(r, net, more);
      assert more != [] by { MadeReads(got, x.net, ReadAll(got, x.net), ReadAllHeads(got, x.net), more); }
      answers := [x] + more;
    } else {
      LastRead(r, net);
    }
  }

  lemma MadeReads(r: Reader, net: Inbound, x: Reading, heads: seq<Reader>, answers: seq<GotBytes>)
    requires AllRead(r, net, x, heads, answers)
    ensures answers != [] && Fits(heads) && |heads| == |answers|
  {}

  // ------------------------------------------------------------- whole events

  /** try_dispatch_all on a reader. */
  lemma DispatchOutcome(r: Reader, unseen: nat, d: Dispatcher) returns (asked: seq<Call>, y: Dispatched)
    requires Lawful(d)
    ensures Traced(asked, r.window, unseen, r.size, r.calls, d, y)
    ensures Dispatch(r, unseen, d)
      == (r.(window := y.window, size := y.size, log := r.log + y.msgs, calls := y.calls), y.ok)
  {
    hide Traced, Lawful, DispatchAll;
    asked := DispatchIsTraced(r.window, unseen, r.size, r.calls, d);
    y := DispatchAll(r.window, unseen, r.size, r.calls, d);
  }

  /** These reads have been made, and have led from one state of the socket to another. */
  ghost predicate ReadsLeadTo(after: Inbound, net: Inbound, heads: seq<Reader>, answers: seq<GotBytes>) {
    && Fits(heads) && ReadAt(heads, answers, net)
    && after == answers[|answers| - 1].net
    && net.inbox == Bytes(answers) + after.inbox
  }

  /** What a dispatch makes of a reader. */
  ghost predicate DispatchedOn(r: Reader, after: Reader, y: Dispatched) {
    after.window == y.window && after.size == y.size && after.log == r.log + y.msgs && after.calls == y.calls
  }

  lemma FastReadIs(r: Reader, net: Inbound, d: Dispatcher)
    requires Lawful(d) && |r.window| <= r.cap
    ensures var got := ReadAll(r, net);
      && |got.r.window| >= |r.window|
      && var after := Dispatch(got.r, |got.r.window| - |r.window|, d);
         FastRead(r, net, d)
           == Reading(after.0, got.net, if got.result != Fine then got.result else if after.1 then Fine else Refused)
  {
    hide ReadAll, Dispatch, Lawful;
  }

  /** Strategy 2: reads are made while they fill the buffer; then the dispatcher is
      called, for all bytes, with the number of bytes read as the number of new ones.
      The event ends with `PeerClosed` exactly if the last read was at the end of the
      stream, with `SockError` exactly if it failed, and otherwise as the dispatcher
      says. */
  lemma {:induction false} FastReadOutcome(r: Reader, net: Inbound, d: Dispatcher)
    returns (answers: seq<GotBytes>, asked: seq<Call>, y: Dispatched)
    requires Lawful(d) && |r.window| <= r.cap
    ensures var x, heads := FastRead(r, net, d), ReadAllHeads(r, net);
      && ReadsLeadTo(x.net, net, heads, answers)
      && !Fills(answers[|answers| - 1], Room(heads[|heads| - 1]))
      && Traced(asked, r.window + Bytes(answers), |Bytes(answers)|, r.size, r.calls, d, y)
      && DispatchedOn(r, x.r, y)
      && EndsBy(x.result, answers[|answers| - 1])
      && (x.result == Refused <==> x.result != PeerClosed && x.result != SockError && !y.ok)
  {
    hide AllRead, ReadAll, ReadAllHeads, FastRead, Traced, ReadsLeadTo, DispatchedOn, Fills, Room, SockRead, Dispatch;
    hide Lawful, Bytes, Fits;
    answers := ReadAllReads(r, net);
    FastReadIs(r, net, d);
    AllReadLeadsTo(r, net, ReadAll(r, net), ReadAllHeads(r, net), answers);
    var got := ReadAll(r, net).r;
    asked, y := DispatchOutcome(got, |Bytes(answers)|, d);
    DispatchedLater(r, got, Dispatch(got, |Bytes(answers)|, d).0, y);
  }

  lemma AllReadLeadsTo(r: Reader, net: Inbound, x: Reading, heads: seq<Reader>, answers: seq<GotBytes>)
    requires AllRead(r, net, x, heads, answers)
    ensures ReadsLeadTo(x.net, net, heads, answers) && |answers| == |heads| > 0 && Fits(heads)
    ensures !Fills(answers[|answers| - 1], Room(heads[|heads| - 1]))
    ensures x.r.window == r.window + Bytes(answers) && |x.r.window| - |r.window| == |Bytes(answers)|
    ensures x.r.size == r.size && x.r.log == r.log && x.r.calls == r.calls
  {
    hide SockRead, Fills, Room;
  }

  lemma DispatchedLater(r: Reader, got: Reader, after: Reader, y: Dispatched)
    requires got.size == r.size && got.log == r.log && got.calls == r.calls
    requires after == got.(window := y.window, size := y.size, log := got.log + y.msgs, calls := y.calls)
    ensures DispatchedOn(r, after, y)
  {}

  /** try_dispatch_all after a read has brought `x`, all of which is new. */
  function AfterRead(h: Reader, x: GotBytes, d: Dispatcher): (Reader, bool)
    requires Lawful(d)
  {
    Dispatch(Append(Grow(h), x.chunk), |x.chunk|, d)
  }

  /** The dispatcher has been called after every read but the last, and has not
      refused. */
  ghost predicate DispatchedBetween(heads: seq<Reader>, answers: seq<GotBytes>, d: Dispatcher)
    requires Lawful(d) && |answers| == |heads|
  {
    forall i :: 0 <= i < |heads| - 1 ==> (heads[i + 1], true) == AfterRead(heads[i], answers[i], d)
  }

  /** How strategy 1 ends, after the read `last` at the head `h`. */
  ghost predicate EndsAt(h: Reader, last: GotBytes, d: Dispatcher, x: Reading)
    requires Lawful(d) && |h.window| <= h.cap
  {
    && x.net == last.net && EndsBy(x.result, last)
    && if last.chunk == [] then x.r == Grow(h) && x.result != Refused
       else
         var after := AfterRead(h, last, d);
         x.r == after.0 && (x.result == Refused <==> !after.1) && (Fills(last, Room(h)) ==> !after.1)
  }

  lemma LastTurn(r: Reader, net: Inbound, d: Dispatcher)
    requires Lawful(d) && |r.window| <= r.cap && !TurnsAgain(r, net, d)
    ensures FastDispatchHeads(r, net, d) == [r]
    ensures EndsAt(r, SockRead(net, Room(r)), d, FastDispatch(r, net, d))
  {
    FastDispatchUnfolds(r, net, d);
    hide FastDispatch, FastDispatchHeads, Dispatch, Lawful;
  }

  lemma TurnThenMore(r: Reader, net: Inbound, d: Dispatcher)
    requires Lawful(d) && |r.window| <= r.cap && TurnsAgain(r, net, d)
    ensures var x := SockRead(net, Room(r)); var next := AfterRead(r, x, d);
      && Fills(x, Room(r)) && next.1 && |next.0.window| <= next.0.cap && |x.net.script| < |net.script|
      && FastDispatch(r, net, d) == FastDispatch(next.0, x.net, d)
      && FastDispatchHeads(r, net, d) == [r] + FastDispatchHeads(next.0, x.net, d)
  {
    FastDispatchUnfolds(r, net, d);
    hide FastDispatch, FastDispatchHeads, Dispatch, Lawful;
  }

  /** Strategy 1: the dispatcher is called after each read, with the number of bytes
      read as the number of new ones, and reads are made while they fill the buffer and
      nothing is refused. How the event ends is as in strategy 2, but that a refusal
      comes before the next read. */
  lemma {:induction false} FastDispatchOutcome(r: Reader, net: Inbound, d: Dispatcher)
    returns (answers: seq<GotBytes>)
    requires Lawful(d) && |r.window| <= r.cap
    ensures var x, heads := FastDispatch(r, net, d), FastDispatchHeads(r, net, d);
      && ReadsLeadTo(x.net, net, heads, answers) && DispatchedBetween(heads, answers, d)
      && heads[0] == r && EndsAt(heads[|heads| - 1], answers[|answers| - 1], d, x)
    decreases |net.script|
  {
    var x := SockRead(net, Room(r));
    answers := [x];
    hide FastDispatch, FastDispatchHeads, TurnsAgain, AfterRead, Lawful;
    if TurnsAgain(r, net, d) {
      TurnThenMore(r, net, d);
      var next := AfterRead(r, x, d).0;
      var more := FastDispatchOutcome(next, x.net, d);
      var heads := FastDispatchHeads(next, x.net, d);
      ReadAtMore(r, heads, more, net);
      BetweenMore(r, heads, x, more, d);
      hide ReadAt, EndsAt, DispatchedBetween, SockRead;
      Regroup(x.chunk, Bytes(more), FastDispatch(next, x.net, d).net.inbox);
      answers := [x] + more;
    } else {
      LastTurn(r, net, d);
      ReadAtOnce(r, net);
    }
  }

  lemma BetweenMore(r: Reader, heads: seq<Reader>, x: GotBytes, more: seq<GotBytes>, d: Dispatcher)
    requires Lawful(d) && |more| == |heads| > 0 && DispatchedBetween(heads, more, d)
    requires AfterRead(r, x, d) == (heads[0], true)
    ensures DispatchedBetween([r] + heads, [x] + more, d)
  {
    hide Lawful, AfterRead;
    var allHeads, all := [r] + heads, [x] + more;
    forall i | 0 <= i < |allHeads| - 1 ensures (allHeads[i + 1], true) == AfterRead(allHeads[i], all[i], d) {
      if i > 0 {
        assert (heads[i - 1 + 1], true) == AfterRead(heads[i - 1], more[i - 1], d);
      }
    }
  }

  /** With either strategy: the event ends with `PeerClosed` exactly if its last read
      was at the end of the stream and with `SockError` exactly if it failed. */
  lemma EventEnds(r: Reader, net: Inbound, d: Dispatcher, how: Strategy) returns (answers: seq<GotBytes>)
    requires Lawful(d) && |r.window| <= r.cap
    ensures var x, heads := ReadEvent(r, net, d, how), Heads(r, net, d, how);
      && ReadsLeadTo(x.net, net, heads, answers)
      && EndsBy(x.result, answers[|answers| - 1])
  {
    hide FastRead, FastDispatch, ReadAllHeads, FastDispatchHeads, Bytes, Lawful, SockRead, Traced;
    match how {
      case ReadFirst =>
        var asked, y;
        answers, asked, y := FastReadOutcome(r, net, d);
      case DispatchFirst =>
        answers := FastDispatchOutcome(r, net, d);
    }
  }
}
