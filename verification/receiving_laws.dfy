/** What holds over every run of a reader, however the bytes arrive. */
module ReceivingLaws {
  import opened Sending
  import opened Receiving

  lemma Regroup(a: bytes, b: bytes, c: bytes)
    ensures a + b + c == a + (b + c)
  {}

  lemma NothingMore(a: bytes)
    ensures a + [] == a && [] + a == a
  {}

  // ------------------------------------------------------------ whole parsing

  function Flat(msgs: seq<bytes>): bytes {
    if msgs == [] then [] else msgs[0] + Flat(msgs[1..])
  }

  /** Parsing cuts the stream up: no byte is lost, repeated or moved. */
  lemma {:induction false} ParseLosesNothing(f: Framing, s: bytes)
    ensures Flat(Parse(f, s).msgs) + Parse(f, s).rest == s
    decreases |s|
  {
    if s != [] && f(s).Whole? && 0 < f(s).n <= |s| {
      var n := f(s).n;
      ParseLosesNothing(f, s[n..]);
      var p := Parse(f, s[n..]);
      assert Parse(f, s).msgs[0] == s[..n] && Parse(f, s).msgs[1..] == p.msgs;
      assert s[..n] + (Flat(p.msgs) + p.rest) == (s[..n] + Flat(p.msgs)) + p.rest;
    }
  }

  lemma ParseHead(f: Framing, s: bytes)
    ensures s != [] && f(s).Whole? && 0 < f(s).n <= |s| ==>
      var p := Parse(f, s[f(s).n..]); Parse(f, s) == Parsed([s[..f(s).n]] + p.msgs, p.rest)
    ensures s == [] || f(s).Need? ==> Parse(f, s) == Parsed([], s)
  {}

  lemma WholeStays(f: Framing, s: bytes, t: bytes)
    requires Stable(f) && f(s).Whole?
    ensures f(s + t) == f(s) && 0 < f(s).n <= |s|
    ensures (s + t)[f(s).n..] == s[f(s).n..] + t && (s + t)[..f(s).n] == s[..f(s).n]
  {}

  /** Parsing can stop anywhere and resume when more bytes have come. */
  lemma {:induction false} ParseResumes(f: Framing, s: bytes, t: bytes)
    requires Stable(f)
    ensures var p, q := Parse(f, s), Parse(f, Parse(f, s).rest + t);
      Parse(f, s + t) == Parsed(p.msgs + q.msgs, q.rest)
    decreases |s|
  {
    hide Stable, Parse;
    ParseHead(f, s);
    if s != [] && f(s).Whole? {
      WholeStays(f, s, t);
      ParseHead(f, s + t);
      ParseResumes(f, s[f(s).n..], t);
    }
  }

  // ------------------------------------------------------------- the dispatch

  lemma HintGrows(f: Framing, w: bytes, t: bytes, size: nat)
    requires Hint(f, w, size)
    ensures Hint(f, w + t, size)
  {
    if size != 0 {
      var k :| 0 <= k <= |w| && f(w[..k]) == Need(size);
      assert (w + t)[..k] == w[..k];
    }
  }

  lemma HintIsKept(f: Framing, w: bytes, size: nat)
    requires Stable(f) && Hint(f, w, size) && |w| < size
    ensures f(w).Need?
  {
    var k :| 0 <= k <= |w| && f(w[..k]) == Need(size);
    assert w[..k] + w[k..] == w;
  }

  /** What a dispatcher that follows the framing answers to the bytes at the front. */
  lemma FirstDispatch(f: Framing, d: Dispatcher, calls: nat, w: bytes, unseen: nat, size: nat)
    requires Follows(d, f) && Hint(f, w, size) && w != [] && size <= |w|
    ensures f(w).Whole? ==>
      && 0 < f(w).n <= |w| && |d(calls, w, unseen, size).slice| == |w|
      && d(calls, w, unseen, size).verdict == DropMsgSize(f(w).n)
      && d(calls, w, unseen, size).slice[f(w).n..] == w[f(w).n..]
    ensures f(w).Need? ==>
      && d(calls, w, unseen, size) == Reply(ExpectMsgSize(f(w).n), w)
      && (f(w).n == 0 || f(w).n > |w|) && Hint(f, w, f(w).n)
  {
    assert w[..|w|] == w;
  }

  /** One call of try_dispatch_all parses what is in the buffer, and leaves a
      decoded size that is more than what is left. */
  lemma {:induction false} DispatchParses(f: Framing, d: Dispatcher, w: bytes, unseen: nat, size: nat, calls: nat)
    requires Follows(d, f) && Hint(f, w, size)
    ensures var r, p := DispatchAll(w, unseen, size, calls, d), Parse(f, w);
      && r.ok && r.msgs == p.msgs && r.window == p.rest
      && Hint(f, r.window, r.size) && (r.size == 0 || r.size > |r.window|)
    decreases |w|
  {
    assert Lawful(d) && Stable(f);
    hide Follows, Stable, Lawful, Hint, Parse, DispatchAll;
    ParseHead(f, w);
    DispatchUnfolds(w, unseen, size, calls, d);
    if w != [] && size <= |w| {
      FirstDispatch(f, d, calls, w, unseen, size);
      if f(w).Whole? {
        NoHint(f, w[f(w).n..]);
        DispatchParses(f, d, w[f(w).n..], |w| - f(w).n, 0, calls + 1);
      }
    } else if w != [] {
      HintIsKept(f, w, size);
    }
  }

  lemma NoHint(f: Framing, w: bytes)
    ensures Hint(f, w, 0)
  {}

  /** The reader has dispatched the messages of `stream` and holds the rest. */
  ghost predicate Synced(f: Framing, r: Reader, stream: bytes) {
    && r.log == Parse(f, stream).msgs
    && r.window == Parse(f, stream).rest
    && Hint(f, r.window, r.size)
  }

  lemma DispatchSyncs(f: Framing, d: Dispatcher, r: Reader, stream: bytes, chunk: bytes, unseen: nat)
    requires Follows(d, f) && Synced(f, r.(window := Parse(f, stream).rest), stream)
    requires r.window == Parse(f, stream).rest + chunk
    ensures Dispatch(r, unseen, d).1 && Synced(f, Dispatch(r, unseen, d).0, stream + chunk)
  {
    HintGrows(f, Parse(f, stream).rest, chunk, r.size);
    DispatchParses(f, d, r.window, unseen, r.size, r.calls);
    ParseResumes(f, stream, chunk);
  }

  // ------------------------------------------------------------- read events

  /** `taken` is what was read between two states of the socket. */
  ghost predicate Consumes(before: Inbound, after: Inbound, taken: bytes) {
    before.inbox == taken + after.inbox
  }

  lemma ConsumesMore(a: Inbound, b: Inbound, c: Inbound, s: bytes, t: bytes)
    requires Consumes(a, b, s) && Consumes(b, c, t)
    ensures Consumes(a, c, s + t)
  {}

  /** `y` is `x` after `chunk` has been appended, apart from the buffer's size. */
  ghost predicate Extends(x: Reader, y: Reader, chunk: bytes) {
    y.window == x.window + chunk && y.log == x.log && y.size == x.size
    && y.reserve == x.reserve && y.calls == x.calls
  }

  lemma ExtendsMore(x: Reader, y: Reader, z: Reader, s: bytes, t: bytes)
    requires Extends(x, y, s) && Extends(y, z, t)
    ensures Extends(x, z, s + t)
  {
    assert (x.window + s) + t == x.window + (s + t);
  }

  lemma GrowAppendExtends(r: Reader, chunk: bytes)
    ensures Extends(r, Append(Grow(r), chunk), chunk)
    ensures chunk == [] ==> Extends(r, Grow(r), chunk)
  {}

  lemma {:induction false} ReadAllAppends(r: Reader, net: Inbound) returns (taken: bytes)
    requires |r.window| <= r.cap
    ensures var x := ReadAll(r, net); Consumes(net, x.net, taken) && Extends(r, x.r, taken) && x.result != Refused
    decreases |net.script|
  {
    hide Consumes, Extends, SockRead;
    var g := Grow(r);
    var x := SockRead(net, g.cap - |g.window|);
    taken := x.chunk;
    SockReadConsumes(net, g.cap - |g.window|);
    GrowAppendExtends(r, x.chunk);
    if x.step.Deliver? && x.step.n > 0 {
      var got := Append(g, x.chunk);
      if |got.window| == got.cap {
        var more := ReadAllAppends(got, x.net);
        ConsumesMore(net, x.net, ReadAll(got, x.net).net, x.chunk, more);
        ExtendsMore(r, got, ReadAll(got, x.net).r, x.chunk, more);
        taken := x.chunk + more;
      }
    }
  }

  /** Reading `taken` has kept the reader in step, and nothing was refused. */
  ghost predicate InStep(f: Framing, before: Inbound, x: Reading, stream: bytes, taken: bytes) {
    Consumes(before, x.net, taken) && Synced(f, x.r, stream + taken) && x.result != Refused
  }

  lemma FastReadSyncs(f: Framing, d: Dispatcher, r: Reader, net: Inbound, stream: bytes) returns (taken: bytes)
    requires Follows(d, f) && Synced(f, r, stream) && |r.window| <= r.cap
    ensures InStep(f, net, FastRead(r, net, d), stream, taken)
  {
    taken := ReadAllAppends(r, net);
    var x := ReadAll(r, net);
    DispatchSyncs(f, d, x.r, stream, taken, |x.r.window| - |r.window|);
  }

  lemma ReadThenDispatchSyncs(f: Framing, d: Dispatcher, r: Reader, chunk: bytes, stream: bytes, unseen: nat)
    requires Follows(d, f) && Synced(f, r, stream)
    ensures var x := Dispatch(Append(Grow(r), chunk), unseen, d); x.1 && Synced(f, x.0, stream + chunk)
  {
    hide Synced, Grow, Append, Dispatch, Parse;
    GrownIsSynced(f, r, Grow(r), chunk, stream);
    DispatchSyncs(f, d, Append(Grow(r), chunk), stream, chunk, unseen);
  }

  lemma TurnInStep(f: Framing, d: Dispatcher, r: Reader, net: Inbound, stream: bytes) returns (taken: bytes)
    requires Follows(d, f) && Synced(f, r, stream) && |r.window| <= r.cap
    ensures InStep(f, net, FastTurn(r, net, d), stream, taken)
  {
    hide Synced, Follows, SockRead, Grow, Append, Dispatch;
    var room := Grow(r).cap - |Grow(r).window|;
    var x := SockRead(net, room);
    SockReadConsumes(net, room);
    taken := x.chunk;
    if x.step.Deliver? && x.step.n > 0 {
      ReadThenDispatchSyncs(f, d, r, x.chunk, stream, x.step.n);
    } else {
      NothingMore(stream);
      GrownIsSynced(f, r, Grow(r), [], stream);
    }
  }

  lemma {:induction false} FastDispatchSyncs(f: Framing, d: Dispatcher, r: Reader, net: Inbound, stream: bytes)
    returns (taken: bytes)
    requires Follows(d, f) && Synced(f, r, stream) && |r.window| <= r.cap
    ensures InStep(f, net, FastDispatch(r, net, d), stream, taken)
    decreases |net.script|
  {
    assert Lawful(d);
    hide Synced, Follows, Lawful, FastDispatch, FastDispatchHeads, FastTurn, TurnsAgain, Consumes;
    FastDispatchUnfolds(r, net, d);
    taken := TurnInStep(f, d, r, net, stream);
    if TurnsAgain(r, net, d) {
      var x := FastTurn(r, net, d);
      var more := FastDispatchSyncs(f, d, x.r, x.net, stream + taken);
      InStepFurther(f, net, x.net, FastDispatch(x.r, x.net, d), stream, taken, more);
      taken := taken + more;
    }
  }

  lemma InStepFurther(f: Framing, a: Inbound, b: Inbound, x: Reading, stream: bytes, s: bytes, t: bytes)
    requires Consumes(a, b, s) && InStep(f, b, x, stream + s, t)
    ensures InStep(f, a, x, stream, s + t)
  {
    hide Synced;
    Regroup(stream, s, t);
  }

  lemma SockReadConsumes(net: Inbound, room: nat)
    ensures Consumes(net, SockRead(net, room).net, SockRead(net, room).chunk)
  {}

  /** Growing the buffer and appending to it leaves the log and the hint alone. */
  lemma GrownIsSynced(f: Framing, r: Reader, g: Reader, chunk: bytes, stream: bytes)
    requires Synced(f, r, stream) && g == Grow(r)
    ensures Synced(f, g, stream)
    ensures Synced(f, Append(g, chunk).(window := Parse(f, stream).rest), stream)
    ensures Append(g, chunk).window == Parse(f, stream).rest + chunk
  {}

  lemma EventSyncs(f: Framing, d: Dispatcher, r: Reader, net: Inbound, stream: bytes, how: Strategy)
    returns (taken: bytes)
    requires Follows(d, f) && Synced(f, r, stream) && |r.window| <= r.cap
    ensures InStep(f, net, ReadEvent(r, net, d, how), stream, taken)
  {
    match how {
      case ReadFirst => taken := FastReadSyncs(f, d, r, net, stream);
      case DispatchFirst => taken := FastDispatchSyncs(f, d, r, net, stream);
    }
  }

  // ----------------------------------------------------- window and buffer size

  ghost predicate Bounded(r: Reader) {
    |r.window| <= r.cap <= 2 * (r.peak + r.reserve) && |r.window| <= r.peak
  }

  lemma GrowBounded(r: Reader)
    requires Bounded(r)
    ensures Bounded(Grow(r)) && Grow(r).reserve == r.reserve
  {}

  /** The buffer grows only if there is too little room, and then to exactly twice its
      size unless even that would be too little. */
  lemma GrowsTwofold(r: Reader)
    ensures Grow(r).cap == r.cap <==> |r.window| + r.reserve <= r.cap
    ensures Grow(r).cap != r.cap ==>
      && Grow(r).cap >= 2 * r.cap
      && (Grow(r).cap > 2 * r.cap ==> Grow(r).cap == |r.window| + r.reserve)
  {}

  /** Before every read there is room for at least `reserve` bytes. */
  lemma RoomBeforeRead(r: Reader)
    requires Bounded(r)
    ensures Bounded(Grow(r)) && Grow(r).cap >= |r.window| + r.reserve && Grow(r).cap >= r.cap
  {}

  /** The next read has room for the reserve, in a buffer that is not too large. */
  ghost predicate MayRead(r: Reader) {
    Bounded(r) && Bounded(Grow(r)) && Grow(r).cap >= |r.window| + r.reserve
  }

  lemma {:induction false} ReadAllBounded(r: Reader, net: Inbound)
    requires Bounded(r)
    ensures Bounded(ReadAll(r, net).r) && ReadAll(r, net).r.reserve == r.reserve
    ensures forall h :: h in ReadAllHeads(r, net) ==> MayRead(h)
    decreases |net.script|
  {
    GrowBounded(r);
    RoomBeforeRead(r);
    hide SockRead, Grow, DispatchAll;
    var g := Grow(r);
    var x := SockRead(net, g.cap - |g.window|);
    if x.step.Deliver? && x.step.n > 0 {
      var got := Append(g, x.chunk);
      if |got.window| == got.cap {
        ReadAllBounded(got, x.net);
      }
    }
  }

  lemma {:induction false} FastDispatchBounded(r: Reader, net: Inbound, d: Dispatcher)
    requires Lawful(d) && Bounded(r)
    ensures Bounded(FastDispatch(r, net, d).r) && FastDispatch(r, net, d).r.reserve == r.reserve
    ensures forall h :: h in FastDispatchHeads(r, net, d) ==> MayRead(h)
    decreases |net.script|
  {
    GrowBounded(r);
    RoomBeforeRead(r);
    hide SockRead, Grow, DispatchAll;
    var g := Grow(r);
    var x := SockRead(net, g.cap - |g.window|);
    if x.step.Deliver? && x.step.n > 0 {
      var got := Append(g, x.chunk);
      var (after, ok) := Dispatch(got, x.step.n, d);
      if ok && |got.window| == got.cap {
        FastDispatchBounded(after, x.net, d);
      }
    }
  }

  ghost function Heads(r: Reader, net: Inbound, d: Dispatcher, how: Strategy): seq<Reader>
    requires Lawful(d) && |r.window| <= r.cap
  {
    match how
    case ReadFirst => ReadAllHeads(r, net)
    case DispatchFirst => FastDispatchHeads(r, net, d)
  }

  /** With any lawful dispatcher, the buffer holds what is in it and is at most
      twice as large as the most that was ever in it plus the reserve. */
  lemma EventBounded(r: Reader, net: Inbound, d: Dispatcher, how: Strategy)
    requires Lawful(d) && Bounded(r)
    ensures Bounded(ReadEvent(r, net, d, how).r) && ReadEvent(r, net, d, how).r.reserve == r.reserve
    ensures forall h :: h in Heads(r, net, d, how) ==> MayRead(h)
  {
    if how.ReadFirst? {
      ReadAllBounded(r, net);
    } else {
      FastDispatchBounded(r, net, d);
    }
  }

  /** A dispatcher that keeps the documented promise: a non-zero expected size is
      more than what has been received. */
  ghost predicate Polite(d: Dispatcher) {
    && Lawful(d)
    && forall k: nat, w: bytes, unseen: nat, size: nat {:trigger d(k, w, unseen, size)} ::
         w != [] && size <= |w| && d(k, w, unseen, size).verdict.ExpectMsgSize? ==>
           d(k, w, unseen, size).verdict.n == 0 || d(k, w, unseen, size).verdict.n > |w|
  }

  /** Line 1379's assertion. */
  predicate Expecting(r: Reader) { r.size == 0 || r.size > |r.window| }

  /** It holds again after each dispatch. */
  lemma {:induction false} DispatchExpectsMore(w: bytes, unseen: nat, size: nat, calls: nat, d: Dispatcher)
    requires Polite(d)
    ensures var r := DispatchAll(w, unseen, size, calls, d); r.size == 0 || r.size > |r.window|
    decreases |w|
  {
    if w != [] && (size == 0 || size <= |w|) {
      var reply := d(calls, w, unseen, size);
      if reply.verdict.DropMsgSize? {
        DispatchExpectsMore(reply.slice[reply.verdict.n..], |w| - reply.verdict.n, 0, calls + 1, d);
      }
    }
  }

  lemma {:induction false} FastDispatchExpects(r: Reader, net: Inbound, d: Dispatcher)
    requires Polite(d) && Expecting(r) && |r.window| <= r.cap
    ensures Expecting(FastDispatch(r, net, d).r)
    ensures forall h :: h in FastDispatchHeads(r, net, d) ==> Expecting(h)
    decreases |net.script|
  {
    assert Lawful(d);
    hide Polite, Lawful, SockRead, DispatchAll;
    var g := Grow(r);
    var x := SockRead(net, g.cap - |g.window|);
    if x.step.Deliver? && x.step.n > 0 {
      var got := Append(g, x.chunk);
      DispatchExpectsMore(got.window, x.step.n, got.size, got.calls, d);
      var (after, ok) := Dispatch(got, x.step.n, d);
      if ok && |got.window| == got.cap {
        FastDispatchExpects(after, x.net, d);
      }
    }
  }

  lemma EventExpects(r: Reader, net: Inbound, d: Dispatcher, how: Strategy)
    requires Polite(d) && Expecting(r) && |r.window| <= r.cap
    ensures Expecting(ReadEvent(r, net, d, how).r)
    ensures how.DispatchFirst? ==> forall h :: h in Heads(r, net, d, how) ==> Expecting(h)
  {
    if how.ReadFirst? {
      var x := ReadAll(r, net);
      DispatchExpectsMore(x.r.window, |x.r.window| - |r.window|, x.r.size, x.r.calls, d);
    } else {
      FastDispatchExpects(r, net, d);
    }
  }

  // --------------------------------------------------------------- whole runs

  /** A readable event: what the peer has sent since the last one, how the socket
      answers the reads, and which strategy the reactor chooses. */
  datatype Event = Event(arrived: bytes, script: seq<ReadStep>, how: Strategy)

  datatype Session = Session(r: Reader, inbox: bytes)

  function RunEvents(s: Session, events: seq<Event>, d: Dispatcher): Session
    requires Lawful(d) && |s.r.window| <= s.r.cap
    decreases |events|
  {
    if events == [] then s
    else
      var e := events[0];
      var x := ReadEvent(s.r, Inbound(e.script, s.inbox + e.arrived), d, e.how);
      RunEvents(Session(x.r, x.net.inbox), events[1..], d)
  }

  /** In every state of the run in which the reader is about to read, it may. */
  ghost predicate EachReadHasRoom(s: Session, events: seq<Event>, d: Dispatcher)
    requires Lawful(d) && |s.r.window| <= s.r.cap
    decreases |events|
  {
    events != [] ==>
      var e := events[0];
      var net := Inbound(e.script, s.inbox + e.arrived);
      var x := ReadEvent(s.r, net, d, e.how);
      && (forall h :: h in Heads(s.r, net, d, e.how) ==> MayRead(h))
      && EachReadHasRoom(Session(x.r, x.net.inbox), events[1..], d)
  }

  /** Line 1379's assertion holds whenever the run comes to it. */
  ghost predicate EachAssertHolds(s: Session, events: seq<Event>, d: Dispatcher)
    requires Lawful(d) && |s.r.window| <= s.r.cap
    decreases |events|
  {
    events != [] ==>
      var e := events[0];
      var net := Inbound(e.script, s.inbox + e.arrived);
      var x := ReadEvent(s.r, net, d, e.how);
      && (e.how.DispatchFirst? ==> forall h :: h in Heads(s.r, net, d, e.how) ==> Expecting(h))
      && EachAssertHolds(Session(x.r, x.net.inbox), events[1..], d)
  }

  /** With any lawful dispatcher, over any run: the buffer is never too large, and
      every read has room for the reserve. */
  lemma {:induction false} RunIsBounded(s: Session, events: seq<Event>, d: Dispatcher)
    requires Lawful(d) && Bounded(s.r)
    ensures EachReadHasRoom(s, events, d) && Bounded(RunEvents(s, events, d).r)
    ensures RunEvents(s, events, d).r.reserve == s.r.reserve
    decreases |events|
  {
    assert |s.r.window| <= s.r.cap;
    if events != [] {
      hide ReadEvent, Heads, MayRead, Bounded, Lawful;
      var e := events[0];
      var net := Inbound(e.script, s.inbox + e.arrived);
      EventBounded(s.r, net, d, e.how);
      var x := ReadEvent(s.r, net, d, e.how);
      RunIsBounded(Session(x.r, x.net.inbox), events[1..], d);
    }
  }

  /** With any polite dispatcher, over any run: line 1379's assertion never fails. */
  lemma {:induction false} RunKeepsExpecting(s: Session, events: seq<Event>, d: Dispatcher)
    requires Polite(d) && Expecting(s.r) && |s.r.window| <= s.r.cap
    ensures EachAssertHolds(s, events, d) && Expecting(RunEvents(s, events, d).r)
    decreases |events|
  {
    if events != [] {
      assert Lawful(d);
      hide ReadEvent, Heads, Expecting, Lawful, Polite;
      var e := events[0];
      var net := Inbound(e.script, s.inbox + e.arrived);
      EventExpects(s.r, net, d, e.how);
      var x := ReadEvent(s.r, net, d, e.how);
      RunKeepsExpecting(Session(x.r, x.net.inbox), events[1..], d);
    }
  }

  /** In particular for a new reader, with any reserve. */
  lemma EveryReadIsSafe(reserve: nat, events: seq<Event>, d: Dispatcher)
    requires Lawful(d)
    ensures EachReadHasRoom(Session(NewReader(reserve), []), events, d)
    ensures Polite(d) ==> EachAssertHolds(Session(NewReader(reserve), []), events, d)
  {
    hide Lawful, Polite, EachReadHasRoom, EachAssertHolds, RunEvents;
    RunIsBounded(Session(NewReader(reserve), []), events, d);
    if Polite(d) {
      RunKeepsExpecting(Session(NewReader(reserve), []), events, d);
    }
  }

  function Arrived(events: seq<Event>): bytes {
    if events == [] then [] else events[0].arrived + Arrived(events[1..])
  }

  lemma {:induction false} RunSyncs(f: Framing, d: Dispatcher, s: Session, events: seq<Event>, stream: bytes)
    returns (taken: bytes)
    requires Follows(d, f) && Bounded(s.r) && Synced(f, s.r, stream)
    ensures var x := RunEvents(s, events, d);
      Bounded(x.r) && Synced(f, x.r, stream + taken) && s.inbox + Arrived(events) == taken + x.inbox
    decreases |events|
  {
    assert Lawful(d) && |s.r.window| <= s.r.cap;
    hide Synced, Bounded, ReadEvent, Lawful, Follows;
    taken := [];
    NothingMore(stream);
    if events != [] {
      var e, rest := events[0], events[1..];
      var net := Inbound(e.script, s.inbox + e.arrived);
      var x := ReadEvent(s.r, net, d, e.how);
      EventBounded(s.r, net, d, e.how);
      var first := EventSyncs(f, d, s.r, net, stream, e.how);
      var next := Session(x.r, x.net.inbox);
      var more := RunSyncs(f, d, next, rest, stream + first);
      taken := first + more;
      Regroup(stream, first, more);
      Regroup(s.inbox, e.arrived, Arrived(rest));
      Regroup(first, x.net.inbox, Arrived(rest));
      Regroup(first, more, RunEvents(next, rest, d).inbox);
    } else {
      NothingMore(s.inbox);
    }
  }

  /** However the stream is split into arrivals and reads, and whichever strategy
      each event uses: the messages dispatched and the bytes left in the buffer
      are those of parsing at once what has been read. */
  lemma ChunkingInvariance(f: Framing, d: Dispatcher, reserve: nat, events: seq<Event>)
    requires Follows(d, f)
    ensures var x := RunEvents(Session(NewReader(reserve), []), events, d);
      && |x.inbox| <= |Arrived(events)|
      && var read := Arrived(events)[..|Arrived(events)| - |x.inbox|];
         && Arrived(events) == read + x.inbox
         && x.r.log == Parse(f, read).msgs
         && x.r.window == Parse(f, read).rest
         && Bounded(x.r)
  {
    var taken := RunSyncs(f, d, Session(NewReader(reserve), []), events, []);
    var x := RunEvents(Session(NewReader(reserve), []), events, d);
    assert [] + taken == taken && [] + Arrived(events) == Arrived(events);
    assert Arrived(events)[..|Arrived(events)| - |x.inbox|] == taken;
  }

  /** Two readers with the same framing that have read as much of the same stream
      are in the same state as far as their messages and bytes go. They may differ
      in reserve, dispatcher, arrivals, reads and strategies. */
  lemma StrategiesAgree(f: Framing, d1: Dispatcher, d2: Dispatcher, n1: nat, n2: nat, e1: seq<Event>, e2: seq<Event>)
    requires Follows(d1, f) && Follows(d2, f)
    requires Arrived(e1) == Arrived(e2)
    requires var x, y := RunEvents(Session(NewReader(n1), []), e1, d1), RunEvents(Session(NewReader(n2), []), e2, d2);
      |x.inbox| == |y.inbox|
    ensures var x, y := RunEvents(Session(NewReader(n1), []), e1, d1), RunEvents(Session(NewReader(n2), []), e2, d2);
      x.r.log == y.r.log && x.r.window == y.r.window
  {
    ChunkingInvariance(f, d1, n1, e1);
    ChunkingInvariance(f, d2, n2, e2);
  }
}
