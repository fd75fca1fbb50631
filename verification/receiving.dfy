/** What MsgReader of src/reactor.rs does, on the bytes between `startpos` and
    `bufsize`. The class in msg_reader.dfy is proved to do this. */
module Receiving {
  import opened Sending

  // ---------------------------------------------------------------- dispatcher

  /** MessageResult, or an error that closes the socket. */
  datatype Verdict = ExpectMsgSize(n: nat) | DropMsgSize(n: nat) | Refuse

  /** A verdict and the slice as the dispatcher leaves it: it may write to it. */
  datatype Reply = Reply(verdict: Verdict, slice: bytes)

  /** Called with the unprocessed bytes, how many of them are new, and the message
      size decoded before (0 when unknown). It may keep state of its own between
      calls, so its first argument is the number of calls before this one. */
  type Dispatcher = (nat, bytes, nat, nat) -> Reply

  /** What the source demands of a dispatcher, whenever it has received as much as
      was expected: a slice keeps its length, and line 1513 asserts that the
      dropped size is positive and within the slice. */
  ghost predicate Lawful(d: Dispatcher) {
    forall k: nat, w: bytes, unseen: nat, size: nat {:trigger d(k, w, unseen, size)} ::
      w != [] && size <= |w| ==>
        && |d(k, w, unseen, size).slice| == |w|
        && (d(k, w, unseen, size).verdict.DropMsgSize? ==> 0 < d(k, w, unseen, size).verdict.n <= |w|)
  }

  /** What the dispatcher may answer. */
  lemma LawfulReply(d: Dispatcher, calls: nat, w: bytes, unseen: nat, size: nat)
    requires Lawful(d) && w != [] && size <= |w|
    ensures var reply := d(calls, w, unseen, size);
      |reply.slice| == |w| && (reply.verdict.DropMsgSize? ==> 0 < reply.verdict.n <= |w|)
  {}

  /** `size` is the decoded message size that is carried to the next call, which
      is number `calls`. */
  datatype Dispatched = Dispatched(window: bytes, size: nat, msgs: seq<bytes>, calls: nat, ok: bool)

  /** try_dispatch_all: the messages it drops, as the dispatcher was shown them,
      and what is left. An error clears the buffer. */
  function DispatchAll(w: bytes, unseen: nat, size: nat, calls: nat, d: Dispatcher): (r: Dispatched)
    requires Lawful(d)
    ensures |r.window| <= |w|
    decreases |w|
  {
    if w != [] && (size == 0 || size <= |w|) then
      var reply := d(calls, w, unseen, size);
      match reply.verdict
      case ExpectMsgSize(n) => Dispatched(reply.slice, n, [], calls + 1, true)
      case DropMsgSize(n) =>
        var rest := DispatchAll(reply.slice[n..], |w| - n, 0, calls + 1, d);
        rest.(msgs := [w[..n]] + rest.msgs)
      case Refuse => Dispatched([], 0, [], calls + 1, false)
    else Dispatched(w, size, [], calls, true)
  }

  // -------------------------------------------------------------------- reads

  /** How the socket answers one read. `Deliver(n)` yields at most `n` bytes. */
  datatype ReadStep = Deliver(n: nat) | NothingYet | ReadInterrupted | ReadFailed

  /** The answers still to come (NothingYet for ever after) and the bytes that
      the peer has sent and that have not been read. */
  datatype Inbound = Inbound(script: seq<ReadStep>, inbox: bytes)

  datatype GotBytes = GotBytes(net: Inbound, step: ReadStep, chunk: bytes)

  function Min(a: nat, b: nat): nat { if a < b then a else b }

  /** Reads into `room` bytes. `Deliver(0)` is end of stream. */
  function SockRead(net: Inbound, room: nat): (r: GotBytes)
    ensures net.inbox == r.chunk + r.net.inbox && |r.chunk| <= room
    ensures r.step.Deliver? ==> |r.chunk| == r.step.n && |r.net.script| < |net.script|
    ensures !r.step.Deliver? ==> r.chunk == []
  {
    if net.script == [] then GotBytes(net, NothingYet, [])
    else
      var rest := net.script[1..];
      match net.script[0]
      case Deliver(most) =>
        var n := Min(most, Min(room, |net.inbox|));
        GotBytes(Inbound(rest, net.inbox[n..]), Deliver(n), net.inbox[..n])
      case step => GotBytes(Inbound(rest, net.inbox), step, [])
  }

  /** `cap` is the size of the receive buffer and `peak` the most bytes that it
      has ever held; `log` are the messages dispatched so far, in `calls` calls. */
  datatype Reader = Reader(
    window: bytes,
    cap: nat,
    reserve: nat,
    size: nat,
    peak: nat,
    log: seq<bytes>,
    calls: nat
  )

  function NewReader(reserve: nat): Reader { Reader([], reserve, reserve, 0, 0, [], 0) }

  datatype ReadResult = Fine | PeerClosed | SockError | Refused

  datatype Reading = Reading(r: Reader, net: Inbound, result: ReadResult)

  /** Makes room for `reserve` more bytes, at least doubling the buffer. */
  function Grow(r: Reader): (g: Reader)
    ensures g.window == r.window && g.cap >= r.cap
  {
    if |r.window| + r.reserve > r.cap
    then r.(cap := if |r.window| + r.reserve > r.cap * 2 then |r.window| + r.reserve else r.cap * 2)
    else r
  }

  function Append(r: Reader, chunk: bytes): (g: Reader)
    ensures g.window == r.window + chunk && g.cap == r.cap
  {
    var w := r.window + chunk;
    r.(window := w, peak := if |w| > r.peak then |w| else r.peak)
  }

  function Dispatch(r: Reader, unseen: nat, d: Dispatcher): (x: (Reader, bool))
    requires Lawful(d)
    ensures |x.0.window| <= |r.window| && x.0.cap == r.cap
  {
    var x := DispatchAll(r.window, unseen, r.size, r.calls, d);
    (r.(window := x.window, size := x.size, log := r.log + x.msgs, calls := x.calls), x.ok)
  }

  /** The errors of a failed read: interruption is not one. */
  function Failed(step: ReadStep): ReadResult {
    if step.ReadFailed? then SockError else Fine
  }

  /** try_read_all: reads until a read leaves room in the buffer. */
  function ReadAll(r: Reader, net: Inbound): (x: Reading)
    requires |r.window| <= r.cap
    ensures |r.window| <= |x.r.window| <= x.r.cap
    decreases |net.script|
  {
    var g := Grow(r);
    var x := SockRead(net, g.cap - |g.window|);
    match x.step
    case Deliver(n) =>
      var got := Append(g, x.chunk);
      if n == 0 then Reading(g, x.net, PeerClosed)
      else if |got.window| < got.cap then Reading(got, x.net, Fine)
      else ReadAll(got, x.net)
    case step => Reading(g, x.net, Failed(step))
  }

  /** try_read_fast_read: read everything, then dispatch. */
  function FastRead(r: Reader, net: Inbound, d: Dispatcher): (x: Reading)
    requires Lawful(d) && |r.window| <= r.cap
    ensures |x.r.window| <= x.r.cap
  {
    var x := ReadAll(r, net);
    var (got, ok) := Dispatch(x.r, |x.r.window| - |r.window|, d);
    Reading(got, x.net, if x.result != Fine then x.result else if ok then Fine else Refused)
  }

  /** try_read_fast_dispatch: dispatch after each read. */
  function FastDispatch(r: Reader, net: Inbound, d: Dispatcher): (x: Reading)
    requires Lawful(d) && |r.window| <= r.cap
    ensures |x.r.window| <= x.r.cap
    decreases |net.script|
  {
    var g := Grow(r);
    var x := SockRead(net, g.cap - |g.window|);
    match x.step
    case Deliver(n) =>
      if n == 0 then Reading(g, x.net, PeerClosed)
      else
        var got := Append(g, x.chunk);
        var (after, ok) := Dispatch(got, n, d);
        if !ok then Reading(after, x.net, Refused)
        else if |got.window| < got.cap then Reading(after, x.net, Fine)
        else FastDispatch(after, x.net, d)
    case step => Reading(g, x.net, Failed(step))
  }

  /** The reader at the head of the loop of try_read_all, turn by turn: in each of
      these states it is about to read. */
  function ReadAllHeads(r: Reader, net: Inbound): seq<Reader>
    requires |r.window| <= r.cap
    decreases |net.script|
  {
    var g := Grow(r);
    var x := SockRead(net, g.cap - |g.window|);
    var got := Append(g, x.chunk);
    [r] + (if x.step.Deliver? && x.step.n > 0 && |got.window| == got.cap then ReadAllHeads(got, x.net) else [])
  }

  /** The same for try_read_fast_dispatch; line 1379 makes its assertion in each. */
  function FastDispatchHeads(r: Reader, net: Inbound, d: Dispatcher): seq<Reader>
    requires Lawful(d) && |r.window| <= r.cap
    decreases |net.script|
  {
    var g := Grow(r);
    var x := SockRead(net, g.cap - |g.window|);
    if x.step.Deliver? && x.step.n > 0 then
      var got := Append(g, x.chunk);
      var (after, ok) := Dispatch(got, x.step.n, d);
      [r] + (if ok && |got.window| == got.cap then FastDispatchHeads(after, x.net, d) else [])
    else [r]
  }

  /** One turn of the loop of try_dispatch_all. */
  lemma DispatchUnfolds(w: bytes, unseen: nat, size: nat, calls: nat, d: Dispatcher)
    requires Lawful(d)
    ensures var r := DispatchAll(w, unseen, size, calls, d);
      if w != [] && (size == 0 || size <= |w|) then
        var reply := d(calls, w, unseen, size);
        && |reply.slice| == |w|
        && match reply.verdict
           case ExpectMsgSize(n) => r == Dispatched(reply.slice, n, [], calls + 1, true)
           case DropMsgSize(n) =>
             && 0 < n <= |w|
             && var rest := DispatchAll(reply.slice[n..], |w| - n, 0, calls + 1, d);
                r == rest.(msgs := [w[..n]] + rest.msgs)
           case Refuse => r == Dispatched([], 0, [], calls + 1, false)
      else r == Dispatched(w, size, [], calls, true)
  {}

  /** One turn of the loop of try_read_all. */
  lemma ReadAllUnfolds(r: Reader, net: Inbound)
    requires |r.window| <= r.cap
    ensures var g := Grow(r); var x := SockRead(net, g.cap - |g.window|); var got := Append(g, x.chunk);
      if x.step.Deliver? && x.step.n > 0 && |got.window| == got.cap then
        ReadAll(r, net) == ReadAll(got, x.net) && ReadAllHeads(r, net) == [r] + ReadAllHeads(got, x.net)
      else
        && ReadAllHeads(r, net) == [r]
        && (x.step == Deliver(0) ==> ReadAll(r, net) == Reading(g, x.net, PeerClosed))
        && (x.step.Deliver? && x.step.n > 0 ==> ReadAll(r, net) == Reading(got, x.net, Fine))
        && (!x.step.Deliver? ==> ReadAll(r, net) == Reading(g, x.net, Failed(x.step)))
  {}

  /** One turn of the loop of try_read_fast_dispatch, and what the method returns
      if it is the last one. */
  function FastTurn(r: Reader, net: Inbound, d: Dispatcher): (x: Reading)
    requires Lawful(d) && |r.window| <= r.cap
    ensures |x.r.window| <= x.r.cap
  {
    var g := Grow(r);
    var x := SockRead(net, g.cap - |g.window|);
    if x.step.Deliver? && x.step.n > 0 then
      var (after, ok) := Dispatch(Append(g, x.chunk), x.step.n, d);
      Reading(after, x.net, if ok then Fine else Refused)
    else Reading(g, x.net, if x.step == Deliver(0) then PeerClosed else Failed(x.step))
  }

  /** Another turn follows when the read has filled the buffer. */
  predicate TurnsAgain(r: Reader, net: Inbound, d: Dispatcher)
    requires Lawful(d) && |r.window| <= r.cap
  {
    var g := Grow(r);
    var x := SockRead(net, g.cap - |g.window|);
    && x.step.Deliver? && x.step.n > 0 && |g.window + x.chunk| == g.cap
    && Dispatch(Append(g, x.chunk), x.step.n, d).1
  }

  lemma FastDispatchUnfolds(r: Reader, net: Inbound, d: Dispatcher)
    requires Lawful(d) && |r.window| <= r.cap
    ensures var x := FastTurn(r, net, d);
      if TurnsAgain(r, net, d) then
        && |x.net.script| < |net.script|
        && FastDispatch(r, net, d) == FastDispatch(x.r, x.net, d)
        && FastDispatchHeads(r, net, d) == [r] + FastDispatchHeads(x.r, x.net, d)
      else FastDispatch(r, net, d) == x && FastDispatchHeads(r, net, d) == [r]
  {
    hide Lawful;
  }

  // ------------------------------------------------------------------- a codec

  /** How a byte string starts: with a whole message of `n` bytes, or not, and
      then not before there are `n` bytes (0 when that is not known yet). */
  datatype Frame = Whole(n: nat) | Need(n: nat)

  type Framing = bytes -> Frame

  /** A prefix-stable framing: more bytes change neither a whole message nor the
      promise that there is none before `n` bytes. */
  ghost predicate Stable(f: Framing) {
    && (forall s: bytes {:trigger f(s)} ::
          (f(s).Whole? ==> 0 < f(s).n <= |s|) && (f(s).Need? ==> f(s).n == 0 || f(s).n > |s|))
    && (forall s: bytes, t: bytes {:trigger f(s + t)} ::
          && (f(s).Whole? ==> f(s + t) == f(s))
          && (f(s).Need? && |s + t| < f(s).n ==> f(s + t).Need?))
  }

  /** The size carried from an earlier call is one that the framing gave for a
      part of these bytes. */
  ghost predicate Hint(f: Framing, w: bytes, size: nat) {
    size == 0 || exists k :: 0 <= k <= |w| && f(w[..k]) == Need(size)
  }

  function VerdictOf(frame: Frame): Verdict {
    match frame
    case Whole(n) => DropMsgSize(n)
    case Need(n) => ExpectMsgSize(n)
  }

  /** The dispatcher decides as the framing says and writes only to the message
      that it is about to drop. It never refuses. */
  ghost predicate Follows(d: Dispatcher, f: Framing) {
    && Stable(f)
    && Lawful(d)
    && forall k: nat, w: bytes, unseen: nat, size: nat {:trigger d(k, w, unseen, size)} ::
         w != [] && size <= |w| && Hint(f, w, size) ==>
           && d(k, w, unseen, size).verdict == VerdictOf(f(w))
           && (f(w).Whole? ==> d(k, w, unseen, size).slice[f(w).n..] == w[f(w).n..])
           && (f(w).Need? ==> d(k, w, unseen, size).slice == w)
  }

  datatype Parsed = Parsed(msgs: seq<bytes>, rest: bytes)

  /** Parsing a whole stream at once. */
  function Parse(f: Framing, s: bytes): (p: Parsed)
    ensures |p.rest| <= |s|
    decreases |s|
  {
    if s != [] && f(s).Whole? && 0 < f(s).n <= |s| then
      var p := Parse(f, s[f(s).n..]);
      p.(msgs := [s[..f(s).n]] + p.msgs)
    else Parsed([], s)
  }

  // -------------------------------------------------------------------- runs

  datatype Strategy = ReadFirst | DispatchFirst

  function ReadEvent(r: Reader, net: Inbound, d: Dispatcher, how: Strategy): (x: Reading)
    requires Lawful(d) && |r.window| <= r.cap
    ensures |x.r.window| <= x.r.cap
  {
    match how
    case ReadFirst => FastRead(r, net, d)
    case DispatchFirst => FastDispatch(r, net, d)
  }
}
