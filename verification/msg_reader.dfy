/** MsgReader of src/reactor.rs, proved to do what module Receiving says. */
module MsgReaders {
  import opened Sending
  import opened Receiving

  /** A connected, non-blocking socket, seen from its reading side. */
  class InSocket {
    var script: seq<ReadStep>
    var inbox: bytes

    ghost function View(): Inbound
      reads this
    {
      Inbound(script, inbox)
    }

    constructor (script: seq<ReadStep>, inbox: bytes)
      ensures View() == Inbound(script, inbox)
    {
      this.script, this.inbox := script, inbox;
    }

    method Read(room: nat) returns (step: ReadStep, chunk: bytes)
      modifies this
      ensures GotBytes(View(), step, chunk) == SockRead(old(View()), room)
    {
      if script == [] {
        return NothingYet, [];
      }
      step, chunk := script[0], [];
      script := script[1..];
      if step.Deliver? {
        var n := Min(step.n, Min(room, |inbox|));
        step, chunk := Deliver(n), inbox[..n];
        inbox := inbox[n..];
      }
    }
  }

  /** The state after one turn of the loop of try_dispatch_all. */
  ghost function Turn(r: Reader, unseen: nat, d: Dispatcher): Reader
    requires Lawful(d) && MayTurn(r)
  {
    var reply := d(r.calls, r.window, unseen, r.size);
    var called := r.(calls := r.calls + 1);
    match reply.verdict
    case ExpectMsgSize(n) => called.(window := reply.slice, size := n)
    case DropMsgSize(n) => called.(window := reply.slice[n..], size := 0, log := r.log + [r.window[..n]])
    case Refuse => called.(window := [], size := 0)
  }

  ghost predicate MayTurn(r: Reader) { r.window != [] && (r.size == 0 || r.size <= |r.window|) }

  lemma TurnDispatches(r: Reader, unseen: nat, d: Dispatcher)
    requires Lawful(d)
    ensures !MayTurn(r) ==> Dispatch(r, unseen, d) == (r, true)
    ensures MayTurn(r) ==>
      var next := Turn(r, unseen, d);
      match d(r.calls, r.window, unseen, r.size).verdict
      case ExpectMsgSize(_) => Dispatch(r, unseen, d) == (next, true)
      case DropMsgSize(_) => Dispatch(r, unseen, d) == Dispatch(next, |next.window|, d)
      case Refuse => Dispatch(r, unseen, d) == (next, false)
  {
    assert r.log + [] == r.log;
    if MayTurn(r) && d(r.calls, r.window, unseen, r.size).verdict.DropMsgSize? {
      var reply := d(r.calls, r.window, unseen, r.size);
      var n := reply.verdict.n;
      var rest := DispatchAll(reply.slice[n..], |r.window| - n, 0, r.calls + 1, d).msgs;
      assert (r.log + [r.window[..n]]) + rest == r.log + ([r.window[..n]] + rest);
    }
  }

  class MsgReader {
    var recvBuffer: bytes
    const minReserve: nat
    var startpos: nat
    var bufsize: nat
    var decodedMsgsize: nat
    var calls: nat // of dispatchers so far; it stands for the state that a dispatcher keeps
    ghost var peak: nat // the largest value of bufsize so far
    ghost var log: seq<bytes> // the messages dispatched so far
    ghost var heads: seq<Reader> // its states at the heads of the read loops

    /** Between calls, dispatched messages have been moved out of the buffer. */
    ghost predicate Valid()
      reads this
    {
      startpos == 0 && bufsize <= |recvBuffer|
    }

    ghost function View(): Reader
      requires startpos <= bufsize <= |recvBuffer|
      reads this
    {
      Reader(recvBuffer[startpos..bufsize], |recvBuffer|, minReserve, decodedMsgsize, peak, log, calls)
    }

    constructor (minReservedBytes: nat)
      ensures Valid() && View() == NewReader(minReservedBytes)
    {
      recvBuffer := seq(minReservedBytes, i => 0);
      minReserve := minReservedBytes;
      startpos, bufsize, decodedMsgsize := 0, 0, 0;
      calls, peak, log, heads := 0, 0, [], [];
    }

    method BytesInBuffer() returns (n: nat)
      requires Valid()
      ensures n == |View().window|
    {
      n := bufsize - startpos;
    }

    method Clear()
      modifies this`decodedMsgsize, this`startpos, this`bufsize
      ensures startpos == 0 && bufsize == 0 && decodedMsgsize == 0
    {
      decodedMsgsize, startpos, bufsize := 0, 0, 0;
    }

    /** `resize` with zeroes, to make room for the next read. */
    method GrowBuffer()
      requires Valid()
      modifies this`recvBuffer
      ensures Valid() && View() == Grow(old(View()))
      ensures minReserve > 0 ==> bufsize < |recvBuffer|
    {
      if bufsize + minReserve > |recvBuffer| {
        var need, twice := bufsize + minReserve, |recvBuffer| * 2;
        var size := if need > twice then need else twice;
        recvBuffer := recvBuffer + seq(size - |recvBuffer|, i => 0);
      }
    }

    /** What a read leaves in the buffer from `bufsize` on. */
    method Store(chunk: bytes)
      requires Valid() && bufsize + |chunk| <= |recvBuffer|
      modifies this`recvBuffer, this`bufsize, this`peak
      ensures Valid() && View() == Append(old(View()), chunk)
    {
      recvBuffer := recvBuffer[..bufsize] + chunk + recvBuffer[bufsize + |chunk|..];
      bufsize := bufsize + |chunk|;
      peak := if bufsize > peak then bufsize else peak;
    }

    method TryReadAll(sock: InSocket) returns (result: ReadResult)
      requires Valid()
      modifies this, sock
      ensures Valid()
      ensures Reading(View(), sock.View(), result) == ReadAll(old(View()), old(sock.View()))
      ensures heads == old(heads) + ReadAllHeads(old(View()), old(sock.View()))
    {
      hide ReadAll, ReadAllHeads, Grow, Append, SockRead;
      ghost var r, net := View(), sock.View();
      while true
        invariant Valid()
        invariant ReadAll(View(), sock.View()) == ReadAll(r, net)
        invariant heads + ReadAllHeads(View(), sock.View()) == old(heads) + ReadAllHeads(r, net)
        decreases |sock.script|
      {
        ReadAllUnfolds(View(), sock.View());
        heads := heads + [View()];
        GrowBuffer();
        var step, chunk := sock.Read(|recvBuffer| - bufsize);
        match step {
          case Deliver(n) =>
            if n == 0 {
              return PeerClosed;
            }
            Store(chunk);
            if bufsize < |recvBuffer| {
              return Fine;
            }
          case NothingYet => return Fine;
          case ReadInterrupted => return Fine;
          case ReadFailed => return SockError;
        }
      }
    }

    /** One turn of the loop of try_dispatch_all. */
    method CallDispatcher(unseen: nat, d: Dispatcher) returns (verdict: Verdict)
      requires startpos <= bufsize <= |recvBuffer| && Lawful(d) && MayTurn(View())
      modifies this
      ensures startpos <= bufsize <= |recvBuffer|
      ensures verdict == d(old(calls), old(View()).window, unseen, old(decodedMsgsize)).verdict
      ensures View() == Turn(old(View()), unseen, d)
      ensures verdict.DropMsgSize? ==> bufsize - startpos < old(bufsize - startpos)
      ensures verdict.Refuse? ==> startpos == 0
      ensures heads == old(heads)
    {
      LawfulReply(d, calls, View().window, unseen, decodedMsgsize);
      hide Lawful;
      ghost var window := recvBuffer[startpos..bufsize];
      var reply := d(calls, recvBuffer[startpos..bufsize], unseen, decodedMsgsize);
      calls := calls + 1;
      recvBuffer := recvBuffer[..startpos] + reply.slice + recvBuffer[bufsize..];
      assert recvBuffer[startpos..bufsize] == reply.slice;
      match reply.verdict {
        case Refuse =>
          Clear();
          assert View().window == [];
        case ExpectMsgSize(n) =>
          decodedMsgsize := n;
        case DropMsgSize(n) =>
          startpos := startpos + n;
          decodedMsgsize := 0;
          assert recvBuffer[startpos..bufsize] == reply.slice[n..];
          log := log + [window[..n]];
      }
      verdict := reply.verdict;
    }

    method TryDispatchAll(newBytes: nat, d: Dispatcher) returns (ok: bool)
      requires Valid() && Lawful(d)
      modifies this
      ensures Valid()
      ensures (View(), ok) == Dispatch(old(View()), newBytes, d) && heads == old(heads)
    {
      var unseen: nat := newBytes;
      hide Dispatch, Turn, Lawful;
      while startpos < bufsize && (decodedMsgsize == 0 || startpos + decodedMsgsize <= bufsize)
        invariant startpos <= bufsize <= |recvBuffer|
        invariant Dispatch(View(), unseen, d) == Dispatch(old(View()), newBytes, d) && heads == old(heads)
        decreases bufsize - startpos
      {
        TurnDispatches(View(), unseen, d);
        var verdict := CallDispatcher(unseen, d);
        match verdict {
          case Refuse =>
            return false;
          case ExpectMsgSize(_) =>
            MoveFront();
            return true;
          case DropMsgSize(_) =>
            unseen := bufsize - startpos;
        }
      }
      TurnDispatches(View(), unseen, d);
      MoveFront();
      ok := true;
    }

    /** The end of try_dispatch_all: the rest of the buffer moves to its front. */
    method MoveFront()
      requires startpos <= bufsize <= |recvBuffer|
      modifies this`recvBuffer, this`startpos, this`bufsize
      ensures Valid() && View() == old(View())
    {
      if startpos != 0 {
        ghost var window := recvBuffer[startpos..bufsize];
        recvBuffer := recvBuffer[startpos..bufsize] + recvBuffer[bufsize - startpos..]; // copy_within
        bufsize := bufsize - startpos;
        startpos := 0;
        assert recvBuffer[startpos..bufsize] == window;
      }
    }

    /** Strategy 1: dispatch on each read. */
    method TryReadFastDispatch(sock: InSocket, d: Dispatcher) returns (result: ReadResult)
      requires Valid() && Lawful(d)
      modifies this, sock
      ensures Valid()
      ensures Reading(View(), sock.View(), result) == FastDispatch(old(View()), old(sock.View()), d)
      ensures heads == old(heads) + FastDispatchHeads(old(View()), old(sock.View()), d)
    {
      hide FastDispatch, FastDispatchHeads, Grow, Append, SockRead, Dispatch, Lawful;
      ghost var r, net := View(), sock.View();
      while true
        invariant Valid()
        invariant FastDispatch(View(), sock.View(), d) == FastDispatch(r, net, d)
        invariant heads + FastDispatchHeads(View(), sock.View(), d) == old(heads) + FastDispatchHeads(r, net, d)
        decreases |sock.script|
      {
        FastDispatchUnfolds(View(), sock.View(), d);
        heads := heads + [View()];
        GrowBuffer();
        var step, chunk := sock.Read(|recvBuffer| - bufsize);
        match step {
          case Deliver(n) =>
            if n == 0 {
              return PeerClosed;
            }
            Store(chunk);
            var shouldReturn := bufsize < |recvBuffer|;
            var ok := TryDispatchAll(n, d);
            if !ok {
              return Refused;
            }
            if shouldReturn {
              return Fine;
            }
          case NothingYet => return Fine;
          case ReadInterrupted => return Fine;
          case ReadFailed => return SockError;
        }
      }
    }

    /** Strategy 2: read everything, then dispatch. */
    method TryReadFastRead(sock: InSocket, d: Dispatcher) returns (result: ReadResult)
      requires Valid() && Lawful(d)
      modifies this, sock
      ensures Valid()
      ensures Reading(View(), sock.View(), result) == FastRead(old(View()), old(sock.View()), d)
      ensures heads == old(heads) + ReadAllHeads(old(View()), old(sock.View()))
    {
      hide ReadAll, ReadAllHeads, Dispatch, Lawful;
      var oldBytes := bufsize - startpos;
      var res := TryReadAll(sock);
      var ok := TryDispatchAll(bufsize - startpos - oldBytes, d);
      result := if res != Fine then res else if ok then Fine else Refused;
    }
  }
}
