/** MsgSender and AutoSendBuffer of src/reactor.rs, proved to do what module
    Sending says. The completions form a linked list threaded through a slab. */
module MsgSenders {
  import opened FlatStorages
  import opened Sending
  import SendingOutcomes

  const WORD: nat := 0x1_0000_0000_0000_0000

  /** A connected, non-blocking socket, seen from its writing side. */
  class Socket {
    var script: seq<WriteStep>
    var wire: bytes

    ghost function View(): Net
      reads this
    {
      Net(script, wire)
    }

    constructor (script: seq<WriteStep>)
      ensures View() == Net(script, [])
    {
      this.script, wire := script, [];
    }

    method Write(buf: bytes) returns (step: WriteStep)
      modifies this
      ensures Written(View(), step) == SockWrite(old(View()), buf)
    {
      if script == [] {
        return WouldBlock;
      }
      step := script[0];
      script := script[1..];
      if step.Accept? {
        var n := if step.n < |buf| then step.n else |buf|;
        wire := wire + buf[..n];
        step := Accept(n);
      }
    }
  }

  // --------------------------------------------------- the list of completions

  datatype PendingSend<C> = PendingSend(nextId: nat, startpos: nat, msgsize: nat, completion: C)

  type Pendings<C> = map<nat, PendingSend<C>>

  /** `startpos + msgsize`, in machine words. */
  function End<C>(p: PendingSend<C>): nat { (p.startpos + p.msgsize) % WORD }

  /** Lines 1210 and 1211: the part before `limit` is no longer to be sent. Both
      subtractions wrap. */
  function Trim<C>(p: PendingSend<C>, limit: nat): PendingSend<C> {
    p.(msgsize := (p.msgsize - (limit - p.startpos)) % WORD, startpos := limit)
  }

  /** Whether one of the subtractions underflows. */
  predicate Underflows<C>(p: PendingSend<C>, limit: nat) {
    limit < p.startpos || p.msgsize < limit - p.startpos
  }

  /** For a record that is not due, as line 1204 has found: it does exactly if its
      message starts beyond the limit. */
  lemma UnderflowsExactly<C>(p: PendingSend<C>, limit: nat)
    requires End(p) > limit
    ensures Underflows(p, limit) <==> p.startpos > limit
  {}

  /** `chain` spells out the `nextId` links. */
  ghost predicate Links<C>(m: Pendings<C>, chain: seq<nat>) {
    forall i :: 0 <= i < |chain| ==> chain[i] in m && m[chain[i]].nextId == At(chain, i + 1)
  }

  /** `chain` holds each key of `m` once and nothing else. */
  ghost predicate Covers<C>(m: Pendings<C>, chain: seq<nat>) {
    && Distinct(chain)
    && forall k :: k in m <==> k in chain
  }

  ghost predicate Chained<C>(m: Pendings<C>, chain: seq<nat>) {
    Links(m, chain) && Covers(m, chain)
  }

  ghost function EntryOf<C>(p: PendingSend<C>): Entry<C> { Entry(End(p), p.completion) }

  ghost function QueueOf<C>(m: Pendings<C>, chain: seq<nat>): (r: seq<Entry<C>>)
    requires Chained(m, chain)
    ensures |r| == |chain|
  {
    seq(|chain|, i requires 0 <= i < |chain| => EntryOf(m[chain[i]]))
  }

  ghost function StartsOf<C>(m: Pendings<C>, chain: seq<nat>): (r: seq<nat>)
    requires Chained(m, chain)
    ensures |r| == |chain|
  {
    seq(|chain|, i requires 0 <= i < |chain| => m[chain[i]].startpos)
  }

  ghost function Last(chain: seq<nat>): nat {
    if chain == [] then INVALID_ID else chain[|chain| - 1]
  }

  class MsgSender<C> {
    var buf: bytes
    const pending: FlatStorage<PendingSend<C>>
    var firstPendingId: nat
    var lastPendingId: nat
    var bytesSent: nat
    var closeOrError: bool
    ghost var chain: seq<nat> // the slots from firstPendingId to lastPendingId
    ghost var fired: seq<C> // the completions that have been called
    ghost var posts: Posts // the starts in the list, and whether line 1210 has underflowed

    ghost predicate Valid()
      reads this, pending
    {
      && pending.Valid()
      && Chained(pending.Contents(), chain)
      && posts.starts == StartsOf(pending.Contents(), chain)
      && firstPendingId == At(chain, 0)
      && lastPendingId == Last(chain)
      && bytesSent + |buf| < WORD
      && |pending.data| <= INVALID_ID
    }

    ghost function View(): Sender<C>
      requires Valid()
      reads this, pending
    {
      Sender(buf, QueueOf(pending.Contents(), chain), bytesSent, closeOrError, fired)
    }

    constructor ()
      ensures Valid() && fresh(pending) && pending.data == []
      ensures View() == NewSender() && posts == Posts([], false)
    {
      buf, bytesSent, closeOrError := [], 0, false;
      firstPendingId, lastPendingId := INVALID_ID, INVALID_ID;
      pending := new FlatStorage();
      chain, fired, posts := [], [], Posts([], false);
    }

    /** The counters and the slab can take `n` more bytes and one completion. */
    ghost predicate Room(n: nat)
      reads this, pending
    {
      bytesSent + |buf| + n < WORD && |pending.data| < INVALID_ID
    }

    method Call(done: C)
      modifies `fired
      ensures fired == old(fired) + [done]
    {
      fired := fired + [done];
    }

    /** try_send_all. */
    static method TrySendAll(sock: Socket, msg: bytes) returns (sent: nat, ok: bool)
      modifies sock
      ensures var t := Sending.TrySendAll(old(sock.View()), msg);
        sock.View() == t.net && ok == t.ok && (ok ==> sent == t.sent)
    {
      if msg == [] {
        return 0, true;
      }
      var rest := msg;
      sent := 0;
      ghost var start := sock.View();
      while true
        invariant rest != [] && sent <= |msg|
        invariant var t, u := Sending.TrySendAll(start, msg), Sending.TrySendAll(sock.View(), rest);
          t.net == u.net && t.ok == u.ok && t.sent == sent + u.sent
        decreases |sock.script|
      {
        var step := sock.Write(rest);
        match step {
          case Accept(n) =>
            if n < |rest| {
              rest := rest[n..];
              sent := sent + n;
            } else {
              return sent + n, true;
            }
          case WouldBlock => return sent, true;
          case _ => return 0, false;
        }
      }
    }

    method QueueMsgCompletion(queuedSize: nat, done: Option<C>)
      requires Valid() && queuedSize <= |buf| && |pending.data| < INVALID_ID
      modifies this`firstPendingId, this`lastPendingId, this`chain, this`posts, pending
      ensures Valid() && View() == Enqueue(old(View()), done)
      ensures posts == if done.Some?
        then old(posts).(starts := old(posts).starts + [bytesSent + |buf| - queuedSize])
        else old(posts)
      ensures |pending.data| <= old(|pending.data|) + 1
    {
      hide FlatStorage.Valid, FlatStorage.Contents, Chained, QueueOf, StartsOf;
      if done.Some? {
        var p := PendingSend(INVALID_ID, bytesSent + |buf| - queuedSize, queuedSize, done.value);
        assert EntryOf(p) == Entry(bytesSent + |buf|, done.value);
        hide EntryOf;
        AppendPending(p);
      }
    }

    /** Lines 1147 to 1161: the record is linked behind the last one. */
    method AppendPending(p: PendingSend<C>)
      requires Valid() && |pending.data| < INVALID_ID && p.nextId == INVALID_ID
      modifies this`firstPendingId, this`lastPendingId, this`chain, this`posts, pending
      ensures Valid() && |pending.data| <= old(|pending.data|) + 1
      ensures QueueOf(pending.Contents(), chain) == old(QueueOf(pending.Contents(), chain)) + [EntryOf(p)]
      ensures posts == old(posts).(starts := old(posts).starts + [p.startpos])
    {
      hide FlatStorage.Valid, FlatStorage.Contents, Chained, QueueOf, StartsOf, EntryOf;
      var prevId := lastPendingId;
      ghost var before := pending.Contents();
      ChainEnd(pending, chain);
      lastPendingId := pending.Add(p);
      ghost var added := pending.Contents();
      var prev := pending.Get(prevId);
      if prev.Some? {
        pending.Set(prevId, prev.value.(nextId := lastPendingId));
      }
      ChainAppends(before, chain, lastPendingId, p);
      assert prevId != lastPendingId && (prevId in added <==> prevId in before);
      assert pending.Contents() == LinkBehind(before, prevId, lastPendingId, p);
      chain := chain + [lastPendingId];
      posts := posts.(starts := posts.starts + [p.startpos]);
      if firstPendingId == INVALID_ID {
        firstPendingId := lastPendingId;
      }
    }

    method SendOrQue(sock: Socket, msg: bytes, done: Option<C>) returns (result: SendResult)
      requires Valid() && Room(|msg|)
      modifies this, pending, sock
      ensures Valid()
      ensures Sent(Link(View(), sock.View()), result)
        == Sending.SendOrQue(Link(old(View()), old(sock.View())), msg, done)
      ensures result == Error <==> SendingOutcomes.Fails(Link(old(View()), old(sock.View())), msg)
      ensures result == Error ==> View() == old(View())
      ensures posts == if result == InQueue && done.Some?
        then old(posts).(starts := old(posts).starts + [old(bytesSent + |buf|)])
        else old(posts)
      ensures |pending.data| <= old(|pending.data|) + 1
    {
      hide FlatStorage.Valid, FlatStorage.Contents, Chained, QueueOf, StartsOf;
      SendingOutcomes.FailedDirect(Link(View(), sock.View()), msg, done);
      hide SockWrite, Sending.TrySendAll, SendingOutcomes.Fails, SendingOutcomes.Passed;
      if msg == [] {
        if done.Some? {
          Call(done.value);
        }
        return Complete;
      }
      if buf != [] {
        buf := buf + msg;
        QueueMsgCompletion(|msg|, done);
        return InQueue;
      }
      var sent, ok := TrySendAll(sock, msg);
      if !ok {
        return Error;
      }
      if sent == |msg| {
        if done.Some? {
          Call(done.value);
        }
        return Complete;
      }
      buf := buf + msg[sent..];
      QueueMsgCompletion(|msg| - sent, done);
      result := InQueue;
    }

    method MoveBufFrontAfterSend(sent: nat) returns (result: SendResult)
      requires Valid() && sent <= |buf|
      modifies this`buf, this`bytesSent
      ensures Valid() && View() == MoveFront(old(View()), sent)
      ensures result == if buf == [] then Complete else InQueue
    {
      hide FlatStorage.Valid, FlatStorage.Contents, Chained, QueueOf, StartsOf;
      var len := |buf|;
      buf := buf[sent..] + buf[len - sent..]; // copy_within
      buf := buf[..len - sent];
      if buf == [] {
        bytesSent := 0;
        result := Complete;
      } else {
        bytesSent := bytesSent + sent;
        result := InQueue;
      }
    }

    /** send_queued. Only the comparison of line 1204 depends on the timing. */
    method SendQueued(sock: Socket, timing: Timing) returns (result: SendResult)
      requires Valid()
      modifies this, pending, sock
      ensures Valid()
      ensures Sent(Link(View(), sock.View()), result)
        == Sending.SendQueued(Link(old(View()), old(sock.View())), timing)
      ensures |old(posts).starts| == |old(View()).queue|
      ensures posts == PostsAfterWrite(Link(old(View()), old(sock.View())), old(posts), timing)
      ensures |pending.data| == old(|pending.data|)
    {
      hide FlatStorage.Valid, FlatStorage.Contents, Chained, QueueOf, StartsOf;
      if buf == [] {
        return Complete;
      }
      SendQueuedCases(Link(View(), sock.View()), timing);
      hide Sending.SendQueued, SockWrite, Settle, MoveFront, Limit, Due, Dones, TrimmedPosts;
      var step := sock.Write(buf);
      match step {
        case Accept(n) =>
          if n == 0 {
            closeOrError := true;
            return Error;
          }
          result := AfterWrite(n, timing);
        case WouldBlock => result := InQueue;
        case Interrupted => result := InQueue;
        case _ =>
          closeOrError := true;
          result := Error;
      }
    }

    /** Lines 1199 to 1228, after `n` bytes have been taken. */
    method AfterWrite(n: nat, timing: Timing) returns (result: SendResult)
      requires Valid() && 0 < n <= |buf|
      modifies this`firstPendingId, this`lastPendingId, this`chain, this`fired, this`posts, this`buf, this`bytesSent
      modifies pending
      ensures Valid() && |pending.data| == old(|pending.data|)
      ensures n <= |Settle(old(View()), Limit(old(View()), n, timing)).buf|
      ensures View() == MoveFront(Settle(old(View()), Limit(old(View()), n, timing)), n)
      ensures result == if buf == [] then Complete else InQueue
      ensures |old(posts).starts| == |old(View()).queue|
      ensures posts == TrimmedPosts(old(View()).queue, old(posts), Limit(old(View()), n, timing))
    {
      hide FlatStorage.Valid, FlatStorage.Contents, Chained, QueueOf, StartsOf;
      hide Settle, MoveFront, Due, Dones, TrimmedPosts;
      NotifySent(if timing.Intended? then bytesSent + n else bytesSent);
      result := MoveBufFrontAfterSend(n);
    }

    /** Lines 1199 to 1227: the completions whose messages end by `limit` leave the
        list, which may then be empty, and are called. */
    method NotifySent(limit: nat)
      requires Valid() && limit < WORD
      modifies this`firstPendingId, this`lastPendingId, this`chain, this`fired, this`posts, pending
      ensures Valid() && View() == Settle(old(View()), limit) && |pending.data| == old(|pending.data|)
      ensures |old(posts).starts| == |old(View()).queue|
      ensures posts == TrimmedPosts(old(View()).queue, old(posts), limit)
    {
      hide FlatStorage.Valid, FlatStorage.Contents, Chained, QueueOf, StartsOf, Due, Dones;
      NotifyAll(limit);
      ChainEnd(pending, chain);
      if firstPendingId == INVALID_ID {
        lastPendingId := INVALID_ID;
      }
    }

    /** The loop: it pops the longest due prefix of the list. */
    method NotifyAll(limit: nat)
      requires Valid'() && limit < WORD
      modifies this`firstPendingId, this`chain, this`fired, this`posts, pending
      ensures Valid'() && |pending.data| == old(|pending.data|)
      ensures |old(posts).starts| == |old(QueueOf(pending.Contents(), chain))|
      ensures posts == TrimmedPosts(old(QueueOf(pending.Contents(), chain)), old(posts), limit)
      ensures var queue := old(QueueOf(pending.Contents(), chain));
        && QueueOf(pending.Contents(), chain) == queue[Due(queue, limit)..]
        && fired == old(fired) + Dones(queue[..Due(queue, limit)])
    {
      hide FlatStorage.Valid, FlatStorage.Contents, Chained, QueueOf, StartsOf, Due, Dones, TrimmedPosts;
      ghost var queue := QueueOf(pending.Contents(), chain);
      ghost var k: nat := 0;
      NothingDone(queue);
      while firstPendingId != INVALID_ID
        invariant Valid'() && k <= |queue| && |pending.data| == old(|pending.data|)
        invariant QueueOf(pending.Contents(), chain) == queue[k..]
        invariant fired == old(fired) + Dones(queue[..k])
        invariant Due(queue, limit) == k + Due(queue[k..], limit)
        invariant |old(posts).starts| == |queue| && posts == old(posts).(starts := old(posts).starts[k..])
        decreases |queue| - k
      {
        ChainEnd(pending, chain);
        DueUnfolds(queue, k, limit);
        var more := NotifyFirst(limit, queue[k..]);
        if !more {
          break;
        }
        k := k + 1;
      }
      ChainEnd(pending, chain);
      DueUnfolds(queue, k, limit);
      PostsTrimmed(queue, old(posts), k, limit);
    }

    /** One turn of that loop. */
    method NotifyFirst(limit: nat, ghost queue: seq<Entry<C>>) returns (more: bool)
      requires Valid'() && limit < WORD && chain != [] && QueueOf(pending.Contents(), chain) == queue
      modifies this`firstPendingId, this`chain, this`fired, this`posts, pending
      ensures Valid'() && |pending.data| == old(|pending.data|)
      ensures |old(posts).starts| == |queue|
      ensures posts == if more
        then old(posts).(starts := old(posts).starts[1..])
        else Posts(old(posts).starts[0 := limit], old(posts).trapped || old(posts).starts[0] > limit)
      ensures queue != [] && (more <==> queue[0].end <= limit)
      ensures more ==> QueueOf(pending.Contents(), chain) == queue[1..] && fired == old(fired) + [queue[0].done]
      ensures !more ==> chain != [] && QueueOf(pending.Contents(), chain) == queue && fired == old(fired)
    {
      hide FlatStorage.Valid, FlatStorage.Contents, Chained, QueueOf, StartsOf;
      var id := firstPendingId;
      ghost var m := pending.Contents();
      ChainEnd(pending, chain);
      ChainHead(m, chain);
      var p := pending.Get(id);
      if p == None {
        assert false; // the source's panic
      }
      more := End(p.value) <= limit;
      if more {
        ChainPops(m, chain);
        firstPendingId := p.value.nextId;
        var removed := pending.Remove(id);
        chain := chain[1..];
        posts := posts.(starts := posts.starts[1..]);
        if removed.Some? {
          Call(removed.value.completion);
        }
      } else {
        ChainTrims(m, chain, limit);
        UnderflowsExactly(p.value, limit);
        posts := Posts(posts.starts[0 := limit], posts.trapped || Underflows(p.value, limit));
        pending.Set(id, Trim(p.value, limit));
      }
    }

    /** Valid, except that `lastPendingId` may be stale on an empty list. */
    ghost predicate Valid'()
      reads this, pending
    {
      && pending.Valid()
      && Chained(pending.Contents(), chain)
      && posts.starts == StartsOf(pending.Contents(), chain)
      && firstPendingId == At(chain, 0)
      && (chain != [] ==> lastPendingId == Last(chain))
      && bytesSent + |buf| < WORD
      && |pending.data| <= INVALID_ID
    }
  }

  /** Two-stage sending: bytes are written behind the sender's buffer first, and
      sent or queued later. */
  class AutoSendBuffer<C> {
    const sender: MsgSender<C>
    const sock: Socket
    var oldBufSize: nat

    ghost predicate Valid()
      reads this, sender, sender.pending
    {
      sender.Valid() && oldBufSize <= |sender.buf|
    }

    /** The sender without what is only staged, and the socket. */
    ghost function View(): Link<C>
      requires Valid()
      reads this, sender, sender.pending, sock
    {
      Link(sender.View().(buf := sender.buf[..oldBufSize]), sock.View())
    }

    ghost function Staged(): bytes
      requires Valid()
      reads this, sender, sender.pending
    {
      sender.buf[oldBufSize..]
    }

    /** acquire_send. */
    constructor (sender: MsgSender<C>, sock: Socket)
      requires sender.Valid()
      ensures this.sender == sender && this.sock == sock
      ensures Valid() && View() == Link(sender.View(), sock.View()) && Staged() == []
    {
      this.sender, this.sock, oldBufSize := sender, sock, |sender.buf|;
      new;
      assert sender.buf[..oldBufSize] == sender.buf;
    }

    method Write(chunk: bytes) returns (n: nat)
      requires Valid() && sender.bytesSent + |sender.buf| + |chunk| < WORD
      modifies sender`buf
      ensures Valid() && View() == old(View()) && Staged() == old(Staged()) + chunk
      ensures n == |chunk|
    {
      hide FlatStorage.Valid, FlatStorage.Contents, Chained, QueueOf, StartsOf;
      ghost var before := sender.buf;
      sender.buf := sender.buf + chunk;
      assert sender.buf[..oldBufSize] == before[..oldBufSize];
      n := |chunk|;
    }

    method Clear()
      requires Valid()
      modifies sender`buf
      ensures Valid() && View() == old(View()) && Staged() == []
    {
      hide FlatStorage.Valid, FlatStorage.Contents, Chained, QueueOf, StartsOf;
      sender.buf := sender.buf[..oldBufSize];
    }

    method GetWritten() returns (written: bytes, count: nat)
      requires Valid()
      ensures written == Staged() && count == |Staged()|
    {
      written, count := sender.buf[oldBufSize..], |sender.buf| - oldBufSize;
    }

    /** Everything in the buffer counts as sent or queued from now on. */
    method Commit()
      requires sender.Valid()
      modifies this`oldBufSize
      ensures Valid() && View() == Link(sender.View(), sock.View()) && Staged() == []
    {
      hide FlatStorage.Valid, FlatStorage.Contents, Chained, QueueOf, StartsOf;
      oldBufSize := |sender.buf|;
      assert sender.buf[..oldBufSize] == sender.buf;
    }

    method Send(done: Option<C>) returns (result: SendResult)
      requires Valid() && |sender.pending.data| < INVALID_ID
      modifies this`oldBufSize, sender, sender.pending, sock
      ensures Valid()
      ensures Sent(View(), result) == StagedSend(old(View()), old(Staged()), done)
      ensures result == Error <==> SendingOutcomes.Fails(old(View()), old(Staged()))
      ensures result == Error ==> View().s == old(View()).s.(buf := old(Staged()), broken := true)
      ensures Staged() == [] && |sender.pending.data| <= old(|sender.pending.data|) + 1
      ensures sender.posts == if result == InQueue && done.Some?
        then old(sender.posts).(starts := old(sender.posts).starts + [sender.bytesSent + old(oldBufSize)])
        else old(sender.posts)
    {
      hide FlatStorage.Valid, FlatStorage.Contents, Chained, QueueOf, StartsOf;
      SendingOutcomes.FailedStaged(View(), Staged(), done);
      hide SendingOutcomes.Fails, SendingOutcomes.Passed;
      var written := sender.buf[oldBufSize..];
      assert sender.buf == sender.buf[..oldBufSize] + written;
      if written == [] {
        if done.Some? {
          sender.Call(done.value);
        }
        Commit();
        return Complete;
      }
      if oldBufSize > 0 {
        sender.QueueMsgCompletion(|written|, done);
        Commit();
        return InQueue;
      }
      assert sender.buf == written;
      result := TrySend(done);
    }

    /** Lines 1286 to 1310: nothing is queued before the staged bytes. */
    method TrySend(done: Option<C>) returns (result: SendResult)
      requires Valid() && oldBufSize == 0 && sender.buf != [] && |sender.pending.data| < INVALID_ID
      modifies this`oldBufSize, sender, sender.pending, sock
      ensures Valid()
      ensures Sent(View(), result) == StagedSend(old(View()), old(sender.buf), done)
      ensures Staged() == [] && |sender.pending.data| <= old(|sender.pending.data|) + 1
      ensures sender.posts == if result == InQueue && done.Some?
        then old(sender.posts).(starts := old(sender.posts).starts + [sender.bytesSent + old(oldBufSize)])
        else old(sender.posts)
    {
      hide FlatStorage.Valid, FlatStorage.Contents, Chained, QueueOf, StartsOf;
      hide SockWrite, Sending.TrySendAll, Enqueue;
      var written := sender.buf;
      var sent, ok := MsgSender<C>.TrySendAll(sock, written);
      if !ok {
        sender.closeOrError := true;
        Commit();
        return Error;
      }
      if sent > 0 {
        var moved := sender.MoveBufFrontAfterSend(sent);
      }
      if sent == |written| {
        if done.Some? {
          sender.Call(done.value);
        }
        Commit();
        return Complete;
      }
      sender.QueueMsgCompletion(|sender.buf|, done);
      Commit();
      result := InQueue;
    }
  }

  // ---------------------------------------------------------------- the chain

  lemma PostsTrimmed<C>(queue: seq<Entry<C>>, p: Posts, k: nat, limit: nat)
    requires |p.starts| == |queue| && k == Due(queue, limit)
    ensures TrimmedPosts(queue, p, limit) ==
      if k < |queue| then Posts(p.starts[k..][0 := limit], p.trapped || p.starts[k..][0] > limit)
      else p.(starts := p.starts[k..])
  {
    hide Due;
  }

  lemma NothingDone<C>(queue: seq<Entry<C>>)
    ensures Dones(queue[..0]) == [] && queue[0..] == queue
  {}

  /** One more entry is due, or none. */
  lemma DueUnfolds<C>(queue: seq<Entry<C>>, k: nat, limit: nat)
    requires k <= |queue|
    ensures k == |queue| || queue[k].end > limit ==> Due(queue[k..], limit) == 0
    ensures k < |queue| && queue[k].end <= limit ==>
      && Due(queue[k..], limit) == 1 + Due(queue[k + 1..], limit)
      && Dones(queue[..k + 1]) == Dones(queue[..k]) + [queue[k].done]
  {
    if k < |queue| {
      assert queue[k..][1..] == queue[k + 1..];
    }
  }

  lemma CoversAppend<C>(m: Pendings<C>, chain: seq<nat>, key: nat, p: PendingSend<C>)
    requires Covers(m, chain) && key !in m
    ensures Covers(m[key := p], chain + [key])
  {
    var m' := m[key := p];
    forall k ensures k in m' <==> k in chain + [key] {
      assert k in chain + [key] <==> k in chain || k == key;
    }
    assert key !in chain;
  }

  /** `m` after linking `key` behind `prev`, as queue_msg_completion does. */
  ghost function LinkBehind<C>(m: Pendings<C>, prev: nat, key: nat, p: PendingSend<C>): Pendings<C> {
    if prev in m then m[key := p][prev := m[prev].(nextId := key)] else m[key := p]
  }

  /** What linking does to the record at position `i` of the longer chain. */
  lemma LinkedRecord<C>(m: Pendings<C>, chain: seq<nat>, key: nat, p: PendingSend<C>, i: nat)
    requires Chained(m, chain) && key !in m && i < |chain|
    ensures var m' := LinkBehind(m, Last(chain), key, p);
      chain[i] in m' && m'[chain[i]] == m[chain[i]].(nextId := At(chain + [key], i + 1))
  {
    var id, last := chain[i], Last(chain);
    assert id in m && m[id].nextId == At(chain, i + 1);
    assert last == chain[|chain| - 1] && last in m;
    assert i + 1 < |chain| ==> id != last;
    hide Links, Covers;
  }

  lemma ChainAppends<C>(m: Pendings<C>, chain: seq<nat>, key: nat, p: PendingSend<C>)
    requires Chained(m, chain) && key !in m && p.nextId == INVALID_ID && INVALID_ID !in m
    ensures var m' := LinkBehind(m, Last(chain), key, p);
      && Chained(m', chain + [key]) && QueueOf(m', chain + [key]) == QueueOf(m, chain) + [EntryOf(p)]
      && StartsOf(m', chain + [key]) == StartsOf(m, chain) + [p.startpos]
  {
    hide Links;
    var m', chain' := LinkBehind(m, Last(chain), key, p), chain + [key];
    assert Links(m', chain') by {
      LinksAppend(m, chain, key, p);
    }
    CoversAppend(m, chain, key, p);
    assert m'.Keys == m[key := p].Keys;
    forall i | 0 <= i < |chain'|
      ensures EntryOf(m'[chain'[i]]) == if i < |chain| then EntryOf(m[chain[i]]) else EntryOf(p)
      ensures m'[chain'[i]].startpos == if i < |chain| then m[chain[i]].startpos else p.startpos
    {
      if i < |chain| {
        LinkedRecord(m, chain, key, p, i);
      }
    }
  }

  lemma LinksAppend<C>(m: Pendings<C>, chain: seq<nat>, key: nat, p: PendingSend<C>)
    requires Chained(m, chain) && key !in m && p.nextId == INVALID_ID && INVALID_ID !in m
    ensures Links(LinkBehind(m, Last(chain), key, p), chain + [key])
  {
    var m', chain' := LinkBehind(m, Last(chain), key, p), chain + [key];
    assert Last(chain) in m ==> Last(chain) != key;
    forall i | 0 <= i < |chain'|
      ensures chain'[i] in m' && m'[chain'[i]].nextId == At(chain', i + 1)
    {
      if i < |chain| {
        LinkedRecord(m, chain, key, p, i);
      }
    }
  }

  lemma ChainHead<C>(m: Pendings<C>, chain: seq<nat>)
    requires Chained(m, chain) && chain != []
    ensures chain[0] in m && m[chain[0]].nextId == At(chain, 1)
    ensures QueueOf(m, chain)[0] == EntryOf(m[chain[0]]) && StartsOf(m, chain)[0] == m[chain[0]].startpos
  {}

  lemma ChainEnd<C>(s: FlatStorage<PendingSend<C>>, chain: seq<nat>)
    requires s.Valid() && Chained(s.Contents(), chain)
    ensures INVALID_ID !in s.Contents()
    ensures At(chain, 0) == INVALID_ID <==> chain == []
    ensures chain == [] ==> QueueOf(s.Contents(), chain) == []
    ensures Last(chain) in s.Contents() || Last(chain) == INVALID_ID
  {
    assert chain != [] ==> chain[0] in s.Contents();
  }

  lemma CoversPop<C>(m: Pendings<C>, chain: seq<nat>)
    requires Covers(m, chain) && chain != []
    ensures Covers(m - {chain[0]}, chain[1..])
  {
    forall k ensures k in m - {chain[0]} <==> k in chain[1..] {
      assert k in chain <==> k == chain[0] || k in chain[1..];
    }
  }

  lemma LinksPop<C>(m: Pendings<C>, chain: seq<nat>)
    requires Chained(m, chain) && chain != []
    ensures Links(m - {chain[0]}, chain[1..])
  {
    CoversPop(m, chain);
    forall i | 0 <= i < |chain| - 1
      ensures chain[1..][i] in m - {chain[0]} && m[chain[1..][i]].nextId == At(chain[1..], i + 1)
    {
      assert chain[i + 1] in m && chain[0] != chain[i + 1];
    }
  }

  lemma ChainPops<C>(m: Pendings<C>, chain: seq<nat>)
    requires Chained(m, chain) && chain != []
    ensures Chained(m - {chain[0]}, chain[1..])
    ensures QueueOf(m - {chain[0]}, chain[1..]) == QueueOf(m, chain)[1..]
    ensures StartsOf(m - {chain[0]}, chain[1..]) == StartsOf(m, chain)[1..]
  {
    hide Links;
    LinksPop(m, chain);
    CoversPop(m, chain);
    var m', chain' := m - {chain[0]}, chain[1..];
    forall i | 0 <= i < |chain'|
      ensures QueueOf(m', chain')[i] == QueueOf(m, chain)[1..][i]
      ensures StartsOf(m', chain')[i] == StartsOf(m, chain)[1..][i]
    {
      assert chain'[i] == chain[i + 1];
    }
  }

  /** Trimming keeps the end of the message, although msgsize may wrap around. If the
      limit lies within the message, what is before it is cut off. */
  lemma TrimKeepsEnd<C>(p: PendingSend<C>, limit: nat)
    ensures End(Trim(p, limit)) == End(p) && Trim(p, limit).startpos == limit
    ensures p.startpos <= limit <= p.startpos + p.msgsize < WORD ==>
      Trim(p, limit).msgsize == p.startpos + p.msgsize - limit
  {
    var q := Trim(p, limit);
    assert (q.startpos + q.msgsize) % WORD == (p.startpos + p.msgsize) % WORD;
  }

  lemma TrimFields<C>(p: PendingSend<C>, limit: nat)
    ensures var q := Trim(p, limit);
      q.nextId == p.nextId && q.startpos == limit && EntryOf(q) == EntryOf(p)
  {
    TrimKeepsEnd(p, limit);
    hide End;
  }

  lemma ChainTrims<C>(m: Pendings<C>, chain: seq<nat>, limit: nat)
    requires Chained(m, chain) && chain != []
    ensures var m' := m[chain[0] := Trim(m[chain[0]], limit)];
      && Chained(m', chain) && QueueOf(m', chain) == QueueOf(m, chain)
      && StartsOf(m', chain) == StartsOf(m, chain)[0 := limit]
  {
    TrimFields(m[chain[0]], limit);
    hide Trim, EntryOf;
    ReplacesHead(m, chain, Trim(m[chain[0]], limit));
  }

  lemma HeadIsAlone(chain: seq<nat>)
    requires Distinct(chain) && chain != []
    ensures forall i :: 0 < i < |chain| ==> chain[i] != chain[0]
  {}

  lemma ReplacesHead<C>(m: Pendings<C>, chain: seq<nat>, p: PendingSend<C>)
    requires Chained(m, chain) && chain != []
    requires p.nextId == m[chain[0]].nextId && EntryOf(p) == EntryOf(m[chain[0]])
    ensures var n := m[chain[0] := p];
      && Chained(n, chain) && QueueOf(n, chain) == QueueOf(m, chain)
      && StartsOf(n, chain) == StartsOf(m, chain)[0 := p.startpos]
  {
    hide EntryOf, Distinct, At;
    HeadIsAlone(chain);
    var n := m[chain[0] := p];
    assert Links(n, chain);
    assert Covers(n, chain);
  }

  // --------------------------------------------- two chains in one slot vector

  /** The slot reached from `id` by following `n` links of occupied slots. */
  function Follow<C>(data: seq<AllocNode<PendingSend<C>>>, id: nat, n: nat): nat
    decreases n, |data|
  {
    if n == 0 then id
    else if id < |data| && data[id].Occupied? then Follow(data, data[id].val.nextId, n - 1)
    else INVALID_ID
  }

  function LiveTrail<C>(data: seq<AllocNode<PendingSend<C>>>, id: nat, n: nat): seq<nat> {
    seq(n, i requires 0 <= i => Follow(data, id, i))
  }

  lemma ChainLink<C>(data: seq<AllocNode<PendingSend<C>>>, chain: seq<nat>, j: nat)
    requires Chained(Stored(data), chain) && j < |chain|
    ensures At(chain, j) < |data| && data[At(chain, j)].Occupied? && data[At(chain, j)].val.nextId == At(chain, j + 1)
  {
    assert chain[j] in Stored(data);
    StoredAt(data, chain[j]);
  }

  lemma FollowUnfolds<C>(data: seq<AllocNode<PendingSend<C>>>, id: nat, n: nat)
    ensures n == 0 ==> Follow(data, id, n) == id
    ensures n > 0 && id < |data| && data[id].Occupied? ==>
      Follow(data, id, n) == Follow(data, data[id].val.nextId, n - 1)
  {}

  lemma {:induction false} FollowsChain<C>(data: seq<AllocNode<PendingSend<C>>>, chain: seq<nat>, j: nat, n: nat)
    requires Chained(Stored(data), chain) && j + n <= |chain|
    ensures Follow(data, At(chain, j), n) == At(chain, j + n)
    decreases n
  {
    hide Chained, Stored, At, Follow;
    FollowUnfolds(data, At(chain, j), n);
    if n > 0 {
      ChainLink(data, chain, j);
      FollowsChain(data, chain, j + 1, n - 1);
      assert j + 1 + (n - 1) == j + n;
    }
  }

  lemma {:induction false} CoverSize<C>(m: Pendings<C>, chain: seq<nat>)
    requires Covers(m, chain)
    ensures |m| == |chain|
    decreases |chain|
  {
    if chain == [] {
      assert m == map[];
    } else {
      CoversPop(m, chain);
      CoverSize(m - {chain[0]}, chain[1..]);
      assert chain[0] in m && m == (m - {chain[0]})[chain[0] := m[chain[0]]];
    }
  }

  lemma LiveTrailIsChain<C>(data: seq<AllocNode<PendingSend<C>>>, chain: seq<nat>)
    requires Chained(Stored(data), chain)
    ensures LiveTrail(data, At(chain, 0), |chain|) == chain
    ensures Follow(data, At(chain, 0), |chain|) == INVALID_ID
  {
    hide Chained, Stored, Follow;
    forall i | 0 <= i <= |chain|
      ensures Follow(data, At(chain, 0), i) == At(chain, i)
    {
      FollowsChain(data, chain, 0, i);
    }
  }

  /** The completions form one chain from firstPendingId to lastPendingId, the
      vacant slots another from `free`. Neither has a cycle, they share no slot,
      and together they use every slot. Both ends are MAX iff nothing is pending. */
  lemma TwoChainsShareTheSlots<C>(s: MsgSender<C>)
    requires s.Valid()
    ensures var data, n := s.pending.data, s.pending.count;
      var live, vacant := LiveTrail(data, s.firstPendingId, n), Trail(data, s.pending.free, |data| - n);
      && Distinct(live) && Distinct(vacant)
      && (forall k :: k in live ==> k !in vacant)
      && (forall k :: 0 <= k < |data| ==> k in live || k in vacant)
      && Follow(data, s.firstPendingId, n) == INVALID_ID
      && s.lastPendingId == Last(live)
      && (s.firstPendingId == INVALID_ID <==> s.pending.Contents() == map[])
      && (s.lastPendingId == INVALID_ID <==> s.pending.Contents() == map[])
  {
    var data, n := s.pending.data, s.pending.count;
    var vacant := Trail(data, s.pending.free, |data| - n);
    CountIsSize(s.pending);
    CoverSize(s.pending.Contents(), s.chain);
    LiveTrailIsChain(data, s.chain);
    FreeListIsAcyclic(s.pending);
    ChainEnd(s.pending, s.chain);
    LastIsSlot(s.pending, s.chain);
    hide Links, Threaded, Stored, LiveTrail, Trail, Follow, Walk, Linked;
    EverySlotOnce(data, s.chain, vacant);
  }

  lemma LastIsSlot<C>(s: FlatStorage<PendingSend<C>>, chain: seq<nat>)
    requires s.Valid() && Chained(s.Contents(), chain)
    ensures Last(chain) == INVALID_ID <==> chain == []
    ensures chain == [] <==> s.Contents() == map[]
  {
    if chain != [] {
      assert chain[0] in s.Contents() && Last(chain) in chain;
    } else {
      assert forall k :: k in s.Contents() <==> k in chain;
    }
  }

  lemma EverySlotOnce<C>(data: seq<AllocNode<PendingSend<C>>>, chain: seq<nat>, vacant: seq<nat>)
    requires Covers(Stored(data), chain)
    requires forall k :: 0 <= k < |data| ==> (data[k].Vacant? <==> k in vacant)
    ensures forall k :: k in chain ==> k !in vacant
    ensures forall k :: 0 <= k < |data| ==> k in chain || k in vacant
  {
    forall k: nat ensures k in chain <==> k < |data| && data[k].Occupied? {
      StoredAt(data, k);
    }
  }
}
