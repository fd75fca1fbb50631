/** ReactRuntime of src/reactor.rs, with the intended pop. What the clock shows, and
    what users' code and the operating system answer, may be anything. */
module ReactRuntimes {
  import opened FlatStorages
  import opened Registry
  import opened Commands
  import opened Scheduling
  import opened MinHeaps
  import opened DeferredQueues
  import opened ReactorMgrs
  import opened SockEvents
  import opened Executing

  lemma ChannelBounds(mgr: ReactorMgr)
    requires mgr.Valid()
    ensures var c := mgr.channel;
      c.taken <= |c.accepted| && Numbered(c.accepted) && (c.taken == |c.accepted| <==> c.queue == [])
  {}

  /** The runtime's panic on a user command without a reactor is unreachable. */
  lemma HeldIsSendable(accepted: seq<CmdData>, taken: nat, executed: seq<Exec>, store: Store, cmd: CmdData,
                       c: Readings)
    requires Numbered(accepted) && Accounted(accepted, taken, executed, store, Some(cmd), c)
    ensures Sendable(cmd.reactorid, cmd.cmd)
  {
    assert Unexecuted(cmd, accepted, taken, executed);
    assert accepted[cmd.completion] == cmd;
  }

  /** What one call of process_events_with does to the manager: the events are
      handled, then commands are performed. */
  ghost predicate Changes(v: MgrView, w: MgrView, events: seq<Event>, more: seq<Exec>, accepted: seq<CmdData>,
                          replies: nat -> Reply) {
    exists u :: Handled(v, u, events, replies) && CarriedOut(u, w, more, accepted, replies)
  }

  /** Over one call, a stream goes astray only through a chance to write that it was
      not polled for when the poller returned. */
  lemma ChangesAstray(v: MgrView, w: MgrView, events: seq<Event>, more: seq<Exec>, accepted: seq<CmdData>,
                      replies: nat -> Reply)
    requires Changes(v, w, events, more, accepted, replies)
    requires OwnSockets(v.handlers, v.poller) && MeetsAll(v.handlers, events)
    ensures Astray(w.handlers, w.poller) <= Astray(v.handlers, v.poller) + UnsolicitedSlots(v, events)
  {
    hide Handled, CarriedOut, OwnSockets, MeetsAll, Astray, UnsolicitedSlots;
    var u :| Handled(v, u, events, replies) && CarriedOut(u, w, more, accepted, replies);
    HandledAstray(v, u, events, replies);
    CarriedKeepsAstray(u, w, more, accepted, replies);
  }

  lemma IsChange(v: MgrView, u: MgrView, w: MgrView, events: seq<Event>, more: seq<Exec>, accepted: seq<CmdData>,
                 replies: nat -> Reply)
    requires Handled(v, u, events, replies) && CarriedOut(u, w, more, accepted, replies)
    ensures Changes(v, w, events, more, accepted, replies)
  {
    hide Handled, CarriedOut;
  }

  class ReactRuntime {
    const mgr: ReactorMgr
    const clock: Clock
    const deferredData: FlatStorage<CmdData>
    var heap: array<DeferredKey> // the vector's storage, of which heapLen cells are in use
    var heapLen: nat
    var accumSockEvents: nat
    var accumCommands: nat
    ghost var executed: seq<Exec>

    /** The commands taken from the channel and their whereabouts. */
    ghost predicate Ledger(held: Option<CmdData>)
      reads this`executed, mgr.channel, deferredData, clock
    {
      Accounted(mgr.channel.accepted, mgr.channel.taken, executed, deferredData.Contents(), held, clock.View())
    }

    ghost predicate Apart()
      reads this`heap
    {
      mgr.handlers as object != deferredData && heap as object != mgr
    }

    ghost predicate Queued()
      reads this`heap, this`heapLen, deferredData, heap
    {
      && deferredData.Valid()
      && heapLen <= heap.Length
      && IsHeap(heap[..heapLen])
      && Matched(heap[..heapLen], deferredData.Contents())
    }

    ghost predicate Valid(held: Option<CmdData>)
      reads this, mgr, mgr.handlers, mgr.channel, deferredData, clock, heap
    {
      Apart() && mgr.Valid() && Queued() && Ledger(held)
    }

    constructor (time: nat -> int, replies: nat -> Reply)
      ensures Valid(None) && executed == [] && clock.View() == Readings(time, 0)
      ensures mgr.View() == MgrView(map[], map[], [], [], 0) && mgr.world.replies == replies
      ensures heapLen == 0 && mgr.handlers.data == [] && deferredData.data == []
      ensures mgr.channel.accepted == [] && mgr.channel.taken == 0
      ensures fresh(mgr) && fresh(mgr.handlers) && fresh(mgr.channel) && fresh(mgr.world)
      ensures fresh(clock) && fresh(deferredData) && fresh(heap)
    {
      mgr := new ReactorMgr(replies);
      clock := new Clock(time);
      deferredData := new FlatStorage();
      heap := new DeferredKey[4](i => DeferredKey(0, 0));
      heapLen, accumSockEvents, accumCommands := 0, 0, 0;
      executed := [];
    }

    // ------------------------------------------------------ execute_immediate_cmd

    /** Calling the completion callback. */
    method Complete(cmd: CmdData, ghost reading: Option<nat>, result: Option<ReactorID>)
      requires Valid(Some(cmd)) && MayStart(cmd.deferred, reading, clock.View())
      modifies this`executed, mgr.channel
      ensures Valid(None)
      ensures mgr.channel.taken == old(mgr.channel.taken) && old(mgr.channel.accepted) <= mgr.channel.accepted
      ensures executed == old(executed) + [Exec(cmd.completion, reading, result)]
    {
      hide Channel.Valid, Accounted, FlatStorage.Valid, FlatStorage.Contents, Consistent, Queued, MayStart;
      ghost var a, taken, store := mgr.channel.accepted, mgr.channel.taken, deferredData.Contents();
      ghost var e := Exec(cmd.completion, reading, result);
      ChannelBounds(mgr);
      AccountedExecutes(a, taken, executed, store, cmd, e, clock.View());
      executed := executed + [e];
      mgr.channel.UserCode();
      AccountedGrows(a, mgr.channel.accepted, taken, executed, store, None, clock.View());
    }

    method UserCommand(cmd: CmdData, ghost reading: Option<nat>)
      returns (made: Made, result: Option<ReactorID>)
      requires Valid(Some(cmd)) && MayStart(cmd.deferred, reading, clock.View()) && cmd.cmd.UserCmd?
      modifies this`executed, mgr, mgr.handlers, mgr.channel, mgr.world
      ensures Valid(None) && |mgr.handlers.data| == old(|mgr.handlers.data|)
      ensures mgr.channel.taken == old(mgr.channel.taken) && old(mgr.channel.accepted) <= mgr.channel.accepted
      ensures executed == old(executed) + [Exec(cmd.completion, reading, result)]
      ensures Performs(old(mgr.View()), mgr.View(), cmd, made, result, mgr.world.replies)
    {
      hide FlatStorage.Valid, FlatStorage.Contents, Channel.Valid, Accounted, Queued, Consistent, MayStart;
      var id := cmd.reactorid;
      ChannelBounds(mgr);
      HeldIsSendable(mgr.channel.accepted, mgr.channel.taken, executed, deferredData.Contents(), cmd, clock.View());
      if id == INVALID_REACTOR_ID {
        assert false; // the source's panic
      }
      var found := mgr.handlers.Get(id.sockslot);
      if found.None? || found.value.ListenerType? || found.value.id != id {
        made, result := NOTHING_MADE, None;
        Complete(cmd, reading, None);
      } else {
        made := Deliver(cmd, reading);
        result := Some(id);
      }
    }

    /** Lines 972 to 974. */
    method CloseRequested(id: ReactorID)
      requires Valid(None) && id.sockslot in mgr.handlers.Contents()
      modifies mgr`poller, mgr`countStreams, mgr`trace, mgr.handlers, mgr.channel
      ensures Valid(None) && |mgr.handlers.data| == old(|mgr.handlers.data|)
      ensures mgr.channel.taken == old(mgr.channel.taken) && old(mgr.channel.accepted) <= mgr.channel.accepted
      ensures mgr.trace == old(mgr.trace) + [Closed(id)]
      ensures mgr.handlers.Contents() == old(mgr.handlers.Contents()) - {id.sockslot}
      ensures mgr.poller == old(mgr.poller) - {old(mgr.handlers.Contents())[id.sockslot].sock}
    {
      hide FlatStorage.Valid, FlatStorage.Contents, Channel.Valid, Accounted, Queued, ReactorMgr.Valid;
      ghost var a, taken, store := mgr.channel.accepted, mgr.channel.taken, deferredData.Contents();
      ChannelBounds(mgr);
      var existed := mgr.CloseReactor(id);
      AccountedGrows(a, mgr.channel.accepted, taken, executed, store, None, clock.View());
    }

    /** The command reaches its reactor, which may ask to be closed. */
    method Deliver(cmd: CmdData, ghost reading: Option<nat>) returns (made: Made)
      requires Valid(Some(cmd)) && MayStart(cmd.deferred, reading, clock.View())
      requires cmd.reactorid.sockslot in mgr.handlers.Contents()
      modifies this`executed, mgr`poller, mgr`countStreams, mgr`trace, mgr.handlers, mgr.channel, mgr.world
      ensures Valid(None) && |mgr.handlers.data| == old(|mgr.handlers.data|)
      ensures mgr.channel.taken == old(mgr.channel.taken) && old(mgr.channel.accepted) <= mgr.channel.accepted
      ensures executed == old(executed) + [Exec(cmd.completion, reading, Some(cmd.reactorid))]
      ensures made.reply == mgr.world.replies(old(mgr.world.asked)) && mgr.world.asked == old(mgr.world.asked) + 1
      ensures var id, hs := cmd.reactorid, old(mgr.handlers.Contents());
        && mgr.trace == old(mgr.trace) + [Commanded(id, made.reply)] + (if made.reply.ok then [] else [Closed(id)])
        && mgr.handlers.Contents() ==
             if made.reply.ok then hs[id.sockslot := Answered(hs[id.sockslot], made.reply)] else hs - {id.sockslot}
      ensures mgr.poller == if made.reply.ok
        then old(mgr.poller)
        else old(mgr.poller) - {old(mgr.handlers.Contents())[cmd.reactorid.sockslot].sock}
    {
      hide FlatStorage.Valid, FlatStorage.Contents, Channel.Valid, Accounted, Queued, ReactorMgr.Valid, MayStart;
      var id := cmd.reactorid;
      ghost var hs := mgr.handlers.Contents();
      ghost var a, taken, store := mgr.channel.accepted, mgr.channel.taken, deferredData.Contents();
      ChannelBounds(mgr);
      var reply := mgr.Command(id);
      AccountedGrows(a, mgr.channel.accepted, taken, executed, store, Some(cmd), clock.View());
      Complete(cmd, reading, Some(id));
      AnsweredIsReplaced(hs, id.sockslot, reply);
      hide Answered;
      if !reply.ok {
        CloseRequested(id);
      }
      made := Made(id, 0, reply);
    }

    /** The commands that the runtime carries out itself. */
    method CarryOut(cmd: CmdData) returns (made: Made, result: Option<ReactorID>)
      requires mgr.Valid() && mgr.Room(1) && !cmd.cmd.UserCmd?
      modifies mgr, mgr.handlers, mgr.channel, mgr.world
      ensures mgr.Valid() && |mgr.handlers.data| <= old(|mgr.handlers.data|) + 1
      ensures mgr.channel.taken == old(mgr.channel.taken) && old(mgr.channel.accepted) <= mgr.channel.accepted
      ensures Performs(old(mgr.View()), mgr.View(), cmd, made, result, mgr.world.replies)
    {
      hide FlatStorage.Valid, FlatStorage.Contents, ReactorMgr.Valid;
      made := NOTHING_MADE;
      match cmd.cmd {
        case NewConnect =>
          var id, sock, reply;
          result, id, sock, reply := mgr.StartConnect();
          made := Made(id, sock, reply);
        case NewListen =>
          var sock;
          result, sock := mgr.StartListen();
          made := if result.Some? then Made(result.value, sock, Reply(true, 0, false)) else made;
        case CloseSocket =>
          var existed := mgr.CloseReactor(cmd.reactorid);
          result := if existed then Some(cmd.reactorid) else None;
      }
    }

    /** Every command is performed completely, with one call of its completion. */
    method ExecuteImmediateCmd(cmd: CmdData, ghost reading: Option<nat>)
      returns (made: Made, result: Option<ReactorID>)
      requires Valid(Some(cmd)) && MayStart(cmd.deferred, reading, clock.View()) && mgr.Room(1)
      modifies this`executed, mgr, mgr.handlers, mgr.channel, mgr.world
      ensures Valid(None) && |mgr.handlers.data| <= old(|mgr.handlers.data|) + 1
      ensures mgr.channel.taken == old(mgr.channel.taken) && old(mgr.channel.accepted) <= mgr.channel.accepted
      ensures executed == old(executed) + [Exec(cmd.completion, reading, result)]
      ensures Performs(old(mgr.View()), mgr.View(), cmd, made, result, mgr.world.replies)
    {
      hide FlatStorage.Valid, FlatStorage.Contents, Accounted, Queued, ReactorMgr.Valid, MayStart, Performs;
      if cmd.cmd.UserCmd? {
        made, result := UserCommand(cmd, reading);
      } else {
        ghost var a, taken, store := mgr.channel.accepted, mgr.channel.taken, deferredData.Contents();
        ChannelBounds(mgr);
        made, result := CarryOut(cmd);
        AccountedGrows(a, mgr.channel.accepted, taken, executed, store, Some(cmd), clock.View());
        Complete(cmd, reading, result);
      }
    }

    /** Looking at the clock. */
    method ReadClock(ghost held: Option<CmdData>) returns (now: int)
      requires Valid(held)
      modifies clock
      ensures Valid(held)
      ensures now == clock.time(old(clock.count)) && clock.count == old(clock.count) + 1
    {
      hide FlatStorage.Valid, FlatStorage.Contents, Accounted, Queued, ReactorMgr.Valid;
      ghost var c := clock.View();
      now := clock.Read();
      AccountedReads(mgr.channel.accepted, mgr.channel.taken, executed, deferredData.Contents(), held, c, clock.View());
    }

    // ------------------------------------------------------ the deferred queue

    /** Vec::push, with the growth of the vector's storage, and min_heap_push. */
    method PushTime(key: DeferredKey)
      requires heapLen <= heap.Length
      modifies this`heap, this`heapLen, heap
      ensures heap == old(heap) || fresh(heap)
      ensures heapLen == old(heapLen) + 1 <= heap.Length
      ensures heap[..heapLen] == SiftUp(old(heap[..heapLen]) + [key], old(heapLen))
    {
      ghost var keys := heap[..heapLen];
      if heapLen == heap.Length {
        var bigger := new DeferredKey[2 * heapLen + 1](i => key);
        forall i | 0 <= i < heapLen {
          bigger[i] := heap[i];
        }
        heap := bigger;
      }
      heap[heapLen] := key;
      heapLen := heapLen + 1;
      assert heap[..heapLen] == keys + [key];
      var wrapped := MinHeapPush(heap, heapLen);
    }

    /** A command that is not due yet is put aside. */
    method Defer(cmd: CmdData, millis: int) returns (key: nat)
      requires Valid(Some(cmd)) && |deferredData.data| < INVALID_ID
      requires cmd.deferred.UntilTime? && millis == Millis(cmd.deferred.nanos)
      modifies this`heap, this`heapLen, heap, deferredData
      ensures Valid(None) && (heap == old(heap) || fresh(heap)) && heapLen == old(heapLen) + 1
      ensures |deferredData.data| <= old(|deferredData.data|) + 1
      ensures key !in old(deferredData.Contents())
      ensures deferredData.Contents() == old(deferredData.Contents())[key := cmd]
    {
      hide FlatStorage.Valid, FlatStorage.Contents, Consistent, Channel.Valid, Accounted, Matched, IsHeap, SiftUp;
      ghost var keys, store := heap[..heapLen], deferredData.Contents();
      key := deferredData.Add(cmd);
      PushTime(DeferredKey(millis, key));
      MatchedPush(keys, store, DeferredKey(millis, key), cmd);
      AccountedStores(mgr.channel.accepted, mgr.channel.taken, executed, store, cmd, key, clock.View());
    }

    /** Takes the command with the earliest time out of heap and slab. */
    method PopTime() returns (cmd: CmdData)
      requires Valid(None) && heapLen > 0
      modifies this`heapLen, heap, deferredData
      ensures Valid(Some(cmd)) && heapLen == old(heapLen) - 1
      ensures cmd.deferred.UntilTime? && Millis(cmd.deferred.nanos) == old(heap[0].millis)
      ensures forall i :: 0 <= i < heapLen ==> old(heap[0].millis) <= heap[i].millis
      ensures |deferredData.data| == old(|deferredData.data|)
      ensures PartOf(deferredData.Contents(), old(deferredData.Contents()))
      ensures Left(cmd.completion, old(deferredData.Contents()), deferredData.Contents())
    {
      hide FlatStorage.Valid, FlatStorage.Contents, Consistent, Channel.Valid, Accounted, Matched, IsHeap, PopIntended;
      hide Left;
      ghost var keys, store := heap[..heapLen], deferredData.Contents();
      var key := heap[0].data;
      MatchedPop(keys, store);
      RootIsTimed(keys, store);
      MinHeapPopIntended(heap, heapLen);
      heapLen := heapLen - 1;
      assert heap[..heapLen] == Rest(keys);
      forall i | 0 <= i < heapLen ensures keys[0].millis <= heap[i].millis {
        assert heap[i] == Rest(keys)[i];
      }
      AccountedFetches(mgr.channel.accepted, mgr.channel.taken, executed, store, key, clock.View());
      FetchedLeft(mgr.channel.accepted, mgr.channel.taken, executed, store, key, clock.View());
      var removed := deferredData.Remove(key);
      match removed {
        case Some(c) => cmd := c;
        case None => assert false; // the source's panic
      }
    }

    /** process_deferred_queue: reads the clock, and if the earliest deferred time is
        due, performs its command and starts again. It ends when nothing is deferred
        or nothing deferred is due at the last reading. */
    method ProcessDeferredQueue() returns (cmds: nat)
      requires Valid(None) && mgr.Room(heapLen)
      modifies this`executed, this`heapLen, heap, deferredData, clock, mgr, mgr.handlers, mgr.channel, mgr.world
      ensures Valid(None) && heapLen == old(heapLen) - cmds
      ensures |mgr.handlers.data| <= old(|mgr.handlers.data|) + cmds
      ensures |deferredData.data| == old(|deferredData.data|)
      ensures mgr.channel.taken == old(mgr.channel.taken) && old(mgr.channel.accepted) <= mgr.channel.accepted
      ensures old(executed) <= executed && |executed| == old(|executed|) + cmds
      ensures old(clock.count) <= clock.count
      ensures RanDue(deferredData.Contents(), old(deferredData.Contents()), mgr.channel.accepted,
                     executed[old(|executed|)..], old(clock.View()), clock.View())
      ensures heapLen > 0 ==> clock.count > 0 && !IsDeferredCurrent(heap[0].millis, clock.time(clock.count - 1))
      ensures CarriedOut(old(mgr.View()), mgr.View(), executed[old(|executed|)..], mgr.channel.accepted,
                         mgr.world.replies)
    {
      hide FlatStorage.Valid, FlatStorage.Contents, Channel.Valid, Accounted, Matched, IsHeap, ReactorMgr.Valid;
      hide Performs, Runnable, IsDeferredCurrent, PopIntended, CarriedOut, NoneDue, DueSoFar, RanDue;
      cmds := 0;
      ghost var bound := LeastTime(heap[..heapLen]);
      LeastTimeIsLeast(heap[..heapLen]);
      NoneDueSoFar(deferredData.Contents(), mgr.channel.accepted, executed, bound, clock.View());
      NothingCarried(mgr.View(), executed, mgr.channel.accepted, mgr.world.replies);
      while heapLen > 0
        invariant Valid(None) && heapLen == old(heapLen) - cmds
        invariant |mgr.handlers.data| <= old(|mgr.handlers.data|) + cmds
        invariant |deferredData.data| == old(|deferredData.data|)
        invariant mgr.channel.taken == old(mgr.channel.taken) && old(mgr.channel.accepted) <= mgr.channel.accepted
        invariant old(executed) <= executed && |executed| == old(|executed|) + cmds
        invariant clock.count == old(clock.count) + cmds
        invariant DueSoFar(deferredData.Contents(), old(deferredData.Contents()), mgr.channel.accepted,
                           executed[old(|executed|)..], bound, old(clock.View()))
        invariant forall i :: 0 <= i < heapLen ==> bound <= heap[i].millis
        invariant CarriedOut(old(mgr.View()), mgr.View(), executed[old(|executed|)..], mgr.channel.accepted,
                             mgr.world.replies)
        decreases heapLen
      {
        var now := ReadClock(None);
        if !IsDeferredCurrent(heap[0].millis, now) {
          NothingStoredIsDue(heap[..heapLen], deferredData.Contents(), now);
          break;
        }
        bound := RunEarliest(old(mgr.View()), old(|executed|), bound, old(deferredData.Contents()), old(clock.View()));
        cmds := cmds + 1;
      }
      IsRanDue(deferredData.Contents(), old(deferredData.Contents()), mgr.channel.accepted,
               executed[old(|executed|)..], bound, heap[..heapLen], old(clock.View()), clock.View());
    }

    /** One turn of that loop, when the earliest time is due at the last reading. */
    method RunEarliest(ghost v: MgrView, ghost from: nat, ghost bound: int, ghost store: Store, ghost c: Readings)
      returns (ghost millis: int)
      requires Valid(None) && mgr.Room(1) && heapLen > 0 && from <= |executed|
      requires clock.View() == c.(count := c.count + |executed| - from + 1)
      requires IsDeferredCurrent(heap[0].millis, clock.time(clock.count - 1)) && bound <= heap[0].millis
      requires DueSoFar(deferredData.Contents(), store, mgr.channel.accepted, executed[from..], bound, c)
      requires CarriedOut(v, mgr.View(), executed[from..], mgr.channel.accepted, mgr.world.replies)
      modifies this`executed, this`heapLen, heap, deferredData, mgr, mgr.handlers, mgr.channel, mgr.world
      ensures Valid(None) && heapLen == old(heapLen) - 1
      ensures |mgr.handlers.data| <= old(|mgr.handlers.data|) + 1 && |deferredData.data| == old(|deferredData.data|)
      ensures mgr.channel.taken == old(mgr.channel.taken) && old(mgr.channel.accepted) <= mgr.channel.accepted
      ensures old(executed) <= executed && |executed| == old(|executed|) + 1
      ensures DueSoFar(deferredData.Contents(), store, mgr.channel.accepted, executed[from..], millis, c)
      ensures forall i :: 0 <= i < heapLen ==> millis <= heap[i].millis
      ensures CarriedOut(v, mgr.View(), executed[from..], mgr.channel.accepted, mgr.world.replies)
    {
      hide FlatStorage.Valid, FlatStorage.Contents, Channel.Valid, Accounted, Matched, IsHeap, ReactorMgr.Valid;
      hide Performs, Runnable, IsDeferredCurrent, PopIntended, CarriedOut, PartOf, Left, DueSoFar;
      ghost var a, before, u, mid := mgr.channel.accepted, executed, mgr.View(), deferredData.Contents();
      ghost var reading := Some(clock.count - 1);
      millis := heap[0].millis;
      EmptyTogether(this);
      var cmd := PopTime();
      DueMayStart(cmd, millis, clock.View());
      HeldIsInHand(a, mgr.channel.taken, executed, deferredData.Contents(), cmd, clock.View());
      var made, result := ExecuteImmediateCmd(cmd, reading);
      EmptyTogether(this);
      ghost var e := Exec(cmd.completion, reading, result);
      assert (before + [e])[from..] == before[from..] + [e];
      DueFurther(deferredData.Contents(), mid, store, a, mgr.channel.accepted, before[from..], bound, c, cmd, e);
      TailCarriesMore(v, u, mgr.View(), before, from, e, a, mgr.channel.accepted, cmd, made, mgr.world.replies);
    }

    // ------------------------------------------------------- the command queue

    /** process_command_queue: takes commands from the channel, in the order in which
        it accepted them. For those with a time the clock is read; the ones that are
        not due are put aside, all others are performed. It stops early only when it
        finds the channel empty. */
    method ProcessCommandQueue(maxCommands: nat) returns (count: nat)
      requires Valid(None) && mgr.Room(maxCommands) && |deferredData.data| + maxCommands < INVALID_ID
      modifies this`executed, this`heap, this`heapLen, heap, deferredData, clock
      modifies mgr, mgr.handlers, mgr.channel, mgr.world
      ensures Valid(None) && (heap == old(heap) || fresh(heap))
      ensures |mgr.handlers.data| + heapLen <= old(|mgr.handlers.data| + heapLen) + count
      ensures |deferredData.data| <= old(|deferredData.data|) + count
      ensures old(mgr.channel.accepted) <= mgr.channel.accepted && old(executed) <= executed
      ensures mgr.channel.taken == old(mgr.channel.taken) + count <= |mgr.channel.accepted| && count <= maxCommands
      ensures count < maxCommands ==> mgr.channel.queue == []
      ensures old(clock.count) <= clock.count
      ensures RanReceived(mgr.channel.accepted[old(mgr.channel.taken)..mgr.channel.taken],
                          executed[old(|executed|)..], old(clock.View()), clock.View())
      ensures CarriedOut(old(mgr.View()), mgr.View(), executed[old(|executed|)..], mgr.channel.accepted,
                         mgr.world.replies)
    {
      hide FlatStorage.Valid, FlatStorage.Contents, Channel.Valid, Accounted, Matched, IsHeap, ReactorMgr.Valid;
      hide Performs, Runnable, IsDeferredCurrent, StartsNow, CountTimed, CarriedOut, Starts;
      count := 0;
      ChannelBounds(mgr);
      NothingRun(mgr.channel.accepted, mgr.channel.taken, executed, clock.View());
      NothingCarried(mgr.View(), executed, mgr.channel.accepted, mgr.world.replies);
      while count < maxCommands
        invariant Valid(None) && (heap == old(heap) || fresh(heap))
        invariant |mgr.handlers.data| + heapLen <= old(|mgr.handlers.data| + heapLen) + count
        invariant |mgr.handlers.data| <= old(|mgr.handlers.data|) + count
        invariant |deferredData.data| <= old(|deferredData.data|) + count
        invariant old(mgr.channel.accepted) <= mgr.channel.accepted && old(executed) <= executed
        invariant mgr.channel.taken == old(mgr.channel.taken) + count <= |mgr.channel.accepted| && count <= maxCommands
        invariant Starts(executed[old(|executed|)..])
          == StartsNow(mgr.channel.accepted[old(mgr.channel.taken)..mgr.channel.taken], old(clock.View()))
        invariant clock.count
          == old(clock.count) + CountTimed(mgr.channel.accepted[old(mgr.channel.taken)..mgr.channel.taken])
        invariant CarriedOut(old(mgr.View()), mgr.View(), executed[old(|executed|)..], mgr.channel.accepted,
                             mgr.world.replies)
        decreases maxCommands - count
      {
        ghost var a, before := mgr.channel.accepted, executed;
        var received := Receive();
        SliceStays(a, mgr.channel.accepted, old(mgr.channel.taken), old(mgr.channel.taken) + count);
        CarriedGrows(old(mgr.View()), mgr.View(), executed[old(|executed|)..], a, mgr.channel.accepted,
                     mgr.world.replies);
        if received == None {
          return;
        }
        var cmd := received.value;
        count := count + 1;
        ghost var b := mgr.channel.accepted;
        HandleReceived(cmd, old(mgr.View()), old(|executed|));
        ReceivedInOrder(b, mgr.channel.accepted, before, executed, old(|executed|), old(mgr.channel.taken),
                        old(mgr.channel.taken) + count - 1, cmd, old(clock.View()));
      }
    }

    /** try_recv. */
    method Receive() returns (r: Option<CmdData>)
      requires Valid(None)
      modifies mgr.channel
      ensures old(mgr.channel.accepted) <= mgr.channel.accepted
      ensures r == None ==> Valid(None) && mgr.channel.queue == [] && mgr.channel.taken == old(mgr.channel.taken)
      ensures r.Some? ==> Valid(r) && mgr.channel.taken == old(mgr.channel.taken) + 1
      ensures old(mgr.channel.taken) <= |old(mgr.channel.accepted)| && mgr.channel.taken <= |mgr.channel.accepted|
      ensures r.Some? ==> r.value == mgr.channel.accepted[old(mgr.channel.taken)]
    {
      hide FlatStorage.Valid, FlatStorage.Contents, Channel.Valid, Accounted, Matched, IsHeap, Consistent;
      ghost var a, taken, store := mgr.channel.accepted, mgr.channel.taken, deferredData.Contents();
      ChannelBounds(mgr);
      r := mgr.channel.TryRecv();
      ChannelBounds(mgr);
      AccountedGrows(a, mgr.channel.accepted, taken, executed, store, None, clock.View());
      if r.Some? {
        AccountedTakes(mgr.channel.accepted, taken, executed, store, clock.View());
      }
    }

    /** Lines 834 to 850. The clock is read only for a command with a time. */
    method HandleReceived(cmd: CmdData, ghost v: MgrView, ghost from: nat)
      requires Valid(Some(cmd)) && mgr.Room(1) && |deferredData.data| < INVALID_ID && from <= |executed|
      requires CarriedOut(v, mgr.View(), executed[from..], mgr.channel.accepted, mgr.world.replies)
      modifies this`executed, this`heap, this`heapLen, heap, deferredData, clock
      modifies mgr, mgr.handlers, mgr.channel, mgr.world
      ensures Valid(None) && (heap == old(heap) || fresh(heap))
      ensures |mgr.handlers.data| + heapLen <= old(|mgr.handlers.data| + heapLen) + 1
      ensures |mgr.handlers.data| <= old(|mgr.handlers.data|) + 1 && |deferredData.data| <= old(|deferredData.data|) + 1
      ensures mgr.channel.taken == old(mgr.channel.taken) && old(mgr.channel.accepted) <= mgr.channel.accepted
      ensures clock.count == old(clock.count) + if cmd.deferred.UntilTime? then 1 else 0
      ensures old(executed) <= executed && Starts(executed) == Starts(old(executed)) + StartOf(cmd, old(clock.View()))
      ensures CarriedOut(v, mgr.View(), executed[from..], mgr.channel.accepted, mgr.world.replies)
    {
      hide FlatStorage.Valid, FlatStorage.Contents, Channel.Valid, Accounted, Matched, IsHeap, ReactorMgr.Valid;
      hide Performs, IsDeferredCurrent, CarriedOut, Starts;
      ghost var reading: Option<nat> := None;
      match cmd.deferred {
        case Immediate =>
        case UntilTime(nanos) =>
          var millis := Millis(nanos);
          var now := ReadClock(Some(cmd));
          if !IsDeferredCurrent(millis, now) {
            var key := Defer(cmd, millis);
            return;
          }
          reading := Some(old(clock.count));
      }
      ghost var a, u := mgr.channel.accepted, mgr.View();
      HeldIsInHand(a, mgr.channel.taken, executed, deferredData.Contents(), cmd, clock.View());
      var made, result := ExecuteImmediateCmd(cmd, reading);
      ghost var e := Exec(cmd.completion, reading, result);
      StartsAppend(old(executed), e);
      TailCarriesMore(v, u, mgr.View(), old(executed), from, e, a, mgr.channel.accepted, cmd, made, mgr.world.replies);
    }

    // ---------------------------------------------------------- process_events

    /** process_events_with, given what the poller returned: the events are handled,
        then commands are performed, first deferred and then received ones, and
        nothing else changes the handlers. It is false exactly when there were no
        events and no commands, nothing is deferred and no handler lives; the channel
        was then found empty. */
    method ProcessEventsWith(events: seq<Event>, maxCommands: nat) returns (alive: bool)
      requires Valid(None) && mgr.Room(|events| + heapLen + maxCommands)
      requires |deferredData.data| + maxCommands < INVALID_ID
      requires forall i :: 0 <= i < |events| ==> Polled(mgr.poller, events[i])
      requires forall i, j :: 0 <= i < j < |events| ==> events[i].key != events[j].key
      modifies this, heap, deferredData, clock, mgr, mgr.handlers, mgr.channel, mgr.world
      ensures Valid(None) && (heap == old(heap) || fresh(heap))
      ensures |mgr.handlers.data| + heapLen <= old(|mgr.handlers.data| + heapLen) + |events| + maxCommands
      ensures |deferredData.data| <= old(|deferredData.data|) + maxCommands
      ensures old(mgr.channel.accepted) <= mgr.channel.accepted && old(executed) <= executed
      ensures old(clock.count) <= clock.count
      ensures old(mgr.channel.taken) <= mgr.channel.taken <= old(mgr.channel.taken) + maxCommands
      ensures mgr.channel.taken <= |mgr.channel.accepted|
      ensures accumSockEvents == old(accumSockEvents) + |events|
      ensures accumCommands == old(accumCommands) + (mgr.channel.taken - old(mgr.channel.taken))
      ensures OneCall(old(deferredData.Contents()), mgr.channel.accepted,
                      mgr.channel.accepted[old(mgr.channel.taken)..mgr.channel.taken],
                      executed[old(|executed|)..], old(clock.View()), clock.View())
      ensures Changes(old(mgr.View()), mgr.View(), events, executed[old(|executed|)..], mgr.channel.accepted,
                      mgr.world.replies)
      ensures !alive <==>
        && events == [] && mgr.channel.taken == old(mgr.channel.taken)
        && deferredData.Contents() == map[] && mgr.handlers.Contents() == map[]
      ensures !alive && maxCommands > 0 ==> mgr.channel.queue == []
    {
      hide FlatStorage.Valid, FlatStorage.Contents, ReactorMgr.Valid, Queued, Ledger;
      hide Polled, Handled, CarriedOut, Changes, OneCall;
      ghost var v := mgr.View();
      var sockEvents := Poll(events);
      accumSockEvents := accumSockEvents + sockEvents;
      ghost var u, before := mgr.View(), executed;
      var cmds := ProcessCommands(maxCommands);
      accumCommands := accumCommands + cmds;
      IsChange(v, u, mgr.View(), events, executed[|before|..], mgr.channel.accepted, mgr.world.replies);
      var handlers := mgr.Len();
      EmptyTogether(this);
      alive := sockEvents > 0 || cmds > 0 || heapLen > 0 || handlers > 0;
    }

    /** Lines 631 to 632: first the deferred commands, then the received ones. */
    method ProcessCommands(maxCommands: nat) returns (cmds: nat)
      requires Valid(None) && mgr.Room(heapLen + maxCommands) && |deferredData.data| + maxCommands < INVALID_ID
      modifies this`executed, this`heap, this`heapLen, heap, deferredData, clock
      modifies mgr, mgr.handlers, mgr.channel, mgr.world
      ensures Valid(None) && (heap == old(heap) || fresh(heap))
      ensures |mgr.handlers.data| + heapLen <= old(|mgr.handlers.data| + heapLen) + maxCommands
      ensures |deferredData.data| <= old(|deferredData.data|) + maxCommands
      ensures old(mgr.channel.accepted) <= mgr.channel.accepted && old(executed) <= executed
      ensures old(clock.count) <= clock.count
      ensures mgr.channel.taken == old(mgr.channel.taken) + cmds <= |mgr.channel.accepted| && cmds <= maxCommands
      ensures cmds < maxCommands ==> mgr.channel.queue == []
      ensures OneCall(old(deferredData.Contents()), mgr.channel.accepted,
                      mgr.channel.accepted[old(mgr.channel.taken)..mgr.channel.taken],
                      executed[old(|executed|)..], old(clock.View()), clock.View())
      ensures CarriedOut(old(mgr.View()), mgr.View(), executed[old(|executed|)..], mgr.channel.accepted,
                         mgr.world.replies)
    {
      hide FlatStorage.Valid, FlatStorage.Contents, Valid;
      hide RanDue, RanReceived, IsDeferredCurrent, CarriedOut, OneCall;
      ghost var u, before := mgr.View(), executed;
      ghost var store, c := deferredData.Contents(), clock.View();
      var due := ProcessDeferredQueue();
      ghost var x, a, middle := mgr.View(), mgr.channel.accepted, executed;
      ghost var rest, mid := deferredData.Contents(), clock.View();
      cmds := ProcessCommandQueue(maxCommands);
      BothCarried(u, x, mgr.View(), before, middle, executed, a, mgr.channel.accepted, mgr.world.replies);
      IsOneCall(rest, mid, store, a, mgr.channel.accepted,
                mgr.channel.accepted[old(mgr.channel.taken)..mgr.channel.taken], before, middle, executed, c,
                clock.View());
    }

    method Poll(events: seq<Event>) returns (n: nat)
      requires Valid(None) && mgr.Room(|events|)
      requires forall i :: 0 <= i < |events| ==> Polled(mgr.poller, events[i])
      requires forall i, j :: 0 <= i < j < |events| ==> events[i].key != events[j].key
      modifies mgr, mgr.handlers, mgr.channel, mgr.world
      ensures Valid(None) && |mgr.handlers.data| <= old(|mgr.handlers.data|) + |events|
      ensures mgr.channel.taken == old(mgr.channel.taken) && old(mgr.channel.accepted) <= mgr.channel.accepted
      ensures Handled(old(mgr.View()), mgr.View(), events, mgr.world.replies)
      ensures n == |events|
    {
      hide FlatStorage.Valid, FlatStorage.Contents, Channel.Valid, Accounted, Matched, IsHeap, Consistent, Polled;
      hide Handled;
      ghost var a, taken, store := mgr.channel.accepted, mgr.channel.taken, deferredData.Contents();
      ChannelBounds(mgr);
      n := ProcessSockEvents(mgr, events);
      AccountedGrows(a, mgr.channel.accepted, taken, executed, store, None, clock.View());
    }

    method CountDeferredQueue() returns (n: nat)
      requires Valid(None)
      ensures n == heapLen == |deferredData.Contents()|
    {
      n := deferredData.Len();
    }
  }

  // ---------------------------------------------------- what always holds

  /** Between calls, a command that the channel has accepted is in exactly one
      place: behind `taken` in the channel, in the store of deferred commands, or
      executed, and then its completion has been called exactly once. */
  lemma CommandsAreConserved(rt: ReactRuntime)
    requires rt.Valid(None)
    ensures var c, stored, done := rt.mgr.channel, StoredTickets(rt.deferredData.Contents()), Tickets(rt.executed);
      && c.queue == c.accepted[c.taken..] && c.taken <= |c.accepted|
      && (forall i :: 0 <= i < |c.accepted| ==> c.accepted[i].completion == i)
      && (forall t: nat :: t < c.taken <==> t in stored + done)
      && stored !! done && OnceEach(rt.executed)
  {
    hide Accounted;
    EachCommandInOnePlace(rt.mgr.channel.accepted, rt.mgr.channel.taken, rt.executed, rt.deferredData.Contents(),
                          rt.clock.View());
  }

  /** A command that has been executed, and had a time, was started after a reading
      of the clock that was not more than 499999 ns before its time. */
  lemma NothingRunsEarly(rt: ReactRuntime, i: nat, t: nat)
    requires rt.Valid(None) && i < |rt.executed| && t / 1_000_000 <= MAX_MILLIS
    requires rt.executed[i].ticket < |rt.mgr.channel.accepted|
    requires rt.mgr.channel.accepted[rt.executed[i].ticket].deferred == UntilTime(t)
    ensures var reading := rt.executed[i].reading;
      reading.Some? && reading.value < rt.clock.count && rt.clock.time(reading.value) >= t - 499_999
  {
    assert RanInTime(rt.executed[i], rt.mgr.channel.accepted, rt.mgr.channel.taken, rt.clock.View());
    SchedulingBound(t, rt.clock.time(rt.executed[i].reading.value));
  }

  /** The heap is as long as the store is large and names exactly its slots. */
  lemma HeapNamesStore(rt: ReactRuntime)
    requires rt.Valid(None)
    ensures DataSet(rt.heap[..rt.heapLen]) == rt.deferredData.Contents().Keys
    ensures DistinctData(rt.heap[..rt.heapLen])
  {
    MatchedIsBijection(rt.heap[..rt.heapLen], rt.deferredData.Contents());
  }

  // ------------------------------------------------------------- small lemmas

  ghost function LeastTime(keys: Keys): int { if keys == [] then 0 else keys[0].millis }

  lemma LeastTimeIsLeast(keys: Keys)
    requires IsHeap(keys)
    ensures forall i :: 0 <= i < |keys| ==> LeastTime(keys) <= keys[i].millis
  {
    if keys != [] {
      RootIsSmallestOfAll(keys);
    }
  }

  lemma DueMayStart(cmd: CmdData, millis: int, c: Readings)
    requires cmd.deferred.UntilTime? && millis == Millis(cmd.deferred.nanos)
    requires c.count > 0 && IsDeferredCurrent(millis, c.time(c.count - 1))
    ensures MayStart(cmd.deferred, Some(c.count - 1), c)
  {}

  lemma HeldIsInHand(accepted: seq<CmdData>, taken: nat, executed: seq<Exec>, store: Store, cmd: CmdData, c: Readings)
    requires Accounted(accepted, taken, executed, store, Some(cmd), c)
    ensures InHand(cmd, accepted, taken) && InHand(cmd, accepted, |accepted|)
  {
    assert Unexecuted(cmd, accepted, taken, executed);
  }

  lemma NothingRun(accepted: seq<CmdData>, taken: nat, executed: seq<Exec>, c: Readings)
    requires taken <= |accepted|
    ensures CountTimed(accepted[taken..taken]) == 0
    ensures Starts(executed[|executed|..]) == StartsNow(accepted[taken..taken], c)
  {}

  lemma SliceStays(a: seq<CmdData>, b: seq<CmdData>, i: nat, j: nat)
    requires a <= b && i <= j <= |a|
    ensures a[i..j] == b[i..j]
  {}

  lemma SliceExtends(a: seq<CmdData>, b: seq<CmdData>, i: nat, j: nat)
    requires a <= b && i <= j < |a|
    ensures b[i..j + 1] == a[i..j] + [a[j]]
  {}

  lemma StartsAppend(executed: seq<Exec>, e: Exec)
    ensures Starts(executed + [e]) == Starts(executed) + [Start(e.ticket, e.reading)]
  {}

  lemma StartsOfTail(before: seq<Exec>, after: seq<Exec>, from: nat, more: seq<Start>)
    requires from <= |before| && before <= after && Starts(after) == Starts(before) + more
    ensures Starts(after[from..]) == Starts(before[from..]) + more
  {
    assert Starts(after[from..]) == Starts(after)[from..] && Starts(before[from..]) == Starts(before)[from..];
  }

  lemma {:induction false} ReceivedInOrder(a: seq<CmdData>, b: seq<CmdData>, before: seq<Exec>, after: seq<Exec>,
                                           from: nat, start: nat, end: nat, cmd: CmdData, c: Readings)
    requires a <= b && from <= |before| && before <= after && start <= end < |a| && cmd == a[end]
    requires Starts(before[from..]) == StartsNow(a[start..end], c)
    requires Starts(after) == Starts(before) + StartOf(cmd, c.(count := c.count + CountTimed(a[start..end])))
    ensures Starts(after[from..]) == StartsNow(b[start..end + 1], c)
    ensures CountTimed(b[start..end + 1])
      == CountTimed(a[start..end]) + if cmd.deferred.UntilTime? then 1 else 0
  {
    hide StartsNow, Starts, StartOf, CountTimed;
    SliceExtends(a, b, start, end);
    StartsNowAppends(a[start..end], cmd, c);
    StartsOfTail(before, after, from, StartOf(cmd, c.(count := c.count + CountTimed(a[start..end]))));
  }

  lemma {:induction false} BothCarried(u: MgrView, x: MgrView, w: MgrView, before: seq<Exec>, middle: seq<Exec>,
                                       after: seq<Exec>, a: seq<CmdData>, b: seq<CmdData>, replies: nat -> Reply)
    requires before <= middle <= after && a <= b
    requires CarriedOut(u, x, middle[|before|..], a, replies) && CarriedOut(x, w, after[|middle|..], b, replies)
    ensures CarriedOut(u, w, after[|before|..], b, replies)
  {
    hide CarriedOut;
    CarriedGrows(u, x, middle[|before|..], a, b, replies);
    CarriedThrough(u, x, w, middle[|before|..], after[|middle|..], b, replies);
    assert after[|before|..] == middle[|before|..] + after[|middle|..];
  }

  lemma {:induction false} IsOneCall(rest: Store, mid: Readings, store: Store, a: seq<CmdData>, b: seq<CmdData>,
                                     taken: seq<CmdData>, before: seq<Exec>, middle: seq<Exec>, after: seq<Exec>,
                                     c: Readings, d: Readings)
    requires before <= middle <= after && a <= b
    requires RanDue(rest, store, a, middle[|before|..], c, mid) && RanReceived(taken, after[|middle|..], mid, d)
    ensures OneCall(store, b, taken, after[|before|..], c, d)
  {
    hide RanDue, RanReceived;
    var more, due := after[|before|..], |middle| - |before|;
    assert more[due..] == after[|middle|..] && more[..due] == middle[|before|..];
    RanDueGrows(rest, store, a, b, middle[|before|..], c, mid);
    assert Split(due, rest, mid, store, b, taken, more, c, d);
  }

  lemma AnsweredIsReplaced(hs: Handlers, k: nat, reply: Reply)
    requires k in hs
    ensures hs[k := Answered(hs[k], reply)] - {k} == hs - {k} && Answered(hs[k], reply).sock == hs[k].sock
  {}

  lemma EmptyTogether(rt: ReactRuntime)
    requires rt.Valid(None)
    ensures |rt.deferredData.Contents()| == rt.heapLen
    ensures rt.heapLen == 0 <==> rt.deferredData.Contents() == map[]
  {
    assert |rt.heap[..rt.heapLen]| == |rt.deferredData.Contents()|;
  }

  lemma RootIsTimed(keys: Keys, store: Store)
    requires Matched(keys, store) && keys != []
    ensures Timed(keys[0], store)
  {}
}
