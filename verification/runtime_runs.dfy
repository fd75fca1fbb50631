/** Runs of the class ReactRuntime: process_events_with is called again and again,
    as a program does until it returns false. */
module RuntimeRuns {
  import opened FlatStorages
  import opened Registry
  import opened Commands
  import opened Scheduling
  import opened DeferredQueues
  import opened ReactorMgrs
  import opened SockEvents
  import opened Executing
  import opened ReactRuntimes

  /** The event is for a registered socket, and tells of a chance to write only if
      the socket is polled for writing. */
  ghost predicate PolledFor(poller: Registrations, ev: Event) {
    exists s :: KeyInUse(poller, s, ev.key) && (ev.writable ==> poller[s].writable)
  }

  /** poll: at most one event for each registered socket. A poller may or may not be
      `exact` about what a socket is polled for. */
  method Wait(poller: Registrations, maxEvents: nat, exact: bool) returns (events: seq<Event>)
    ensures |events| <= maxEvents
    ensures forall i :: 0 <= i < |events| ==> Polled(poller, events[i])
    ensures exact ==> forall i :: 0 <= i < |events| ==> PolledFor(poller, events[i])
    ensures forall i, j :: 0 <= i < j < |events| ==> events[i].key != events[j].key
  {
    events := [];
    var keys: set<nat> := {};
    var n := 0;
    while n < maxEvents
      invariant |events| <= n <= maxEvents
      invariant forall i :: 0 <= i < |events| ==> Polled(poller, events[i]) && events[i].key in keys
      invariant exact ==> forall i :: 0 <= i < |events| ==> PolledFor(poller, events[i])
      invariant forall i, j :: 0 <= i < j < |events| ==> events[i].key != events[j].key
    {
      var sock: nat, ev: Event := *, *;
      if sock in poller && poller[sock].key == ev.key && ev.key !in keys
         && (exact && ev.writable ==> poller[sock].writable) {
        assert KeyInUse(poller, sock, ev.key);
        events, keys := events + [ev], keys + {ev.key};
      }
      n := n + 1;
    }
  }

  /** What the events of an exact poller lead to. */
  lemma ExactIsSolicited(v: MgrView, events: seq<Event>)
    requires Consistent(v.handlers, v.poller)
    requires forall i :: 0 <= i < |events| ==> PolledFor(v.poller, events[i])
    ensures UnsolicitedSlots(v, events) == {}
  {
    forall i | 0 <= i < |events| ensures !Unsolicited(v, events[i]) {
      var s :| KeyInUse(v.poller, s, events[i].key) && (events[i].writable ==> v.poller[s].writable);
      KeyNamesHandler(v.handlers, v.poller, s, events[i].key);
    }
  }

  lemma WaitedMeets(rt: ReactRuntime, events: seq<Event>, exact: bool)
    requires rt.Valid(None)
    requires forall i :: 0 <= i < |events| ==> Polled(rt.mgr.poller, events[i])
    requires exact ==> forall i :: 0 <= i < |events| ==> PolledFor(rt.mgr.poller, events[i])
    requires forall i, j :: 0 <= i < j < |events| ==> events[i].key != events[j].key
    ensures var v := rt.mgr.View();
      && OwnSockets(v.handlers, v.poller) && MeetsAll(v.handlers, events)
      && (exact ==> UnsolicitedSlots(v, events) == {})
  {
    hide FlatStorage.Valid, FlatStorage.Contents, Consistent, OwnSockets, Meets, Polled, PolledFor, ReactRuntime.Queued;
    var v := rt.mgr.View();
    ConsistentOwnSockets(v.handlers, v.poller);
    forall i | 0 <= i < |events| ensures Meets(v.handlers, events[i]) {
      PolledMeets(v.handlers, v.poller, events[i]);
    }
    if exact {
      ExactIsSolicited(v, events);
    }
  }

  /** Nothing is left to do: no handler lives, nothing is deferred, and each command
      ever accepted has been executed exactly once. */
  ghost predicate Quiescent(rt: ReactRuntime)
    reads rt, rt.mgr, rt.mgr.handlers, rt.mgr.channel, rt.deferredData
  {
    && rt.mgr.handlers.Contents() == map[] && rt.deferredData.Contents() == map[]
    && OnceEach(rt.executed)
    && forall t: nat :: t < |rt.mgr.channel.accepted| <==> t in Tickets(rt.executed)
  }

  lemma AllIsExecuted(accepted: seq<CmdData>, executed: seq<Exec>, c: Readings)
    requires Accounted(accepted, |accepted|, executed, map[], None, c)
    ensures OnceEach(executed) && forall t: nat :: t < |accepted| <==> t in Tickets(executed)
  {
    EachCommandInOnePlace(accepted, |accepted|, executed, map[], c);
    assert StoredTickets(map[]) + Tickets(executed) == Tickets(executed);
  }

  lemma IdleIsQuiescent(rt: ReactRuntime)
    requires rt.Valid(None) && rt.mgr.channel.queue == []
    requires rt.mgr.handlers.Contents() == map[] && rt.deferredData.Contents() == map[]
    ensures Quiescent(rt)
  {
    hide FlatStorage.Valid, FlatStorage.Contents, ReactRuntime.Queued, Channel.Valid, Accounted, OnceEach, Tickets;
    ChannelBounds(rt.mgr);
    AllIsExecuted(rt.mgr.channel.accepted, rt.executed, rt.clock.View());
  }

  /** There are slots for another call; freed slots are used again. */
  predicate Fits(rt: ReactRuntime, maxEvents: nat, maxCommands: nat)
    reads rt, rt.mgr.handlers, rt.deferredData
  {
    && |rt.mgr.handlers.data| + rt.heapLen + maxEvents + maxCommands <= MAX_HALF
    && |rt.deferredData.data| + maxCommands < INVALID_ID
  }

  /** Up to `rounds` calls, with any clock, any events, and any answers and commands
      of users. Every call finds the runtime as it must, and a call returns false
      only when nothing is left to do. If the poller is exact, each stream's interest
      in writing agrees with its registration after every call. */
  method Serve(rt: ReactRuntime, rounds: nat, maxEvents: nat, maxCommands: nat, exact: bool)
    returns (alive: bool, served: nat)
    requires rt.Valid(None)
    modifies rt, rt.heap, rt.deferredData, rt.clock, rt.mgr, rt.mgr.handlers, rt.mgr.channel, rt.mgr.world
    ensures rt.Valid(None) && served <= rounds
    ensures old(rt.mgr.channel.accepted) <= rt.mgr.channel.accepted && old(rt.executed) <= rt.executed
    ensures alive && served < rounds ==> !Fits(rt, maxEvents, maxCommands)
    ensures !alive && maxCommands > 0 ==> Quiescent(rt)
    ensures exact ==>
      Astray(rt.mgr.View().handlers, rt.mgr.poller) <= Astray(old(rt.mgr.View()).handlers, old(rt.mgr.poller))
  {
    hide FlatStorage.Valid, FlatStorage.Contents, ReactorMgr.Valid, ReactRuntime.Valid, Quiescent;
    hide Polled, PolledFor, Changes, OneCall, Astray, UnsolicitedSlots, OwnSockets, MeetsAll;
    alive, served := true, 0;
    while served < rounds && alive && Fits(rt, maxEvents, maxCommands)
      invariant rt.Valid(None) && (rt.heap == old(rt.heap) || fresh(rt.heap)) && served <= rounds
      invariant old(rt.mgr.channel.accepted) <= rt.mgr.channel.accepted && old(rt.executed) <= rt.executed
      invariant !alive && maxCommands > 0 ==> Quiescent(rt)
      invariant exact ==>
        Astray(rt.mgr.View().handlers, rt.mgr.poller) <= Astray(old(rt.mgr.View()).handlers, old(rt.mgr.poller))
      decreases rounds - served
    {
      var events := Wait(rt.mgr.poller, maxEvents, exact);
      WaitedMeets(rt, events, exact);
      ghost var v, before := rt.mgr.View(), |rt.executed|;
      alive := rt.ProcessEventsWith(events, maxCommands);
      ChangesAstray(v, rt.mgr.View(), events, rt.executed[before..], rt.mgr.channel.accepted, rt.mgr.world.replies);
      if !alive && maxCommands > 0 {
        IdleIsQuiescent(rt);
      }
      served := served + 1;
    }
  }

  /** The same from the start. */
  method ServeNew(time: nat -> int, replies: nat -> Reply, rounds: nat, maxEvents: nat, maxCommands: nat, exact: bool)
    returns (rt: ReactRuntime, alive: bool, served: nat)
    ensures fresh(rt) && rt.Valid(None)
    ensures rt.clock.time == time && rt.mgr.world.replies == replies
    ensures alive && served < rounds ==> !Fits(rt, maxEvents, maxCommands)
    ensures !alive && maxCommands > 0 ==> Quiescent(rt)
    ensures exact ==> Astray(rt.mgr.View().handlers, rt.mgr.poller) == {}
  {
    hide FlatStorage.Valid, FlatStorage.Contents, ReactorMgr.Valid, ReactRuntime.Valid, Quiescent;
    rt := new ReactRuntime(time, replies);
    assert Astray(map[], map[]) == {};
    alive, served := Serve(rt, rounds, maxEvents, maxCommands, exact);
  }
}
