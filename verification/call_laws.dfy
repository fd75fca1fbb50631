/** Which commands one call of process_events_with executes: of the deferred ones all
    that stay due, of the received ones exactly those that are due when they come. */
module CallLaws {
  import opened FlatStorages
  import opened Registry
  import opened Commands
  import opened Scheduling
  import opened DeferredQueues

  // ----------------------------------------------------------- received commands

  ghost function TimedAmong(cmds: seq<CmdData>): set<nat> {
    set i: nat | i < |cmds| && cmds[i].deferred.UntilTime?
  }

  /** The clock is read once for each command with a time. */
  lemma {:induction false} CountTimedIsSize(cmds: seq<CmdData>)
    ensures CountTimed(cmds) == |TimedAmong(cmds)|
    decreases |cmds|
  {
    if cmds != [] {
      var n := |cmds| - 1;
      CountTimedIsSize(cmds[..n]);
      assert TimedAmong(cmds)
        == TimedAmong(cmds[..n]) + if cmds[n].deferred.UntilTime? then {n} else {};
    }
  }

  /** The reading of the clock that is made for command `i`, if it has a time. */
  ghost function ReadingOf(cmds: seq<CmdData>, i: nat, c: Readings): nat
    requires i < |cmds|
  {
    c.count + |TimedAmong(cmds[..i])|
  }

  /** Command `i` has no time, or it is due at its reading. */
  ghost predicate DueWhenReceived(cmds: seq<CmdData>, i: nat, c: Readings)
    requires i < |cmds|
  {
    match cmds[i].deferred
    case Immediate => true
    case UntilTime(_) => Runnable(cmds[i].deferred, c.time(ReadingOf(cmds, i, c)))
  }

  ghost function StartAt(cmds: seq<CmdData>, i: nat, c: Readings): Start
    requires i < |cmds|
  {
    Start(cmds[i].completion, if cmds[i].deferred.UntilTime? then Some(ReadingOf(cmds, i, c)) else None)
  }

  /** `picks` are the positions of the commands that are due when received, in order. */
  ghost predicate PicksDue(picks: seq<nat>, cmds: seq<CmdData>, c: Readings) {
    && (forall j :: 0 <= j < |picks| ==> picks[j] < |cmds| && DueWhenReceived(cmds, picks[j], c))
    && (forall j, k :: 0 <= j < k < |picks| ==> picks[j] < picks[k])
    && (forall i: nat :: i < |cmds| && DueWhenReceived(cmds, i, c) ==> i in picks)
  }

  lemma PartOfReceived(cmds: seq<CmdData>, n: nat, i: nat, c: Readings)
    requires i < n <= |cmds|
    ensures DueWhenReceived(cmds[..n], i, c) == DueWhenReceived(cmds, i, c)
    ensures StartAt(cmds[..n], i, c) == StartAt(cmds, i, c)
  {
    assert cmds[..n][..i] == cmds[..i];
  }

  lemma {:induction false} LastStartAt(cmds: seq<CmdData>, c: Readings)
    requires cmds != []
    ensures var n := |cmds| - 1;
      StartsNow(cmds, c)
        == StartsNow(cmds[..n], c) + if DueWhenReceived(cmds, n, c) then [StartAt(cmds, n, c)] else []
  {
    hide StartsNow, CountTimed, Runnable, TimedAmong;
    LastStart(cmds, c);
    CountTimedIsSize(cmds[..|cmds| - 1]);
  }

  lemma {:induction false} PicksMore(picks: seq<nat>, cmds: seq<CmdData>, c: Readings)
    requires cmds != [] && PicksDue(picks, cmds[..|cmds| - 1], c)
    ensures var n := |cmds| - 1;
      PicksDue(if DueWhenReceived(cmds, n, c) then picks + [n] else picks, cmds, c)
  {
    hide DueWhenReceived;
    var n := |cmds| - 1;
    var all := if DueWhenReceived(cmds, n, c) then picks + [n] else picks;
    forall i: nat | i < n ensures DueWhenReceived(cmds[..n], i, c) == DueWhenReceived(cmds, i, c) {
      PartOfReceived(cmds, n, i, c);
    }
    forall i: nat | i < |cmds| && DueWhenReceived(cmds, i, c) ensures i in all {
      assert i < n ==> DueWhenReceived(cmds[..n], i, c) && i in picks;
    }
  }

  /** `starts` are the starts of the commands at these positions. */
  ghost predicate StartsAt(starts: seq<Start>, picks: seq<nat>, cmds: seq<CmdData>, c: Readings) {
    |picks| == |starts| && forall j :: 0 <= j < |picks| ==> picks[j] < |cmds| && starts[j] == StartAt(cmds, picks[j], c)
  }

  lemma StartsMore(starts: seq<Start>, picks: seq<nat>, cmds: seq<CmdData>, c: Readings)
    requires cmds != [] && StartsAt(starts, picks, cmds[..|cmds| - 1], c)
    ensures StartsAt(starts, picks, cmds, c)
    ensures StartsAt(starts + [StartAt(cmds, |cmds| - 1, c)], picks + [|cmds| - 1], cmds, c)
  {
    hide StartAt;
    var n := |cmds| - 1;
    forall j | 0 <= j < |picks| ensures starts[j] == StartAt(cmds, picks[j], c) {
      PartOfReceived(cmds, n, picks[j], c);
    }
  }

  /** Of the received commands exactly those that are due when they are received start
      at once, in the order in which they were received. */
  lemma {:induction false} StartsAreDue(cmds: seq<CmdData>, c: Readings) returns (picks: seq<nat>)
    ensures PicksDue(picks, cmds, c) && StartsAt(StartsNow(cmds, c), picks, cmds, c)
    decreases |cmds|
  {
    picks := [];
    if cmds != [] {
      hide StartsNow, PicksDue, StartsAt, DueWhenReceived, StartAt;
      var n := |cmds| - 1;
      LastStartAt(cmds, c);
      picks := StartsAreDue(cmds[..n], c);
      PicksMore(picks, cmds, c);
      StartsMore(StartsNow(cmds[..n], c), picks, cmds, c);
      assert StartsNow(cmds[..n], c) + [] == StartsNow(cmds[..n], c);
      picks := if DueWhenReceived(cmds, n, c) then picks + [n] else picks;
    }
  }

  /** The executions of received commands, by position. */
  lemma {:induction false} ReceivedRunExactly(cmds: seq<CmdData>, second: seq<Exec>, c: Readings, d: Readings, i: nat)
    requires RanReceived(cmds, second, c, d) && i < |cmds|
    requires forall j, k :: 0 <= j < k < |cmds| ==> cmds[j].completion != cmds[k].completion
    ensures cmds[i].completion in Tickets(second) <==> DueWhenReceived(cmds, i, c)
    ensures DueWhenReceived(cmds, i, c) ==>
      exists j :: 0 <= j < |second| && Start(second[j].ticket, second[j].reading) == StartAt(cmds, i, c)
  {
    var picks := StartsAreDue(cmds, c);
    hide DueWhenReceived, StartsNow, ReadingOf;
    assert |second| == |Starts(second)| == |picks|;
    forall j | 0 <= j < |second| ensures Start(second[j].ticket, second[j].reading) == StartAt(cmds, picks[j], c) {
      assert Starts(second)[j] == StartsNow(cmds, c)[j];
    }
    if DueWhenReceived(cmds, i, c) {
      assert i in picks;
      var j :| 0 <= j < |picks| && picks[j] == i;
      assert second[j].ticket == cmds[i].completion;
    }
    if cmds[i].completion in Tickets(second) {
      var j :| 0 <= j < |second| && second[j].ticket == cmds[i].completion;
      assert cmds[picks[j]].completion == cmds[i].completion;
      assert picks[j] == i;
    }
  }

  // ----------------------------------------------------------- deferred commands

  /** It stays due during the call. */
  ghost predicate StaysDue(deferred: Deferred, c: Readings, d: Readings) {
    forall m: nat :: c.count <= m < d.count ==> Runnable(deferred, c.time(m))
  }

  /** Unless times are out of range, a command that is still stored was not due at the
      last reading. */
  lemma StillStored(rest: Store, store: Store, accepted: seq<CmdData>, first: seq<Exec>, c: Readings, d: Readings,
                    k: nat)
    requires RanDue(rest, store, accepted, first, c, d) && TimesInRange(store) && k in rest
    ensures k in store && !StaysDue(store[k].deferred, c, d)
  {
    hide Runnable, EarliestFirst;
    var last: nat := d.count - 1;
    assert NoneDue(rest, d.time(last)) && TimesInRange(rest);
    assert !Runnable(store[k].deferred, c.time(last)) && c.count <= last;
  }

  /** What has left the store has been executed. */
  lemma LeftIsExecuted(rest: Store, store: Store, accepted: seq<CmdData>, first: seq<Exec>, c: Readings, d: Readings,
                       k: nat)
    requires RanDue(rest, store, accepted, first, c, d) && OneSlotEach(store) && OnceEach(first)
    requires k in store && k !in rest
    ensures store[k].completion in Tickets(first)
  {
    hide EarliestFirst, NoneDue;
    var ran, stored, left := Tickets(first), StoredTickets(store), StoredTickets(rest);
    assert OneSlotEach(rest) by {
      forall i, j | i in rest && j in rest && i != j ensures rest[i].completion != rest[j].completion {
        assert i in store && j in store;
      }
    }
    StoredSize(store);
    StoredSize(rest);
    ExecutedSize(first);
    PartOfTickets(rest, store);
    LeftTickets(store, rest, first);
    assert ran + left <= stored && |ran + left| == |ran| + |left|;
    SubsetIsAll(ran + left, stored);
    forall j | j in rest ensures rest[j].completion != store[k].completion {
      assert j in store && j != k;
    }
  }

  lemma LeftTickets(store: Store, rest: Store, first: seq<Exec>)
    requires forall i :: 0 <= i < |first| ==> Left(first[i].ticket, store, rest)
    ensures Tickets(first) <= StoredTickets(store) && Tickets(first) !! StoredTickets(rest)
  {
    forall t | t in Tickets(first) ensures t in StoredTickets(store) && t !in StoredTickets(rest) {
      var i :| 0 <= i < |first| && first[i].ticket == t;
    }
  }

  /** Progress: with times in range, a deferred command that stays due during the call
      is executed in it. */
  lemma StoredDueRuns(rest: Store, store: Store, accepted: seq<CmdData>, first: seq<Exec>, c: Readings, d: Readings,
                      k: nat)
    requires RanDue(rest, store, accepted, first, c, d) && OneSlotEach(store) && OnceEach(first)
    requires TimesInRange(store) && k in store && StaysDue(store[k].deferred, c, d)
    ensures store[k].completion in Tickets(first)
  {
    hide RanDue, TimesInRange, StaysDue;
    if k in rest {
      StillStored(rest, store, accepted, first, c, d, k);
    }
    LeftIsExecuted(rest, store, accepted, first, c, d, k);
  }

  // ---------------------------------------------------------------- a whole call

  lemma TicketsSplit(more: seq<Exec>, n: nat)
    requires n <= |more|
    ensures Tickets(more) == Tickets(more[..n]) + Tickets(more[n..])
  {
    forall t ensures t in Tickets(more) <==> t in Tickets(more[..n]) || t in Tickets(more[n..]) {
      if t in Tickets(more) {
        var i :| 0 <= i < |more| && more[i].ticket == t;
        assert i >= n ==> more[n..][i - n].ticket == t;
        assert i < n ==> more[..n][i].ticket == t;
      }
      if t in Tickets(more[..n]) {
        var i :| 0 <= i < n && more[..n][i].ticket == t;
        assert more[i].ticket == t;
      }
      if t in Tickets(more[n..]) {
        var i :| 0 <= i < |more| - n && more[n..][i].ticket == t;
        assert more[n + i].ticket == t;
      }
    }
  }

  lemma OnceEachPart(executed: seq<Exec>, more: seq<Exec>, n: nat)
    requires OnceEach(executed + more) && n <= |more|
    ensures OnceEach(more[..n])
  {
    forall i, j | 0 <= i < j < n ensures more[..n][i].ticket != more[..n][j].ticket {
      assert (executed + more)[|executed| + i] == more[i] && (executed + more)[|executed| + j] == more[j];
    }
  }

  /** A command that is received is executed in the same call exactly if it is due when
      it is received; otherwise it is deferred afterwards. */
  lemma ReceivedIsRunOrStored(a: seq<CmdData>, b: seq<CmdData>, t: nat, u: nat, executed: seq<Exec>, more: seq<Exec>,
                              before: Store, after: Store, due: nat, rest: Store, c: Readings, mid: Readings,
                              d: Readings, i: nat)
    requires Accounted(a, t, executed, before, None, c) && Accounted(b, u, executed + more, after, None, d)
    requires Numbered(b) && t <= u <= |b| && i < u - t
    requires Split(due, rest, mid, before, b, b[t..u], more, c, d)
    ensures t + i in Tickets(more) <==> DueWhenReceived(b[t..u], i, mid)
    ensures t + i in StoredTickets(after) <==> !DueWhenReceived(b[t..u], i, mid)
  {
    assert b[t..u][i].completion == t + i;
    DistinctTickets(b, t, u);
    hide Accounted, Tickets, StoredTickets, DueWhenReceived, RanDue, Left, OnceEach;
    NewIsNotOld(a, t, executed, before, c, t + i);
    RunOrStored(b, u, executed, more, after, d, t + i);
    assert t + i !in Tickets(more[..due]) by {
      LeftAre(rest, before, b, more[..due], c, mid);
    }
    TicketsSplit(more, due);
    ReceivedRunExactly(b[t..u], more[due..], mid, d, i);
  }

  lemma DistinctTickets(b: seq<CmdData>, t: nat, u: nat)
    requires Numbered(b) && t <= u <= |b|
    ensures forall j, k :: 0 <= j < k < u - t ==> b[t..u][j].completion != b[t..u][k].completion
  {
    hide Sendable;
  }

  lemma NewIsNotOld(a: seq<CmdData>, t: nat, executed: seq<Exec>, before: Store, c: Readings, x: nat)
    requires Accounted(a, t, executed, before, None, c) && x >= t
    ensures x !in Tickets(executed) && x !in StoredTickets(before)
  {
    TicketsAreTaken(a, t, executed, before, c);
    assert x !in StoredTickets(before) + Tickets(executed);
  }

  lemma RunOrStored(b: seq<CmdData>, u: nat, executed: seq<Exec>, more: seq<Exec>, after: Store, d: Readings, x: nat)
    requires Accounted(b, u, executed + more, after, None, d) && x < u && x !in Tickets(executed)
    ensures x in StoredTickets(after) <==> x !in Tickets(more)
  {
    EachCommandInOnePlace(b, u, executed + more, after, d);
    TicketsSplit(executed + more, |executed|);
    assert (executed + more)[..|executed|] == executed && (executed + more)[|executed|..] == more;
    hide Accounted, Tickets, StoredTickets, OnceEach;
    assert x in StoredTickets(after) + Tickets(executed + more);
  }

  lemma LeftAre(rest: Store, store: Store, accepted: seq<CmdData>, first: seq<Exec>, c: Readings, d: Readings)
    requires RanDue(rest, store, accepted, first, c, d)
    ensures Tickets(first) <= StoredTickets(store)
  {
    hide EarliestFirst, NoneDue;
    LeftTickets(store, rest, first);
  }

  /** One call of process_events_with, when `before` was deferred and the first `t`
      accepted commands had been received, and afterwards `after` and `u`. Of the
      received commands it executes those that are due when received, and defers the
      others; of the deferred ones it executes all that stay due while it looks at
      them, if times are in range. `mid` is the clock between the two parts. */
  lemma CallDecides(a: seq<CmdData>, b: seq<CmdData>, t: nat, u: nat, executed: seq<Exec>, more: seq<Exec>,
                    before: Store, after: Store, c: Readings, d: Readings) returns (mid: Readings)
    requires Accounted(a, t, executed, before, None, c) && Accounted(b, u, executed + more, after, None, d)
    requires Numbered(b) && t <= u <= |b| && OneCall(before, b, b[t..u], more, c, d)
    ensures mid.time == c.time == d.time && c.count <= mid.count <= d.count
    ensures forall i: nat :: i < u - t ==>
      && (t + i in Tickets(more) <==> DueWhenReceived(b[t..u], i, mid))
      && (t + i in StoredTickets(after) <==> !DueWhenReceived(b[t..u], i, mid))
    ensures TimesInRange(before) ==>
      forall k :: k in before && StaysDue(before[k].deferred, c, mid) ==> before[k].completion in Tickets(more)
  {
    var due: nat, rest: Store, m: Readings :| Split(due, rest, m, before, b, b[t..u], more, c, d);
    mid := m;
    forall i: nat | i < u - t
      ensures t + i in Tickets(more) <==> DueWhenReceived(b[t..u], i, mid)
      ensures t + i in StoredTickets(after) <==> !DueWhenReceived(b[t..u], i, mid)
    {
      ReceivedIsRunOrStored(a, b, t, u, executed, more, before, after, due, rest, c, mid, d, i);
    }
    hide DueWhenReceived, StaysDue, TimesInRange, Tickets;
    if TimesInRange(before) {
      forall k | k in before && StaysDue(before[k].deferred, c, mid) ensures before[k].completion in Tickets(more) {
        OnceEachPart(executed, more, due);
        StoredDueRuns(rest, before, b, more[..due], c, mid, k);
        TicketsSplit(more, due);
      }
    }
  }

  // --------------------------------------------------------- readings of the clock

  /** Every execution of a command with a time has a reading of the clock to itself,
      made after those of the commands executed before it, and within the call. */
  ghost predicate OwnReadings(more: seq<Exec>, c: Readings, d: Readings) {
    && (forall i :: 0 <= i < |more| && more[i].reading.Some? ==> c.count <= more[i].reading.value < d.count)
    && forall i, j :: 0 <= i < j < |more| && more[i].reading.Some? && more[j].reading.Some? ==>
         more[i].reading.value < more[j].reading.value
  }

  lemma MoreTimed(cmds: seq<CmdData>, i: nat, j: nat)
    requires i < j <= |cmds| && cmds[i].deferred.UntilTime?
    ensures |TimedAmong(cmds[..i])| < |TimedAmong(cmds[..j])|
  {
    var a, b := TimedAmong(cmds[..i]), TimedAmong(cmds[..j]);
    assert i in b && i !in a && a <= b - {i};
    SubsetIsSmaller(a, b - {i});
  }

  lemma ReceivedReadings(cmds: seq<CmdData>, second: seq<Exec>, c: Readings, d: Readings)
    requires RanReceived(cmds, second, c, d)
    ensures OwnReadings(second, c, d) && c.count <= d.count
  {
    var picks := StartsAreDue(cmds, c);
    CountTimedIsSize(cmds);
    hide StartsNow, DueWhenReceived, TimedAmong;
    assert |second| == |Starts(second)| == |picks| && cmds[..|cmds|] == cmds;
    forall j | 0 <= j < |second| ensures second[j].reading == StartAt(cmds, picks[j], c).reading {
      assert Starts(second)[j] == StartsNow(cmds, c)[j];
    }
    forall i | 0 <= i < |second| && second[i].reading.Some?
      ensures c.count <= second[i].reading.value < d.count
    {
      MoreTimed(cmds, picks[i], |cmds|);
    }
    forall i, j | 0 <= i < j < |second| && second[i].reading.Some? && second[j].reading.Some?
      ensures second[i].reading.value < second[j].reading.value
    {
      MoreTimed(cmds, picks[i], picks[j]);
    }
  }

  lemma DueReadings(rest: Store, store: Store, accepted: seq<CmdData>, first: seq<Exec>, c: Readings, d: Readings)
    requires RanDue(rest, store, accepted, first, c, d)
    ensures OwnReadings(first, c, d) && c.count <= d.count
  {
    hide EarliestFirst, PartOf, Left, NoneDue;
  }

  lemma ReadingsInTurn(first: seq<Exec>, second: seq<Exec>, c: Readings, mid: Readings, d: Readings)
    requires OwnReadings(first, c, mid) && OwnReadings(second, mid, d) && c.count <= mid.count <= d.count
    ensures OwnReadings(first + second, c, d)
  {
    var more := first + second;
    forall i | 0 <= i < |more| ensures more[i] == if i < |first| then first[i] else second[i - |first|] {}
  }

  /** Over one call. */
  lemma {:induction false} CallHasOwnReadings(store: Store, accepted: seq<CmdData>, taken: seq<CmdData>,
                                              more: seq<Exec>, c: Readings, d: Readings)
    requires OneCall(store, accepted, taken, more, c, d)
    ensures OwnReadings(more, c, d)
  {
    hide RanDue, RanReceived, OwnReadings;
    var due: nat, rest: Store, mid: Readings :| Split(due, rest, mid, store, accepted, taken, more, c, d);
    DueReadings(rest, store, accepted, more[..due], c, mid);
    ReceivedReadings(taken, more[due..], mid, d);
    ReadingsInTurn(more[..due], more[due..], c, mid, d);
    assert more[..due] + more[due..] == more;
  }
}
