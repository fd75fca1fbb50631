/** How the heap of times, the slab of deferred commands and the record of what
    has been executed fit together. */
module DeferredQueues {
  import opened FlatStorages
  import opened Registry
  import opened Commands
  import opened Scheduling
  import opened MinHeaps

  type Store = map<nat, CmdData>

  /** An executed command: its completion callback has been called with `result`.
      `reading` is the number of the clock reading that let it start, if its time
      mattered at all. */
  datatype Exec = Exec(ticket: nat, reading: Option<nat>, result: Option<ReactorID>)

  // ----------------------------------------------------- heap and slab agree

  ghost predicate DistinctData(keys: Keys) {
    forall i, j :: 0 <= i < j < |keys| ==> keys[i].data != keys[j].data
  }

  /** The heap entry belongs to the command in its slot. */
  predicate Timed(key: DeferredKey, store: Store) {
    && key.data in store
    && store[key.data].deferred.UntilTime?
    && key.millis == Millis(store[key.data].deferred.nanos)
  }

  /** The heap's slots are pairwise distinct and are exactly the occupied ones. */
  ghost predicate Matched(keys: Keys, store: Store) {
    && DistinctData(keys)
    && |keys| == |store|
    && forall i :: 0 <= i < |keys| ==> Timed(keys[i], store)
  }

  ghost function DataSet(keys: Keys): set<nat> {
    set i | 0 <= i < |keys| :: keys[i].data
  }

  lemma {:induction false} DataSetSize(keys: Keys)
    requires DistinctData(keys)
    ensures |DataSet(keys)| == |keys|
    decreases |keys|
  {
    if keys != [] {
      var n := |keys| - 1;
      DataSetSize(keys[..n]);
      assert DataSet(keys) == DataSet(keys[..n]) + {keys[n].data};
    }
  }

  lemma SubsetIsAll(a: set<nat>, b: set<nat>)
    requires a <= b && |a| == |b|
    ensures a == b
  {
    assert |b - a| == |b| - |a|;
  }

  /** Every stored command is in the heap. */
  lemma MatchedIsBijection(keys: Keys, store: Store)
    requires Matched(keys, store)
    ensures DataSet(keys) == store.Keys
  {
    DataSetSize(keys);
    SubsetIsAll(DataSet(keys), store.Keys);
  }

  /** Being matched does not depend on the order of the heap. */
  lemma {:induction false} DistinctByCount(keys: Keys)
    ensures DistinctData(keys) <==> |DataSet(keys)| == |keys|
    decreases |keys|
  {
    if DistinctData(keys) {
      DataSetSize(keys);
    } else {
      DuplicateShrinks(keys);
    }
  }

  lemma {:induction false} DataSetBound(keys: Keys)
    ensures |DataSet(keys)| <= |keys|
    decreases |keys|
  {
    if keys != [] {
      var n := |keys| - 1;
      DataSetBound(keys[..n]);
      assert DataSet(keys) == DataSet(keys[..n]) + {keys[n].data};
    }
  }

  lemma DuplicateShrinks(keys: Keys)
    requires !DistinctData(keys)
    ensures |DataSet(keys)| < |keys|
  {
    var i, j :| 0 <= i < j < |keys| && keys[i].data == keys[j].data;
    var rest := keys[..j] + keys[j + 1..];
    DataSetBound(rest);
    forall x ensures x in DataSet(keys) <==> x in DataSet(rest) {
      if x in DataSet(keys) {
        var k :| 0 <= k < |keys| && keys[k].data == x;
        var k' := if k < j then k else if k == j then i else k - 1;
        assert rest[k'].data == x;
      }
      if x in DataSet(rest) {
        var k :| 0 <= k < |rest| && rest[k].data == x;
        assert keys[if k < j then k else k + 1].data == x;
      }
    }
    assert DataSet(keys) == DataSet(rest);
  }

  lemma MatchedReorders(keys: Keys, other: Keys, store: Store)
    requires Matched(keys, store) && multiset(keys) == multiset(other)
    ensures Matched(other, store)
  {
    SameMembers(keys, other);
    assert DataSet(keys) == DataSet(other) by {
      forall x ensures x in DataSet(keys) <==> x in DataSet(other) {
        if x in DataSet(keys) {
          var i :| 0 <= i < |keys| && keys[i].data == x;
          assert keys[i] in other;
        }
        if x in DataSet(other) {
          var i :| 0 <= i < |other| && other[i].data == x;
          assert other[i] in keys;
        }
      }
    }
    DistinctByCount(keys);
    DistinctByCount(other);
    forall i | 0 <= i < |other| ensures Timed(other[i], store) {
      assert other[i] in keys;
    }
  }

  lemma SameMembers(s: Keys, t: Keys)
    requires multiset(s) == multiset(t)
    ensures |s| == |t| && forall x :: x in s <==> x in t
  {
    assert |multiset(s)| == |s| && |multiset(t)| == |t|;
    forall x ensures x in s <==> x in t {
      assert x in s <==> x in multiset(s);
      assert x in t <==> x in multiset(t);
    }
  }

  /** Storing a command and pushing its time. */
  lemma MatchedPush(keys: Keys, store: Store, key: DeferredKey, cmd: CmdData)
    requires Matched(keys, store) && key.data !in store && Timed(key, store[key.data := cmd]) && IsHeap(keys)
    ensures Matched(SiftUp(keys + [key], |keys|), store[key.data := cmd])
    ensures IsHeap(SiftUp(keys + [key], |keys|))
  {
    var store' := store[key.data := cmd];
    assert Matched(keys + [key], store') by {
      forall i | 0 <= i < |keys| ensures Timed(keys[i], store') && keys[i].data != key.data {
        assert Timed(keys[i], store);
      }
    }
    PushKeepsHeap(keys, key);
    assert multiset(keys + [key]) == multiset(keys) + multiset{key};
    MatchedReorders(keys + [key], SiftUp(keys + [key], |keys|), store');
  }

  lemma MatchedTail(keys: Keys, store: Store)
    requires Matched(keys, store) && keys != []
    ensures keys[0].data in store && Matched(keys[1..], store - {keys[0].data})
  {
    assert Timed(keys[0], store);
    MapShrinks(store, keys[0].data);
    forall i | 0 <= i < |keys| - 1 ensures Timed(keys[1..][i], store - {keys[0].data}) {
      assert Timed(keys[i + 1], store) && keys[0].data != keys[i + 1].data;
    }
  }

  lemma TailIsRest(keys: Keys)
    requires IsHeap(keys) && keys != []
    ensures multiset(keys[1..]) == multiset(Rest(keys))
    ensures forall i :: 0 <= i < |Rest(keys)| ==> keys[0].millis <= Rest(keys)[i].millis
  {
    hide IsHeap, Rest, PopIntended;
    DeleteMin(keys);
    assert keys == [keys[0]] + keys[1..];
    assert multiset(keys) == multiset{keys[0]} + multiset(keys[1..]);
    SmallestOfPart(keys[0], keys, Rest(keys));
  }

  /** Taking the command of the popped time out of the slab. */
  lemma MatchedPop(keys: Keys, store: Store)
    requires Matched(keys, store) && IsHeap(keys) && keys != []
    ensures keys[0].data in store
    ensures Matched(Rest(keys), store - {keys[0].data}) && IsHeap(Rest(keys))
    ensures forall i :: 0 <= i < |Rest(keys)| ==> keys[0].millis <= Rest(keys)[i].millis
  {
    hide Matched, IsHeap, PopIntended;
    MatchedTail(keys, store);
    TailIsRest(keys);
    RestIsHeap(keys);
    MatchedReorders(keys[1..], Rest(keys), store - {keys[0].data});
  }

  lemma AsWrittenKeepsRoot(keys: Keys)
    requires |keys| > 1
    ensures keys[0] in PopAsWritten(keys)[..|keys| - 1]
  {
    var n := |keys| - 1;
    AsWrittenLosesLast(keys);
    assert keys == keys[..n] + [keys[n]];
    assert keys[..n][0] == keys[0];
    SameMembers(keys[..n], PopAsWritten(keys)[..n]);
  }

  /** With the pop as written, heap and slab still agree after one command has
      been taken if and only if it was the only one. Otherwise the popped time is
      still in the heap while its slot is vacant. */
  lemma AsWrittenStaysMatched(keys: Keys, store: Store)
    requires Matched(keys, store) && keys != []
    ensures var n := |keys| - 1; var rest := PopAsWritten(keys)[..n];
      && (Matched(rest, store - {keys[0].data}) <==> n == 0)
      && (n > 0 ==> keys[0] in rest && keys[0].data !in store - {keys[0].data})
  {
    var n := |keys| - 1;
    var rest := PopAsWritten(keys)[..n];
    hide PopAsWritten;
    MatchedTail(keys, store);
    if n == 0 {
      assert rest == keys[1..];
    } else {
      AsWrittenKeepsRoot(keys);
      var i :| 0 <= i < |rest| && rest[i] == keys[0];
      assert !Timed(rest[i], store - {keys[0].data});
    }
  }

  /** Whether process_deferred_queue, with the pop as written, reaches its panic:
      on the heap `keys` and the occupied `slots`, when the clock's next reading
      is number `n`. The popped slot is emptied in each turn of the loop. */
  predicate Panics(keys: Keys, slots: set<nat>, time: nat -> int, n: nat)
    decreases |keys|
  {
    && keys != [] && IsDeferredCurrent(keys[0].millis, time(n))
    && (keys[0].data !in slots
        || Panics(PopAsWritten(keys)[..|keys| - 1], slots - {keys[0].data}, time, n + 1))
  }

  /** Every entry is due at each reading of the clock from number `n` on. */
  ghost predicate AlwaysDue(keys: Keys, time: nat -> int, n: nat) {
    forall i, m: nat :: 0 <= i < |keys| && m >= n ==> IsDeferredCurrent(keys[i].millis, time(m))
  }

  lemma AsWrittenMembers(keys: Keys)
    requires keys != []
    ensures forall x :: x in PopAsWritten(keys)[..|keys| - 1] ==> x in keys
  {
    var rest := PopAsWritten(keys)[..|keys| - 1];
    AsWrittenLosesLast(keys);
    hide PopAsWritten;
    forall x | x in rest ensures x in keys {
      assert x in multiset(rest);
      assert x in multiset(keys);
    }
  }

  lemma PartOfData(some: Keys, all: Keys)
    requires forall x :: x in some ==> x in all
    ensures DataSet(some) <= DataSet(all)
  {
    forall d | d in DataSet(some) ensures d in DataSet(all) {
      var i :| 0 <= i < |some| && some[i].data == d;
      assert some[i] in all;
      var j :| 0 <= j < |all| && all[j] == some[i];
    }
  }

  lemma PartIsDue(some: Keys, all: Keys, time: nat -> int, n: nat)
    requires (forall x :: x in some ==> x in all) && AlwaysDue(all, time, n)
    ensures AlwaysDue(some, time, n + 1)
  {
    hide IsDeferredCurrent;
    forall i, m: nat | 0 <= i < |some| && m >= n + 1 ensures IsDeferredCurrent(some[i].millis, time(m)) {
      assert some[i] in all;
      var j :| 0 <= j < |all| && all[j] == some[i];
    }
  }

  /** The entries after a pop as written are among those before. */
  lemma AsWrittenAddsNothing(keys: Keys, time: nat -> int, n: nat)
    requires keys != []
    ensures var rest := PopAsWritten(keys)[..|keys| - 1];
      DataSet(rest) <= DataSet(keys) && (AlwaysDue(keys, time, n) ==> AlwaysDue(rest, time, n + 1))
  {
    hide PopAsWritten, DataSet, AlwaysDue;
    var rest := PopAsWritten(keys)[..|keys| - 1];
    AsWrittenMembers(keys);
    PartOfData(rest, keys);
    if AlwaysDue(keys, time, n) {
      PartIsDue(rest, keys, time, n);
    }
  }

  /** Without a panic each entry empties a slot of its own. */
  lemma {:induction false} QuietEmptiesSlots(keys: Keys, slots: set<nat>, time: nat -> int, n: nat)
    requires AlwaysDue(keys, time, n) && !Panics(keys, slots, time, n)
    ensures |keys| <= |DataSet(keys) * slots|
    decreases |keys|
  {
    if keys != [] {
      var d, rest := keys[0].data, PopAsWritten(keys)[..|keys| - 1];
      AsWrittenAddsNothing(keys, time, n);
      assert IsDeferredCurrent(keys[0].millis, time(n));
      hide PopAsWritten, AlwaysDue, IsDeferredCurrent;
      QuietEmptiesSlots(rest, slots - {d}, time, n + 1);
      assert d in DataSet(keys);
      assert DataSet(rest) * (slots - {d}) <= DataSet(keys) * slots - {d};
      SubsetIsSmaller(DataSet(rest) * (slots - {d}), DataSet(keys) * slots - {d});
    }
  }

  lemma SubsetIsSmaller(a: set<nat>, b: set<nat>)
    requires a <= b
    ensures |a| <= |b|
  {
    assert |b - a| == |b| - |a|;
  }

  /** An entry whose slot is already empty leads to the panic. */
  lemma EmptySlotPanics(keys: Keys, slots: set<nat>, time: nat -> int, n: nat, i: nat)
    requires AlwaysDue(keys, time, n) && i < |keys| && keys[i].data !in slots
    ensures Panics(keys, slots, time, n)
  {
    hide AlwaysDue, Panics;
    if !Panics(keys, slots, time, n) {
      QuietEmptiesSlots(keys, slots, time, n);
      DataSetBound(keys);
      var d := keys[i].data;
      assert d in DataSet(keys);
      SubsetIsSmaller(DataSet(keys) * slots, DataSet(keys) - {d});
      assert false;
    }
  }

  /** As written, once all deferred commands are due, the source's panic is reached
      if and only if there are at least two of them. */
  lemma AsWrittenPanics(keys: Keys, store: Store, time: nat -> int, n: nat)
    requires Matched(keys, store) && AlwaysDue(keys, time, n)
    ensures Panics(keys, store.Keys, time, n) <==> |keys| >= 2
  {
    if keys != [] {
      var d, rest := keys[0].data, PopAsWritten(keys)[..|keys| - 1];
      assert Timed(keys[0], store) && IsDeferredCurrent(keys[0].millis, time(n));
      AsWrittenAddsNothing(keys, time, n);
      hide PopAsWritten, AlwaysDue, IsDeferredCurrent, Matched;
      if |keys| >= 2 {
        AsWrittenKeepsRoot(keys);
        var i :| 0 <= i < |rest| && rest[i] == keys[0];
        EmptySlotPanics(rest, store.Keys - {d}, time, n + 1, i);
      } else {
        assert rest == [];
      }
    }
  }

  // ----------------------------------------------------- nothing is lost

  ghost function Tickets(executed: seq<Exec>): set<nat> {
    set i | 0 <= i < |executed| :: executed[i].ticket
  }

  ghost predicate OnceEach(executed: seq<Exec>) {
    forall i, j :: 0 <= i < j < |executed| ==> executed[i].ticket != executed[j].ticket
  }

  /** A command that is neither waiting in the channel nor executed. */
  predicate InHand(cmd: CmdData, accepted: seq<CmdData>, taken: nat) {
    cmd.completion < taken <= |accepted| && accepted[cmd.completion] == cmd
  }

  /** An executed command was received, and the clock had let it start. */
  predicate RanInTime(e: Exec, accepted: seq<CmdData>, taken: nat, c: Readings) {
    e.ticket < taken <= |accepted| && MayStart(accepted[e.ticket].deferred, e.reading, c)
  }

  ghost predicate OneSlotEach(store: Store) {
    forall j, k :: j in store && k in store && j != k ==> store[j].completion != store[k].completion
  }

  /** A received command that has not been executed. */
  ghost predicate Unexecuted(cmd: CmdData, accepted: seq<CmdData>, taken: nat, executed: seq<Exec>) {
    InHand(cmd, accepted, taken) && cmd.completion !in Tickets(executed)
  }

  /** Each of the first `taken` accepted commands has been executed once, or is in
      the store, or is the one `held`; they are counted rather than listed. */
  ghost predicate Accounted(accepted: seq<CmdData>, taken: nat, executed: seq<Exec>, store: Store,
                            held: Option<CmdData>, c: Readings) {
    && OnceEach(executed)
    && (forall i :: 0 <= i < |executed| ==> RanInTime(executed[i], accepted, taken, c))
    && (forall k :: k in store ==> Unexecuted(store[k], accepted, taken, executed))
    && OneSlotEach(store)
    && (held.Some? ==>
          && Unexecuted(held.value, accepted, taken, executed)
          && forall k :: k in store ==> store[k].completion != held.value.completion)
    && taken == |executed| + |store| + (if held.Some? then 1 else 0)
  }

  ghost function StoredTickets(store: Store): set<nat> {
    set k | k in store :: store[k].completion
  }

  lemma {:induction false} StoredSize(store: Store)
    requires OneSlotEach(store)
    ensures |StoredTickets(store)| == |store|
    decreases |store|
  {
    if store != map[] {
      var k :| k in store;
      MapShrinks(store, k);
      StoredSize(store - {k});
      var t, rest := store[k].completion, store - {k};
      forall x ensures x in StoredTickets(store) <==> x in StoredTickets(rest) + {t} {
        if x in StoredTickets(store) {
          var j :| j in store && store[j].completion == x;
          assert j == k || j in rest;
        }
        if x in StoredTickets(rest) {
          var j :| j in rest && rest[j].completion == x;
          assert j in store;
        }
      }
      assert StoredTickets(store) == StoredTickets(rest) + {t};
      assert t !in StoredTickets(rest);
    }
  }

  lemma {:induction false} ExecutedSize(executed: seq<Exec>)
    requires OnceEach(executed)
    ensures |Tickets(executed)| == |executed|
    decreases |executed|
  {
    if executed != [] {
      var n := |executed| - 1;
      ExecutedSize(executed[..n]);
      assert Tickets(executed) == Tickets(executed[..n]) + {executed[n].ticket};
    }
  }

  /** Between calls, each accepted command is in exactly one place: still in the
      channel, deferred, or executed, and then exactly once. */
  lemma EachCommandInOnePlace(accepted: seq<CmdData>, taken: nat, executed: seq<Exec>, store: Store, c: Readings)
    requires Accounted(accepted, taken, executed, store, None, c)
    ensures OnceEach(executed)
    ensures StoredTickets(store) !! Tickets(executed)
    ensures forall t: nat :: t < taken <==> t in StoredTickets(store) + Tickets(executed)
  {
    var stored, done := StoredTickets(store), Tickets(executed);
    TicketsAreTaken(accepted, taken, executed, store, c);
    StoredSize(store);
    ExecutedSize(executed);
    assert |stored + done| == |stored| + |done| == taken;
    hide StoredTickets, Tickets, Accounted;
    AllBelow(stored + done, taken);
  }

  lemma AllBelow(s: set<nat>, n: nat)
    requires |s| == n && forall t :: t in s ==> t < n
    ensures forall t: nat :: t < n <==> t in s
  {
    SlotsSize(n);
    assert s <= Slots(n) by {
      assert forall t :: t in s ==> Below(t, n);
    }
    SubsetIsAll(s, Slots(n));
    assert forall t: nat :: t < n ==> Below(t, n);
  }

  lemma TicketsAreTaken(accepted: seq<CmdData>, taken: nat, executed: seq<Exec>, store: Store, c: Readings)
    requires Accounted(accepted, taken, executed, store, None, c)
    ensures StoredTickets(store) !! Tickets(executed)
    ensures forall t :: t in StoredTickets(store) + Tickets(executed) ==> t < taken
  {
    forall t | t in Tickets(executed) ensures t < taken {
      var i :| 0 <= i < |executed| && executed[i].ticket == t;
      assert RanInTime(executed[i], accepted, taken, c);
    }
    forall t | t in StoredTickets(store) ensures t < taken && t !in Tickets(executed) {
      var k :| k in store && store[k].completion == t;
      assert Unexecuted(store[k], accepted, taken, executed);
    }
  }

  /** Later acceptances and receipts change nothing about the commands so far. */
  lemma FactsGrow(a: seq<CmdData>, b: seq<CmdData>, m: nat, n: nat, executed: seq<Exec>, store: Store,
                  held: Option<CmdData>, c: Readings)
    requires Accounted(a, m, executed, store, held, c) && a <= b && m <= n <= |b| && m <= |a|
    ensures forall i :: 0 <= i < |executed| ==> RanInTime(executed[i], b, n, c)
    ensures forall k :: k in store ==> Unexecuted(store[k], b, n, executed)
  {
    forall i | 0 <= i < |executed| ensures RanInTime(executed[i], b, n, c) {
      assert RanInTime(executed[i], a, m, c);
    }
    forall k | k in store ensures Unexecuted(store[k], b, n, executed) {
      assert Unexecuted(store[k], a, m, executed);
    }
  }

  lemma AccountedGrows(a: seq<CmdData>, b: seq<CmdData>, taken: nat, executed: seq<Exec>, store: Store,
                       held: Option<CmdData>, c: Readings)
    requires a <= b && Accounted(a, taken, executed, store, held, c) && taken <= |a|
    ensures Accounted(b, taken, executed, store, held, c)
  {
    FactsGrow(a, b, taken, taken, executed, store, held, c);
  }

  /** Nor do later readings of the clock. */
  lemma AccountedReads(accepted: seq<CmdData>, taken: nat, executed: seq<Exec>, store: Store, held: Option<CmdData>,
                       c: Readings, d: Readings)
    requires Accounted(accepted, taken, executed, store, held, c) && d.time == c.time && c.count <= d.count
    ensures Accounted(accepted, taken, executed, store, held, d)
  {
    forall i | 0 <= i < |executed| ensures RanInTime(executed[i], accepted, taken, d) {
      assert RanInTime(executed[i], accepted, taken, c);
    }
  }

  lemma AccountedTakes(accepted: seq<CmdData>, taken: nat, executed: seq<Exec>, store: Store, c: Readings)
    requires Accounted(accepted, taken, executed, store, None, c) && taken < |accepted| && Numbered(accepted)
    ensures Accounted(accepted, taken + 1, executed, store, Some(accepted[taken]), c)
  {
    FactsGrow(accepted, accepted, taken, taken + 1, executed, store, None, c);
    TicketsAreTaken(accepted, taken, executed, store, c);
    forall k | k in store ensures store[k].completion != accepted[taken].completion {
      assert Unexecuted(store[k], accepted, taken, executed);
    }
  }

  lemma TicketsAppend(executed: seq<Exec>, e: Exec)
    ensures Tickets(executed + [e]) == Tickets(executed) + {e.ticket}
  {
    var more := executed + [e];
    forall t ensures t in Tickets(more) <==> t in Tickets(executed) || t == e.ticket {
      if t in Tickets(executed) {
        var i :| 0 <= i < |executed| && executed[i].ticket == t;
        assert more[i].ticket == t;
      }
      assert more[|executed|].ticket == e.ticket;
    }
  }

  lemma AccountedExecutes(accepted: seq<CmdData>, taken: nat, executed: seq<Exec>, store: Store,
                          cmd: CmdData, e: Exec, c: Readings)
    requires Accounted(accepted, taken, executed, store, Some(cmd), c)
    requires e.ticket == cmd.completion && MayStart(cmd.deferred, e.reading, c)
    ensures Accounted(accepted, taken, executed + [e], store, None, c)
  {
    TicketsAppend(executed, e);
    assert Unexecuted(cmd, accepted, taken, executed);
    forall i | 0 <= i < |executed| ensures executed[i].ticket != e.ticket {
      assert executed[i].ticket in Tickets(executed);
    }
    forall k | k in store ensures Unexecuted(store[k], accepted, taken, executed + [e]) {
      assert Unexecuted(store[k], accepted, taken, executed);
    }
    forall i | 0 <= i <= |executed| ensures RanInTime((executed + [e])[i], accepted, taken, c) {
      assert i < |executed| ==> RanInTime(executed[i], accepted, taken, c);
    }
  }

  lemma AccountedStores(accepted: seq<CmdData>, taken: nat, executed: seq<Exec>, store: Store,
                        cmd: CmdData, key: nat, c: Readings)
    requires Accounted(accepted, taken, executed, store, Some(cmd), c) && key !in store
    ensures Accounted(accepted, taken, executed, store[key := cmd], None, c)
  {
    var store' := store[key := cmd];
    assert |store'| == |store| + 1 by {
      assert store' - {key} == store;
      MapShrinks(store', key);
    }
    forall k | k in store' ensures Unexecuted(store'[k], accepted, taken, executed) {
      assert k != key ==> k in store;
    }
    forall j, k | j in store' && k in store' && j != k ensures store'[j].completion != store'[k].completion {
      assert j != key ==> j in store;
      assert k != key ==> k in store;
    }
  }

  lemma AccountedFetches(accepted: seq<CmdData>, taken: nat, executed: seq<Exec>, store: Store, key: nat, c: Readings)
    requires Accounted(accepted, taken, executed, store, None, c) && key in store
    ensures Accounted(accepted, taken, executed, store - {key}, Some(store[key]), c)
  {
    var rest := store - {key};
    MapShrinks(store, key);
    assert Unexecuted(store[key], accepted, taken, executed);
    forall k | k in rest
      ensures rest[k].completion != store[key].completion && Unexecuted(rest[k], accepted, taken, executed)
    {
      assert k in store && k != key && Unexecuted(store[k], accepted, taken, executed);
    }
    assert OneSlotEach(rest) by {
      forall j, k | j in rest && k in rest && j != k ensures rest[j].completion != rest[k].completion {
        assert j in store && k in store;
      }
    }
  }

  // --------------------------------------------------- the order of execution

  /** The millisecond for which an executed command was deferred. */
  function DueMillis(accepted: seq<CmdData>, e: Exec): int {
    if e.ticket < |accepted| && accepted[e.ticket].deferred.UntilTime?
    then Millis(accepted[e.ticket].deferred.nanos)
    else 0
  }

  /** Commands were executed in order of their times, none of which is later than
      `bound`. */
  ghost predicate InTimeOrder(accepted: seq<CmdData>, first: seq<Exec>, bound: int) {
    && (forall i, j :: 0 <= i < j < |first| ==> DueMillis(accepted, first[i]) <= DueMillis(accepted, first[j]))
    && (forall i :: 0 <= i < |first| ==> first[i].ticket < |accepted| && DueMillis(accepted, first[i]) <= bound)
  }

  lemma InTimeOrderGrows(a: seq<CmdData>, b: seq<CmdData>, first: seq<Exec>, bound: int, later: int)
    requires InTimeOrder(a, first, bound) && a <= b && bound <= later
    ensures InTimeOrder(b, first, later)
  {
    assert forall i :: 0 <= i < |first| ==> DueMillis(a, first[i]) == DueMillis(b, first[i]);
  }

  lemma InTimeOrderAppends(accepted: seq<CmdData>, first: seq<Exec>, e: Exec)
    requires e.ticket < |accepted| && InTimeOrder(accepted, first, DueMillis(accepted, e))
    ensures InTimeOrder(accepted, first + [e], DueMillis(accepted, e))
  {}

  /** The start of a command: after which reading of the clock, if any. */
  datatype Start = Start(ticket: nat, reading: Option<nat>)

  /** How many of these commands have a time, for which the clock is read. */
  function CountTimed(cmds: seq<CmdData>): nat {
    if cmds == [] then 0
    else
      var n := |cmds| - 1;
      CountTimed(cmds[..n]) + if cmds[n].deferred.UntilTime? then 1 else 0
  }

  /** Of the commands received when the next reading is number `c.count`, those
      that start at once, in order. */
  function StartsNow(cmds: seq<CmdData>, c: Readings): seq<Start> {
    if cmds == [] then []
    else
      var n := |cmds| - 1;
      StartsNow(cmds[..n], c) + StartOf(cmds[n], c.(count := c.count + CountTimed(cmds[..n])))
  }

  function StartOf(cmd: CmdData, c: Readings): seq<Start> {
    match cmd.deferred
    case Immediate => [Start(cmd.completion, None)]
    case UntilTime(_) =>
      if Runnable(cmd.deferred, c.time(c.count)) then [Start(cmd.completion, Some(c.count))] else []
  }

  lemma {:induction false} LastStart(cmds: seq<CmdData>, c: Readings)
    requires cmds != []
    ensures var n := |cmds| - 1;
      && StartsNow(cmds, c) == StartsNow(cmds[..n], c) + StartOf(cmds[n], c.(count := c.count + CountTimed(cmds[..n])))
      && CountTimed(cmds) == CountTimed(cmds[..n]) + if cmds[n].deferred.UntilTime? then 1 else 0
  {
    hide StartOf;
  }

  lemma {:induction false} StartsNowAppends(cmds: seq<CmdData>, cmd: CmdData, c: Readings)
    ensures CountTimed(cmds + [cmd]) == CountTimed(cmds) + if cmd.deferred.UntilTime? then 1 else 0
    ensures StartsNow(cmds + [cmd], c)
      == StartsNow(cmds, c) + StartOf(cmd, c.(count := c.count + CountTimed(cmds)))
  {
    hide StartOf, StartsNow, CountTimed;
    LastStart(cmds + [cmd], c);
    assert (cmds + [cmd])[..|cmds|] == cmds;
  }

  function Starts(executed: seq<Exec>): seq<Start> {
    seq(|executed|, i requires 0 <= i < |executed| => Start(executed[i].ticket, executed[i].reading))
  }

  // ----------------------------------------------------------- nothing is due

  /** The stored times are small enough to be handled exactly. */
  ghost predicate TimesInRange(store: Store) {
    forall k :: k in store && store[k].deferred.UntilTime? ==> store[k].deferred.nanos / 1_000_000 <= MAX_MILLIS
  }

  /** No stored command may run when the clock shows `now`, if times are in range. */
  ghost predicate NoneDue(store: Store, now: int) {
    TimesInRange(store) ==> forall k :: k in store ==> !Runnable(store[k].deferred, now)
  }

  /** If the earliest time in the heap is not due, no stored command is. */
  lemma NothingStoredIsDue(keys: Keys, store: Store, now: int)
    requires Matched(keys, store) && IsHeap(keys) && keys != []
    requires !IsDeferredCurrent(keys[0].millis, now)
    ensures NoneDue(store, now)
  {
    RootIsSmallestOfAll(keys);
    MatchedIsBijection(keys, store);
    assert Timed(keys[0], store);
    if TimesInRange(store) {
      forall k | k in store ensures !Runnable(store[k].deferred, now) {
        assert k in DataSet(keys);
        var i :| 0 <= i < |keys| && keys[i].data == k;
        assert Timed(keys[i], store);
        AsI64IsExact(store[k].deferred.nanos / 1_000_000);
        AsI64IsExact(store[keys[0].data].deferred.nanos / 1_000_000);
        DueIsMonotone(keys[0].millis, keys[i].millis, now);
      }
    }
  }

  /** `a` holds some of the commands of `b`. */
  ghost predicate PartOf(a: Store, b: Store) {
    forall k :: k in a ==> k in b && a[k] == b[k]
  }

  lemma PartOfPart(a: Store, b: Store, c: Store)
    requires PartOf(a, b) && PartOf(b, c)
    ensures PartOf(a, c)
  {}

  lemma {:induction false} StoredIn(t: nat, store: Store) returns (k: nat)
    requires t in StoredTickets(store)
    ensures k in store && store[k].completion == t
  {
    k :| k in store && store[k].completion == t;
  }

  lemma PartOfTickets(a: Store, b: Store)
    requires PartOf(a, b)
    ensures StoredTickets(a) <= StoredTickets(b)
  {
    forall t | t in StoredTickets(a) ensures t in StoredTickets(b) {
      var k := StoredIn(t, a);
      assert k in b && b[k].completion == t;
    }
  }

  /** The command `t` was stored and is no longer. */
  ghost predicate Left(t: nat, before: Store, after: Store) {
    t in StoredTickets(before) && t !in StoredTickets(after)
  }

  lemma FetchedLeft(accepted: seq<CmdData>, taken: nat, executed: seq<Exec>, store: Store, key: nat, c: Readings)
    requires Accounted(accepted, taken, executed, store, None, c) && key in store
    ensures Left(store[key].completion, store, store - {key})
  {
    var t, rest := store[key].completion, store - {key};
    forall k | k in rest ensures rest[k].completion != t {
      assert k in store && k != key;
    }
  }

  lemma LeftFurther(t: nat, a: Store, b: Store, c: Store)
    requires PartOf(b, a) && PartOf(c, b) && (Left(t, a, b) || Left(t, b, c))
    ensures Left(t, a, c)
  {
    PartOfTickets(b, a);
    PartOfTickets(c, b);
  }

  /** The millisecond of a stored command. */
  function StoredMillis(cmd: CmdData): int {
    if cmd.deferred.UntilTime? then Millis(cmd.deferred.nanos) else 0
  }

  /** Commands were executed in order of their times, all of them no later than any
      that is left. */
  ghost predicate EarliestFirst(accepted: seq<CmdData>, first: seq<Exec>, rest: Store) {
    && (forall i :: 0 <= i < |first| ==> first[i].ticket < |accepted|)
    && (forall i, j :: 0 <= i < j < |first| ==> DueMillis(accepted, first[i]) <= DueMillis(accepted, first[j]))
    && (forall i, k :: 0 <= i < |first| && k in rest ==> DueMillis(accepted, first[i]) <= StoredMillis(rest[k]))
  }

  lemma IsEarliestFirst(accepted: seq<CmdData>, first: seq<Exec>, bound: int, keys: Keys, rest: Store)
    requires InTimeOrder(accepted, first, bound) && Matched(keys, rest)
    requires forall i :: 0 <= i < |keys| ==> bound <= keys[i].millis
    ensures EarliestFirst(accepted, first, rest)
  {
    MatchedIsBijection(keys, rest);
    forall k | k in rest ensures bound <= StoredMillis(rest[k]) {
      assert k in DataSet(keys);
      var i :| 0 <= i < |keys| && keys[i].data == k;
      assert Timed(keys[i], rest);
    }
  }

  lemma EarliestFirstGrows(a: seq<CmdData>, b: seq<CmdData>, first: seq<Exec>, rest: Store)
    requires EarliestFirst(a, first, rest) && a <= b
    ensures EarliestFirst(b, first, rest)
  {
    assert forall i :: 0 <= i < |first| ==> DueMillis(a, first[i]) == DueMillis(b, first[i]);
  }

  // ------------------------------------------------------------ one whole call

  /** The executions `first` of commands that have left the store, the earliest first
      and each at a reading of its own, until none of the `rest` was due at the last
      of these readings. */
  ghost predicate RanDue(rest: Store, store: Store, accepted: seq<CmdData>, first: seq<Exec>, c: Readings,
                         d: Readings) {
    && PartOf(rest, store) && |store| == |rest| + |first|
    && (forall i :: 0 <= i < |first| ==> first[i].reading == Some(c.count + i) && Left(first[i].ticket, store, rest))
    && EarliestFirst(accepted, first, rest)
    && d == c.(count := c.count + |first| + if rest == map[] then 0 else 1)
    && (rest != map[] ==> NoneDue(rest, d.time(d.count - 1)))
  }

  /** The executions `second` of those received commands that may start. */
  ghost predicate RanReceived(taken: seq<CmdData>, second: seq<Exec>, c: Readings, d: Readings) {
    Starts(second) == StartsNow(taken, c) && d == c.(count := c.count + CountTimed(taken))
  }

  ghost predicate Split(due: nat, rest: Store, mid: Readings, store: Store, accepted: seq<CmdData>,
                        taken: seq<CmdData>, more: seq<Exec>, c: Readings, d: Readings) {
    && due <= |more| && RanDue(rest, store, accepted, more[..due], c, mid)
    && RanReceived(taken, more[due..], mid, d)
  }

  /** The executions `more` of one call, when `store` was deferred before it and the
      commands `taken` are received in it: first deferred ones, then received ones. */
  ghost predicate OneCall(store: Store, accepted: seq<CmdData>, taken: seq<CmdData>, more: seq<Exec>, c: Readings,
                          d: Readings) {
    exists due: nat, rest: Store, mid: Readings :: Split(due, rest, mid, store, accepted, taken, more, c, d)
  }

  /** The same while the loop of process_deferred_queue is under way: so far all
      times were at most `bound`. */
  ghost predicate DueSoFar(rest: Store, store: Store, accepted: seq<CmdData>, first: seq<Exec>, bound: int,
                           c: Readings) {
    && PartOf(rest, store) && |store| == |rest| + |first|
    && (forall i :: 0 <= i < |first| ==> first[i].reading == Some(c.count + i) && Left(first[i].ticket, store, rest))
    && InTimeOrder(accepted, first, bound)
  }

  lemma NoneDueSoFar(store: Store, accepted: seq<CmdData>, executed: seq<Exec>, bound: int, c: Readings)
    ensures DueSoFar(store, store, accepted, executed[|executed|..], bound, c)
  {}

  lemma OneMoreInOrder(a: seq<CmdData>, b: seq<CmdData>, first: seq<Exec>, bound: int, cmd: CmdData, e: Exec)
    requires InTimeOrder(a, first, bound) && a <= b && InHand(cmd, a, |a|) && e.ticket == cmd.completion
    requires cmd.deferred.UntilTime? && bound <= Millis(cmd.deferred.nanos)
    ensures InTimeOrder(b, first + [e], Millis(cmd.deferred.nanos))
  {
    InTimeOrderGrows(a, b, first, bound, Millis(cmd.deferred.nanos));
    InTimeOrderAppends(b, first, e);
  }

  lemma {:induction false} DueFurther(rest: Store, mid: Store, store: Store, a: seq<CmdData>, b: seq<CmdData>,
                                      first: seq<Exec>, bound: int, c: Readings, cmd: CmdData, e: Exec)
    requires DueSoFar(mid, store, a, first, bound, c) && a <= b && InHand(cmd, a, |a|)
    requires PartOf(rest, mid) && |mid| == |rest| + 1 && Left(cmd.completion, mid, rest)
    requires cmd.deferred.UntilTime? && bound <= Millis(cmd.deferred.nanos)
    requires e.ticket == cmd.completion && e.reading == Some(c.count + |first|)
    ensures DueSoFar(rest, store, b, first + [e], Millis(cmd.deferred.nanos), c)
  {
    hide InTimeOrder, PartOf, Left, Millis;
    OneMoreInOrder(a, b, first, bound, cmd, e);
    PartOfPart(rest, mid, store);
    forall i | 0 <= i <= |first|
      ensures (first + [e])[i].reading == Some(c.count + i) && Left((first + [e])[i].ticket, store, rest)
    {
      LeftFurther((first + [e])[i].ticket, store, mid, rest);
    }
  }

  lemma IsRanDue(rest: Store, store: Store, accepted: seq<CmdData>, first: seq<Exec>, bound: int, keys: Keys,
                 c: Readings, d: Readings)
    requires DueSoFar(rest, store, accepted, first, bound, c) && Matched(keys, rest)
    requires forall i :: 0 <= i < |keys| ==> bound <= keys[i].millis
    requires d == c.(count := c.count + |first| + if keys == [] then 0 else 1)
    requires keys != [] ==> NoneDue(rest, d.time(d.count - 1))
    ensures RanDue(rest, store, accepted, first, c, d)
  {
    hide PartOf, Left, InTimeOrder, NoneDue, EarliestFirst;
    IsEarliestFirst(accepted, first, bound, keys, rest);
    assert keys == [] <==> rest == map[];
  }

  lemma RanDueGrows(rest: Store, store: Store, a: seq<CmdData>, b: seq<CmdData>, first: seq<Exec>, c: Readings,
                    d: Readings)
    requires RanDue(rest, store, a, first, c, d) && a <= b
    ensures RanDue(rest, store, b, first, c, d)
  {
    hide EarliestFirst;
    EarliestFirstGrows(a, b, first, rest);
  }
}
