/** The handlers of src/reactor.rs, their identifiers, and what the poller knows
    about them. */
module Registry {

  /** One past the largest half word. */
  const HALF: nat := 0x1_0000_0000

  const MAX_HALF: nat := HALF - 1

  datatype ReactorID = ReactorID(sockslot: nat, ver: nat)

  const INVALID_REACTOR_ID := ReactorID(MAX_HALF, MAX_HALF)

  /** The event key: `ver` shifted by half a word, or'ed with the slot. */
  function ToUsize(id: ReactorID): nat { id.ver * HALF + id.sockslot }

  function FromUsize(key: nat): ReactorID { ReactorID(key % HALF, key / HALF % HALF) }

  predicate InHalves(id: ReactorID) { id.sockslot < HALF && id.ver < HALF }

  lemma KeyRoundTrip(id: ReactorID)
    requires InHalves(id)
    ensures FromUsize(ToUsize(id)) == id
  {}

  /** The slot is the lower half of the key, `ver` the upper half. */
  lemma KeyLayout(id: ReactorID)
    requires InHalves(id)
    ensures ToUsize(id) % HALF == id.sockslot && ToUsize(id) / HALF == id.ver && ToUsize(id) < HALF * HALF
  {}

  lemma IdRoundTrip(key: nat)
    requires key < HALF * HALF
    ensures InHalves(FromUsize(key)) && ToUsize(FromUsize(key)) == key
  {}

  /** `queued` is the number of bytes in the send buffer of a stream, `broken` its
      close_or_error flag. Sockets are known by their descriptors. */
  datatype Handler =
    | ListenerType(id: ReactorID, sock: nat)
    | StreamType(id: ReactorID, sock: nat, interestedWritable: bool, queued: nat, broken: bool)

  type Handlers = map<nat, Handler>

  /** What a socket is registered for: its event key, and whether it is polled for
      writing too. */
  datatype Registration = Registration(key: nat, writable: bool)

  type Registrations = map<nat, Registration>

  /** The handler in a slot knows its slot and is registered under its identifier. */
  predicate Registered(k: nat, h: Handler, poller: Registrations) {
    && h.id.sockslot == k && k < MAX_HALF && h.id.ver < HALF
    && h.sock in poller && poller[h.sock].key == ToUsize(h.id)
  }

  /** Polled for writing only if the stream knows it, and the stream believes so
      only while it has bytes to send. */
  predicate Interested(h: Handler, writable: bool) {
    match h
    case ListenerType(_, _) => !writable
    case StreamType(_, _, interest, queued, _) => (writable ==> interest) && (interest ==> queued > 0)
  }

  ghost predicate Consistent(hs: Handlers, poller: Registrations) {
    && (forall k :: k in hs ==>
          Registered(k, hs[k], poller) && Interested(hs[k], poller[hs[k].sock].writable))
    && (forall s :: s in poller ==> Owner(poller, s) in hs && hs[Owner(poller, s)].sock == s)
  }

  function Owner(poller: Registrations, s: nat): nat
    requires s in poller
  {
    FromUsize(poller[s].key).sockslot
  }

  ghost predicate PolledToWrite(h: Handler, poller: Registrations) { h.sock in poller && poller[h.sock].writable }

  /** The streams that believe to be polled for writing and are not. */
  ghost function Astray(hs: Handlers, poller: Registrations): set<nat> {
    set k | k in hs && hs[k].StreamType? && hs[k].interestedWritable && !PolledToWrite(hs[k], poller)
  }

  /** For all other streams, interest and registration agree. */
  lemma OthersAgree(hs: Handlers, poller: Registrations, k: nat)
    requires Consistent(hs, poller) && k in hs && hs[k].StreamType?
    ensures k in Astray(hs, poller) <==> hs[k].interestedWritable != PolledToWrite(hs[k], poller)
  {
    assert Interested(hs[k], poller[hs[k].sock].writable);
  }

  /** Every handler has a registered socket of its own. */
  ghost predicate OwnSockets(hs: Handlers, poller: Registrations) {
    && (forall k :: k in hs ==> hs[k].sock in poller)
    && (forall j, k :: j in hs && k in hs && j != k ==> hs[j].sock != hs[k].sock)
  }

  lemma ConsistentOwnSockets(hs: Handlers, poller: Registrations)
    requires Consistent(hs, poller)
    ensures OwnSockets(hs, poller)
  {
    forall k | k in hs ensures hs[k].sock in poller {
      assert Registered(k, hs[k], poller);
    }
    forall j, k | j in hs && k in hs && j != k ensures hs[j].sock != hs[k].sock {
      LiveIdsAreDistinct(hs, poller, j, k);
    }
  }

  ghost function Streams(hs: Handlers): set<nat> {
    set k | k in hs && hs[k].StreamType?
  }

  // -------------------------------------------------------------- consequences

  /** No two live handlers have the same identifier or the same socket. */
  lemma LiveIdsAreDistinct(hs: Handlers, poller: Registrations, j: nat, k: nat)
    requires Consistent(hs, poller) && j in hs && k in hs && j != k
    ensures hs[j].id != hs[k].id && ToUsize(hs[j].id) != ToUsize(hs[k].id) && hs[j].sock != hs[k].sock
    ensures hs[j].id != INVALID_REACTOR_ID
  {
    assert Registered(j, hs[j], poller) && Registered(k, hs[k], poller);
    KeyRoundTrip(hs[j].id);
    KeyRoundTrip(hs[k].id);
  }

  predicate KeyInUse(poller: Registrations, s: nat, key: nat) { s in poller && poller[s].key == key }

  /** A polled key leads back to the live handler with that very identifier. */
  lemma KeyNamesHandler(hs: Handlers, poller: Registrations, s: nat, key: nat)
    requires Consistent(hs, poller) && KeyInUse(poller, s, key)
    ensures var id := FromUsize(key); id.sockslot in hs && hs[id.sockslot].id == id && hs[id.sockslot].sock == s
  {
    var k := Owner(poller, s);
    assert Registered(k, hs[k], poller);
    KeyRoundTrip(hs[k].id);
  }

  /** There are as many registrations as live handlers. */
  lemma {:induction false} RegistrationsMatchHandlers(hs: Handlers, poller: Registrations)
    requires Consistent(hs, poller)
    ensures |poller| == |hs|
    decreases |hs|
  {
    if hs == map[] {
      assert poller == map[] by {
        assert forall s :: s in poller ==> Owner(poller, s) in hs;
      }
    } else {
      var k :| k in hs;
      RemoveKeepsConsistent(hs, poller, k);
      RegistrationsMatchHandlers(hs - {k}, poller - {hs[k].sock});
      assert |hs - {k}| == |hs| - 1 by { MapShrinks(hs, k); }
      assert |poller - {hs[k].sock}| == |poller| - 1 by {
        assert Registered(k, hs[k], poller);
        MapShrinks(poller, hs[k].sock);
      }
    }
  }

  lemma MapShrinks<X>(m: map<nat, X>, k: nat)
    requires k in m
    ensures |m - {k}| == |m| - 1
  {
    assert m == (m - {k})[k := m[k]];
  }

  // ------------------------------------------------------------- preservation

  /** The identifier given to a new handler: its slot and the new count. */
  function NewId(slot: nat, count: nat): ReactorID { ReactorID(slot, count % HALF) }

  lemma AddKeepsConsistent(hs: Handlers, poller: Registrations, h: Handler)
    requires Consistent(hs, poller)
    requires h.id.sockslot !in hs && h.id.sockslot < MAX_HALF && h.id.ver < HALF && h.sock !in poller
    requires h.StreamType? ==> !h.interestedWritable
    ensures Consistent(hs[h.id.sockslot := h], poller[h.sock := Registration(ToUsize(h.id), false)])
  {
    var slot := h.id.sockslot;
    var hs', poller' := hs[slot := h], poller[h.sock := Registration(ToUsize(h.id), false)];
    KeyRoundTrip(h.id);
    forall k | k in hs'
      ensures Registered(k, hs'[k], poller') && Interested(hs'[k], poller'[hs'[k].sock].writable)
    {
      assert k != slot ==> k in hs && Registered(k, hs[k], poller);
    }
    forall s | s in poller'
      ensures Owner(poller', s) in hs' && hs'[Owner(poller', s)].sock == s
    {
      assert s != h.sock ==> Owner(poller', s) == Owner(poller, s);
    }
  }

  lemma RemoveKeepsConsistent(hs: Handlers, poller: Registrations, k: nat)
    requires Consistent(hs, poller) && k in hs
    ensures hs[k].sock in poller && Consistent(hs - {k}, poller - {hs[k].sock})
  {
    var hs', poller' := hs - {k}, poller - {hs[k].sock};
    assert Registered(k, hs[k], poller);
    forall j | j in hs'
      ensures Registered(j, hs'[j], poller') && Interested(hs'[j], poller'[hs'[j].sock].writable)
    {
      assert Registered(j, hs[j], poller);
      LiveIdsAreDistinct(hs, poller, j, k);
    }
    forall s | s in poller'
      ensures Owner(poller', s) in hs' && hs'[Owner(poller', s)].sock == s
    {
      assert Owner(poller', s) == Owner(poller, s);
    }
  }

  /** A handler may change in everything but its identifier and its socket. */
  lemma UpdateKeepsConsistent(hs: Handlers, poller: Registrations, k: nat, h: Handler,
                              writable: bool)
    requires Consistent(hs, poller) && k in hs
    requires h.id == hs[k].id && h.sock == hs[k].sock
    requires Interested(h, writable)
    ensures h.sock in poller
    ensures Consistent(hs[k := h], poller[h.sock := Registration(poller[h.sock].key, writable)])
  {
    assert Registered(k, hs[k], poller);
    var hs', poller' := hs[k := h], poller[h.sock := Registration(poller[h.sock].key, writable)];
    forall j | j in hs'
      ensures Registered(j, hs'[j], poller') && Interested(hs'[j], poller'[hs'[j].sock].writable)
    {
      assert Registered(j, hs[j], poller);
      if j != k {
        LiveIdsAreDistinct(hs, poller, j, k);
      }
    }
    forall s | s in poller'
      ensures Owner(poller', s) in hs' && hs'[Owner(poller', s)].sock == s
    {
      assert Owner(poller', s) == Owner(poller, s);
    }
  }

  lemma StreamsAdd(hs: Handlers, k: nat, h: Handler)
    requires k !in hs
    ensures |Streams(hs[k := h])| == |Streams(hs)| + if h.StreamType? then 1 else 0
  {
    assert Streams(hs[k := h]) == Streams(hs) + if h.StreamType? then {k} else {};
  }

  lemma StreamsRemove(hs: Handlers, k: nat)
    requires k in hs
    ensures |Streams(hs - {k})| == |Streams(hs)| - if hs[k].StreamType? then 1 else 0
  {
    assert Streams(hs - {k}) == Streams(hs) - if hs[k].StreamType? then {k} else {};
  }

  lemma StreamsUpdate(hs: Handlers, k: nat, h: Handler)
    requires k in hs && (h.StreamType? <==> hs[k].StreamType?)
    ensures Streams(hs[k := h]) == Streams(hs)
  {}

  lemma {:induction false} UnusedNumber(s: set<nat>) returns (n: nat)
    ensures forall k :: k in s ==> k < n
    decreases |s|
  {
    n := 0;
    if s != {} {
      var k :| k in s;
      n := UnusedNumber(s - {k});
      assert forall j :: j in s ==> j == k || j in s - {k};
      if n <= k {
        n := k + 1;
      }
    }
  }
}
