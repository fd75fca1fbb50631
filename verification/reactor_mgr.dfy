/** ReactorMgr of src/reactor.rs, and the handling of one socket event. */
module ReactorMgrs {
  import opened FlatStorages
  import opened Registry
  import opened Commands

  /** A call out of the runtime: to the user's code, or to a sender's socket. */
  datatype Upcall =
    | Flushed(id: ReactorID, ok: bool, left: nat)
    | Readable(id: ReactorID, reply: Reply)
    | NewConnection(listener: ReactorID, kept: bool)
    | Connected(id: ReactorID, listener: ReactorID, reply: Reply)
    | Commanded(id: ReactorID, reply: Reply)
    | Listening(id: ReactorID)
    | Closed(id: ReactorID)

  /** How a reactor answers: whether it wants to live on, how many bytes it has
      added to its send buffer, and whether a send failed. The operating system
      answers whether a call succeeded, and how many bytes it took. */
  datatype Reply = Reply(ok: bool, more: nat, failed: bool)

  /** What lies outside: the answers to all questions that the runtime asks, in
      the order in which it asks them. Nothing is known about them. */
  class World {
    const replies: nat -> Reply
    var asked: nat

    constructor (replies: nat -> Reply)
      ensures this.replies == replies && asked == 0
    {
      this.replies, asked := replies, 0;
    }

    method Ask() returns (reply: Reply)
      modifies this
      ensures reply == replies(old(asked)) && asked == old(asked) + 1
    {
      reply := replies(asked);
      asked := asked + 1;
    }
  }

  function Answered(h: Handler, reply: Reply): Handler {
    if h.StreamType? then h.(queued := h.queued + reply.more, broken := h.broken || reply.failed) else h
  }

  /** The state of a ReactorMgr and what it has done. */
  datatype MgrView = MgrView(
    handlers: Handlers,
    poller: Registrations,
    trace: seq<Upcall>,
    served: seq<ReactorID>,
    asked: nat // how many answers it has had from outside
  )

  class ReactorMgr {
    const handlers: FlatStorage<Handler>
    const channel: Channel
    const world: World
    var poller: Registrations
    var countStreams: nat
    ghost var trace: seq<Upcall>
    ghost var served: seq<ReactorID> // the handlers that events were given to

    ghost predicate Valid()
      reads this`poller, this`countStreams, handlers, channel
    {
      && handlers.Valid() && channel.Valid()
      && Consistent(handlers.Contents(), poller)
      && countStreams == |Streams(handlers.Contents())|
    }

    ghost function View(): MgrView
      reads this, handlers, world
    {
      MgrView(handlers.Contents(), poller, trace, served, world.asked)
    }

    /** `n` more handlers fit; slots are numbered in half words. */
    ghost predicate Room(n: nat)
      reads this, handlers
    {
      |handlers.data| + n <= MAX_HALF
    }

    constructor (replies: nat -> Reply)
      ensures Valid() && fresh(handlers) && fresh(channel) && fresh(world)
      ensures world.replies == replies && View() == MgrView(map[], map[], [], [], 0)
      ensures handlers.Contents() == map[] && handlers.data == [] && poller == map[]
      ensures channel.accepted == [] && channel.taken == 0
    {
      handlers := new FlatStorage();
      channel := new Channel();
      world := new World(replies);
      poller, countStreams := map[], 0;
      trace, served := [], [];
      new;
      assert Streams(map[]) == {};
    }

    method Len() returns (n: nat)
      requires Valid()
      ensures n == |handlers.Contents()| == |poller|
    {
      RegistrationsMatchHandlers(handlers.Contents(), poller);
      n := handlers.Len();
    }

    method AddStream(sock: nat) returns (id: ReactorID)
      requires Valid() && Room(1) && sock !in poller
      modifies this`poller, this`countStreams, handlers
      ensures Valid() && |handlers.data| <= old(|handlers.data|) + 1
      ensures id.sockslot !in old(handlers.Contents()) && id != INVALID_REACTOR_ID
      ensures handlers.Contents() == old(handlers.Contents())[id.sockslot := StreamType(id, sock, false, 0, false)]
      ensures id.ver == |handlers.Contents()|
      ensures poller == old(poller)[sock := Registration(ToUsize(id), false)]
    {
      hide FlatStorage.Valid, FlatStorage.Contents, Consistent, Channel.Valid;
      ghost var hs := handlers.Contents();
      SlotsInHalves(handlers);
      var key := handlers.Add(StreamType(INVALID_REACTOR_ID, sock, false, 0, false));
      SlotsInHalves(handlers);
      var n := handlers.Len();
      id := NewId(key, n);
      countStreams := countStreams + 1;
      var added := handlers.Get(key);
      match added {
        case Some(h) =>
          ghost var done := h.(id := id);
          AddKeepsConsistent(hs, poller, done);
          StreamsAdd(hs, key, done);
          handlers.Set(key, h.(id := id));
          assert handlers.Contents() == hs[key := done];
          poller := poller[sock := Registration(ToUsize(id), false)];
        case None => assert false; // the source's panic
      }
    }

    method AddListener(sock: nat) returns (id: ReactorID)
      requires Valid() && Room(1) && sock !in poller
      modifies this`poller, handlers
      ensures Valid() && |handlers.data| <= old(|handlers.data|) + 1
      ensures id.sockslot !in old(handlers.Contents()) && id != INVALID_REACTOR_ID
      ensures handlers.Contents() == old(handlers.Contents())[id.sockslot := ListenerType(id, sock)]
      ensures id.ver == |handlers.Contents()|
      ensures poller == old(poller)[sock := Registration(ToUsize(id), false)]
    {
      hide FlatStorage.Valid, FlatStorage.Contents, Consistent, Channel.Valid;
      ghost var hs := handlers.Contents();
      SlotsInHalves(handlers);
      var key := handlers.Add(ListenerType(INVALID_REACTOR_ID, sock));
      SlotsInHalves(handlers);
      var n := handlers.Len();
      id := NewId(key, n);
      var added := handlers.Get(key);
      if added.Some? && added.value.ListenerType? {
        ghost var done := ListenerType(id, sock);
        AddKeepsConsistent(hs, poller, done);
        StreamsAdd(hs, key, done);
        handlers.Set(key, ListenerType(id, added.value.sock));
        assert handlers.Contents() == hs[key := done];
        poller := poller[sock := Registration(ToUsize(id), false)];
      }
    }

    /** The slot is emptied whatever the identifier's `ver` is; only a debug
        assertion compares it. */
    method CloseReactor(id: ReactorID) returns (existed: bool)
      requires Valid()
      modifies this`poller, this`countStreams, this`trace, handlers, channel
      ensures Valid() && |handlers.data| == old(|handlers.data|)
      ensures channel.taken == old(channel.taken) && old(channel.accepted) <= channel.accepted
      ensures existed <==> id.sockslot in old(handlers.Contents())
      ensures existed ==>
        && handlers.Contents() == old(handlers.Contents()) - {id.sockslot}
        && poller == old(poller) - {old(handlers.Contents())[id.sockslot].sock}
        && trace == old(trace) + [Closed(id)]
      ensures !existed ==>
        handlers.Contents() == old(handlers.Contents()) && poller == old(poller) && trace == old(trace)
        && channel.accepted == old(channel.accepted)
    {
      hide FlatStorage.Valid, FlatStorage.Contents, Consistent, Channel.Valid;
      ghost var hs := handlers.Contents();
      var removed := handlers.Remove(id.sockslot);
      if removed == None {
        return false;
      }
      var h := removed.value;
      RemoveKeepsConsistent(hs, poller, id.sockslot);
      StreamsRemove(hs, id.sockslot);
      if h.StreamType? {
        countStreams := countStreams - 1;
      }
      poller := poller - {h.sock};
      trace := trace + [Closed(id)];
      channel.UserCode(); // on_close or on_close_listen
      existed := true;
    }

    /** A call of a reactor's code. */
    method Ask() returns (reply: Reply)
      requires Valid()
      modifies channel, world
      ensures Valid() && channel.taken == old(channel.taken) && old(channel.accepted) <= channel.accepted
      ensures reply == world.replies(old(world.asked)) && world.asked == old(world.asked) + 1
    {
      hide FlatStorage.Valid, FlatStorage.Contents, Consistent, Channel.Valid;
      channel.UserCode();
      reply := world.Ask();
    }

    /** A handler that answers a call outside of the event loop keeps its place;
        its interest and its registration do not change. */
    method Record(slot: nat, reply: Reply)
      requires Valid() && slot in handlers.Contents()
      modifies handlers
      ensures Valid() && |handlers.data| == old(|handlers.data|)
      ensures handlers.Contents() == old(handlers.Contents())[slot := Answered(old(handlers.Contents())[slot], reply)]
    {
      hide FlatStorage.Valid, FlatStorage.Contents, Consistent, Channel.Valid;
      ghost var hs := handlers.Contents();
      var found := handlers.Get(slot);
      var h := Answered(found.value, reply);
      InterestOf(hs, poller, slot);
      UpdateKeepsConsistent(hs, poller, slot, h, poller[h.sock].writable);
      StreamsUpdate(hs, slot, h);
      assert poller[h.sock := Registration(poller[h.sock].key, poller[h.sock].writable)] == poller;
      handlers.Set(slot, h);
    }

    /** on_command of a live stream. */
    method Command(id: ReactorID) returns (reply: Reply)
      requires Valid() && id.sockslot in handlers.Contents()
      modifies this`trace, handlers, channel, world
      ensures Valid() && |handlers.data| == old(|handlers.data|)
      ensures channel.taken == old(channel.taken) && old(channel.accepted) <= channel.accepted
      ensures handlers.Contents() ==
        old(handlers.Contents())[id.sockslot := Answered(old(handlers.Contents())[id.sockslot], reply)]
      ensures trace == old(trace) + [Commanded(id, reply)]
      ensures reply == world.replies(old(world.asked)) && world.asked == old(world.asked) + 1
    {
      hide FlatStorage.Valid, FlatStorage.Contents, Valid;
      reply := Ask();
      Record(id.sockslot, reply);
      trace := trace + [Commanded(id, reply)];
    }

    /** A new stream is told that it is connected. */
    method Greet(sock: nat, listener: ReactorID) returns (id: ReactorID, reply: Reply)
      requires Valid() && Room(1) && sock !in poller
      modifies this`poller, this`countStreams, this`trace, handlers, channel, world
      ensures Valid() && |handlers.data| <= old(|handlers.data|) + 1
      ensures channel.taken == old(channel.taken) && old(channel.accepted) <= channel.accepted
      ensures reply == world.replies(old(world.asked)) && world.asked == old(world.asked) + 1
      ensures id.sockslot !in old(handlers.Contents()) && id != INVALID_REACTOR_ID
      ensures handlers.Contents()
        == old(handlers.Contents())[id.sockslot := StreamType(id, sock, false, reply.more, reply.failed)]
      ensures poller == old(poller)[sock := Registration(ToUsize(id), false)]
      ensures trace == old(trace) + [Connected(id, listener, reply)]
    {
      hide FlatStorage.Valid, FlatStorage.Contents, Valid;
      id := AddStream(sock);
      reply := Ask();
      Record(id.sockslot, reply);
      trace := trace + [Connected(id, listener, reply)];
    }

    /** on_connected of a new stream, which is closed again if it refuses. */
    method Connect(sock: nat, listener: ReactorID) returns (id: ReactorID, reply: Reply)
      requires Valid() && Room(1) && sock !in poller
      modifies this, handlers, channel, world
      ensures Valid() && |handlers.data| <= old(|handlers.data|) + 1
      ensures channel.taken == old(channel.taken) && old(channel.accepted) <= channel.accepted
      ensures served == old(served)
      ensures reply == world.replies(old(world.asked)) && world.asked == old(world.asked) + 1
      ensures id.sockslot !in old(handlers.Contents()) && id != INVALID_REACTOR_ID
      ensures handlers.Contents() == if reply.ok
        then old(handlers.Contents())[id.sockslot := StreamType(id, sock, false, reply.more, reply.failed)]
        else old(handlers.Contents())
      ensures reply.ok ==> poller == old(poller)[sock := Registration(ToUsize(id), false)]
      ensures !reply.ok ==> poller == old(poller)
      ensures trace == old(trace) + [Connected(id, listener, reply)] + if reply.ok then [] else [Closed(id)]
    {
      hide FlatStorage.Valid, FlatStorage.Contents, Valid;
      ghost var hs := handlers.Contents();
      id, reply := Greet(sock, listener);
      if !reply.ok {
        var existed := CloseReactor(id);
        PutAndTake(hs, id.sockslot, StreamType(id, sock, false, reply.more, reply.failed));
        PutAndTake(old(poller), sock, Registration(ToUsize(id), false));
      }
    }

    /** connect() may fail; the descriptor of a new socket is not in use. */
    method StartConnect() returns (result: Option<ReactorID>, id: ReactorID, sock: nat, reply: Reply)
      requires Valid() && Room(1)
      modifies this, handlers, channel, world
      ensures Valid() && |handlers.data| <= old(|handlers.data|) + 1
      ensures channel.taken == old(channel.taken) && old(channel.accepted) <= channel.accepted
      ensures served == old(served)
      ensures result == None <==> !world.replies(old(world.asked)).ok
      ensures result == None ==>
        && handlers.Contents() == old(handlers.Contents()) && poller == old(poller) && trace == old(trace)
        && world.asked == old(world.asked) + 1
      ensures result.Some? ==>
        && reply == world.replies(old(world.asked) + 1) && world.asked == old(world.asked) + 2
        && sock !in old(poller) && id.sockslot !in old(handlers.Contents()) && id != INVALID_REACTOR_ID
        && result.value == (if reply.ok then id else INVALID_REACTOR_ID)
        && trace == old(trace) + [Connected(id, INVALID_REACTOR_ID, reply)] + (if reply.ok then [] else [Closed(id)])
        && poller == (if reply.ok then old(poller)[sock := Registration(ToUsize(id), false)] else old(poller))
        && handlers.Contents() == if reply.ok
           then old(handlers.Contents())[id.sockslot := StreamType(id, sock, false, reply.more, reply.failed)]
           else old(handlers.Contents())
    {
      hide FlatStorage.Valid, FlatStorage.Contents, Valid;
      var connected := world.Ask();
      if !connected.ok {
        return None, INVALID_REACTOR_ID, 0, Reply(true, 0, false);
      }
      sock := UnusedSocket();
      id, reply := Connect(sock, INVALID_REACTOR_ID);
      result := Some(if reply.ok then id else INVALID_REACTOR_ID);
    }

    /** A descriptor that no live handler's socket has. */
    method UnusedSocket() returns (sock: nat)
      ensures sock !in poller
    {
      ghost var n := UnusedNumber(poller.Keys);
      assert n !in poller;
      sock :| sock !in poller;
    }

    /** bind() may fail. */
    method StartListen() returns (result: Option<ReactorID>, sock: nat)
      requires Valid() && Room(1)
      modifies this, handlers, channel, world
      ensures Valid() && |handlers.data| <= old(|handlers.data|) + 1
      ensures channel.taken == old(channel.taken) && old(channel.accepted) <= channel.accepted
      ensures served == old(served)
      ensures result == None <==> !world.replies(old(world.asked)).ok
      ensures world.asked == old(world.asked) + 1
      ensures result == None ==>
        handlers.Contents() == old(handlers.Contents()) && poller == old(poller) && trace == old(trace)
      ensures result.Some? ==>
        var id := result.value;
        && sock !in old(poller) && id.sockslot !in old(handlers.Contents()) && id != INVALID_REACTOR_ID
        && trace == old(trace) + [Listening(id)]
        && poller == old(poller)[sock := Registration(ToUsize(id), false)]
        && handlers.Contents() == old(handlers.Contents())[id.sockslot := ListenerType(id, sock)]
    {
      hide FlatStorage.Valid, FlatStorage.Contents, Consistent, Channel.Valid;
      var bound := world.Ask();
      if !bound.ok {
        return None, 0;
      }
      sock := UnusedSocket();
      var id := AddListener(sock);
      trace := trace + [Listening(id)];
      channel.UserCode(); // on_start_listen
      result := Some(id);
    }
  }

  lemma PutAndTake<X>(m: map<nat, X>, k: nat, x: X)
    requires k !in m
    ensures m[k := x] - {k} == m
  {}

  lemma SlotsInHalves(s: FlatStorage<Handler>)
    requires s.Valid() && |s.data| <= MAX_HALF
    ensures forall k :: k in s.Contents() ==> k < MAX_HALF
    ensures |s.Contents()| <= MAX_HALF
  {
    CountIsSize(s);
  }

  lemma InterestOf(hs: Handlers, poller: Registrations, k: nat)
    requires Consistent(hs, poller) && k in hs
    ensures hs[k].sock in poller && hs[k].id.sockslot == k
    ensures Interested(hs[k], poller[hs[k].sock].writable)
  {}
}
