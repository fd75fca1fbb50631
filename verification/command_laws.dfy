/** What commands do, read off the command, the handlers that it finds and the answers
    from outside: whom a command reaches, and what its completion is told. */
module CommandLaws {
  import opened FlatStorages
  import opened Registry
  import opened Commands
  import opened DeferredQueues
  import opened ReactorMgrs
  import opened Executing

  /** A stream lives under exactly this identifier. */
  predicate LiveStream(hs: Handlers, id: ReactorID) {
    id.sockslot in hs && hs[id.sockslot].StreamType? && hs[id.sockslot].id == id
  }

  /** A user's command reaches the live stream with its identifier and no other handler;
      the stream's answer changes its buffer or closes it. If there is none, nothing
      happens, and the completion is told so. */
  lemma UserCommandFate(v: MgrView, w: MgrView, cmd: CmdData, made: Made, result: Option<ReactorID>,
                        replies: nat -> Reply)
    requires Performs(v, w, cmd, made, result, replies) && cmd.cmd.UserCmd?
    ensures !LiveStream(v.handlers, cmd.reactorid) ==> result == None && w == v
    ensures LiveStream(v.handlers, cmd.reactorid) ==>
      var id, reply := cmd.reactorid, replies(v.asked);
      var h := v.handlers[id.sockslot];
      && result == Some(id) && w.asked == v.asked + 1
      && w.trace == v.trace + [Commanded(id, reply)] + (if reply.ok then [] else [Closed(id)])
      && (reply.ok ==>
            && w.handlers == v.handlers[id.sockslot :=
                 StreamType(id, h.sock, h.interestedWritable, h.queued + reply.more, h.broken || reply.failed)]
            && w.poller == v.poller)
      && (!reply.ok ==> w.handlers == v.handlers - {id.sockslot} && w.poller == v.poller - {h.sock})
  {}

  /** A connect succeeds exactly if the system says so; then there is a new stream,
      registered for reading, or it has refused and is closed again. */
  lemma ConnectFate(v: MgrView, w: MgrView, cmd: CmdData, made: Made, result: Option<ReactorID>,
                    replies: nat -> Reply)
    requires Performs(v, w, cmd, made, result, replies) && cmd.cmd.NewConnect?
    ensures result.Some? <==> replies(v.asked).ok
    ensures result == None ==> w == v.(asked := v.asked + 1)
    ensures result.Some? ==>
      var id, reply := made.id, replies(v.asked + 1);
      && w.asked == v.asked + 2
      && id.sockslot !in v.handlers && id != INVALID_REACTOR_ID && made.sock !in v.poller
      && w.trace == v.trace + [Connected(id, INVALID_REACTOR_ID, reply)] + (if reply.ok then [] else [Closed(id)])
      && (reply.ok ==>
            && result == Some(id)
            && w.handlers == v.handlers[id.sockslot := StreamType(id, made.sock, false, reply.more, reply.failed)]
            && w.poller == v.poller[made.sock := Registration(ToUsize(id), false)])
      && (!reply.ok ==> result == Some(INVALID_REACTOR_ID) && w.handlers == v.handlers && w.poller == v.poller)
  {}

  /** A listener is started exactly if the system says so. */
  lemma ListenFate(v: MgrView, w: MgrView, cmd: CmdData, made: Made, result: Option<ReactorID>,
                   replies: nat -> Reply)
    requires Performs(v, w, cmd, made, result, replies) && cmd.cmd.NewListen?
    ensures result.Some? <==> replies(v.asked).ok
    ensures w.asked == v.asked + 1
    ensures result == None ==> w == v.(asked := v.asked + 1)
    ensures result.Some? ==>
      var id := result.value;
      && id.sockslot !in v.handlers && id != INVALID_REACTOR_ID && made.sock !in v.poller
      && w.trace == v.trace + [Listening(id)]
      && w.handlers == v.handlers[id.sockslot := ListenerType(id, made.sock)]
      && w.poller == v.poller[made.sock := Registration(ToUsize(id), false)]
  {}

  /** A close succeeds exactly if the slot is occupied. */
  lemma CloseFate(v: MgrView, w: MgrView, cmd: CmdData, made: Made, result: Option<ReactorID>, replies: nat -> Reply)
    requires Performs(v, w, cmd, made, result, replies) && cmd.cmd.CloseSocket?
    ensures result.Some? <==> cmd.reactorid.sockslot in v.handlers
    ensures result == None ==> w == v
    ensures result.Some? ==>
      var id := cmd.reactorid;
      && result == Some(id) && w.asked == v.asked
      && w.trace == v.trace + [Closed(id)]
      && w.handlers == v.handlers - {id.sockslot}
      && w.poller == v.poller - {v.handlers[id.sockslot].sock}
  {}

  /** Whatever the command: its completion is told `Some` exactly if it has taken
      effect, which somebody has then been told of; if not, nothing has changed. Only
      a user's command is given to a stream, and only to its own. */
  ghost predicate TellsEffect(v: MgrView, w: MgrView, cmd: CmdData, result: Option<ReactorID>) {
    && v.trace <= w.trace
    && (result.Some? <==> v.trace != w.trace)
    && (result == None ==> w.handlers == v.handlers && w.poller == v.poller)
    && forall j :: |v.trace| <= j < |w.trace| && w.trace[j].Commanded? ==>
         && j == |v.trace| && cmd.cmd.UserCmd?
         && w.trace[j].id == cmd.reactorid && LiveStream(v.handlers, cmd.reactorid)
  }

  lemma CommandTellsEffect(v: MgrView, w: MgrView, cmd: CmdData, made: Made, result: Option<ReactorID>,
                           replies: nat -> Reply)
    requires Performs(v, w, cmd, made, result, replies)
    ensures TellsEffect(v, w, cmd, result)
  {
    hide LiveStream;
    match cmd.cmd {
      case NewConnect => ConnectFate(v, w, cmd, made, result, replies);
      case NewListen => ListenFate(v, w, cmd, made, result, replies);
      case CloseSocket => CloseFate(v, w, cmd, made, result, replies);
      case UserCmd => UserCommandFate(v, w, cmd, made, result, replies);
    }
  }

  // ------------------------------------------------------------- many commands

  /** Each command of a sequence is performed in the state that those before it have
      led to, and tells its effect. */
  lemma {:induction false} CarriedTellsEffect(v: MgrView, w: MgrView, executed: seq<Exec>, i: nat,
                                              accepted: seq<CmdData>, replies: nat -> Reply)
    returns (a: MgrView, b: MgrView, made: Made)
    requires CarriedOut(v, w, executed, accepted, replies) && i < |executed|
    ensures executed[i].ticket < |accepted|
    ensures CarriedOut(v, a, executed[..i], accepted, replies)
    ensures Performs(a, b, accepted[executed[i].ticket], made, executed[i].result, replies)
    ensures TellsEffect(a, b, accepted[executed[i].ticket], executed[i].result)
    ensures v.trace <= a.trace && b.trace <= w.trace
    decreases |executed|
  {
    hide CarriedOut, Performs, TellsEffect;
    var n := |executed| - 1;
    var u, last := LastCarried(v, w, executed, accepted, replies);
    CommandTellsEffect(u, w, accepted[executed[n].ticket], last, executed[n].result, replies);
    CarriedTells(v, u, executed[..n], accepted, replies);
    if i == n {
      a, b, made := u, w, last;
    } else {
      a, b, made := CarriedTellsEffect(v, u, executed[..n], i, accepted, replies);
      assert executed[..n][..i] == executed[..i];
      EffectGrows(u, w, accepted[executed[n].ticket], executed[n].result);
    }
  }

  lemma EffectGrows(v: MgrView, w: MgrView, cmd: CmdData, result: Option<ReactorID>)
    requires TellsEffect(v, w, cmd, result)
    ensures v.trace <= w.trace
  {}

  lemma {:induction false} CarriedTells(v: MgrView, w: MgrView, executed: seq<Exec>, accepted: seq<CmdData>,
                                        replies: nat -> Reply)
    requires CarriedOut(v, w, executed, accepted, replies)
    ensures v.trace <= w.trace
    decreases |executed|
  {
    hide CarriedOut, Performs, TellsEffect;
    if executed == [] {
      NoneCarried(v, w, accepted, replies);
    } else {
      var n := |executed| - 1;
      var u, made := LastCarried(v, w, executed, accepted, replies);
      CarriedTells(v, u, executed[..n], accepted, replies);
      CommandTellsEffect(u, w, accepted[executed[n].ticket], made, executed[n].result, replies);
      EffectGrows(u, w, accepted[executed[n].ticket], executed[n].result);
    }
  }

  /** Over any sequence of commands: whenever a stream was given a command, that was a
      user's command for exactly its identifier, and just before, a stream was alive
      under it. */
  lemma {:induction false} OnlyLiveStreamsAreCommanded(v: MgrView, w: MgrView, executed: seq<Exec>, j: nat,
                                                       accepted: seq<CmdData>, replies: nat -> Reply)
    returns (i: nat, a: MgrView)
    requires CarriedOut(v, w, executed, accepted, replies)
    requires |v.trace| <= j < |w.trace| && w.trace[j].Commanded?
    ensures i < |executed| && executed[i].ticket < |accepted|
    ensures CarriedOut(v, a, executed[..i], accepted, replies) && a.trace == w.trace[..j]
    ensures var cmd := accepted[executed[i].ticket];
      && cmd.cmd.UserCmd? && cmd.reactorid == w.trace[j].id && LiveStream(a.handlers, cmd.reactorid)
      && executed[i].result == Some(cmd.reactorid)
    decreases |executed|
  {
    hide CarriedOut, Performs, LiveStream;
    if executed == [] {
      NoneCarried(v, w, accepted, replies);
      assert false;
    }
    var n := |executed| - 1;
    var u, made := LastCarried(v, w, executed, accepted, replies);
    var cmd, result := accepted[executed[n].ticket], executed[n].result;
    CommandTellsEffect(u, w, cmd, made, result, replies);
    if j < |u.trace| {
      assert w.trace[j] == u.trace[j] && w.trace[..j] == u.trace[..j];
      i, a := OnlyLiveStreamsAreCommanded(v, u, executed[..n], j, accepted, replies);
      assert executed[..n][..i] == executed[..i];
    } else {
      CommandedResult(u, w, cmd, made, result, replies);
      i, a := n, u;
    }
  }

  lemma CommandedResult(v: MgrView, w: MgrView, cmd: CmdData, made: Made, result: Option<ReactorID>,
                        replies: nat -> Reply)
    requires Performs(v, w, cmd, made, result, replies) && cmd.cmd.UserCmd? && LiveStream(v.handlers, cmd.reactorid)
    ensures result == Some(cmd.reactorid)
  {
    UserCommandFate(v, w, cmd, made, result, replies);
  }
}
