/** What execute_immediate_cmd of src/reactor.rs does to the handlers, command by
    command and over a whole sequence of commands. */
module Executing {
  import opened FlatStorages
  import opened Registry
  import opened Commands
  import opened DeferredQueues
  import opened ReactorMgrs

  /** What the operating system and the reactor made of a command: the handler
      that was created, with its socket, and the reactor's answer. */
  datatype Made = Made(id: ReactorID, sock: nat, reply: Reply)

  const NOTHING_MADE := Made(INVALID_REACTOR_ID, 0, Reply(true, 0, false))

  /** The next answer from outside is that of connect, the one after it that of
      on_connected. A refused stream completes with an invalid identifier. */
  ghost predicate Connects(v: MgrView, w: MgrView, made: Made, result: Option<ReactorID>, replies: nat -> Reply) {
    var id, reply := made.id, made.reply;
    if !replies(v.asked).ok then result == None && w == v.(asked := v.asked + 1)
    else
      && reply == replies(v.asked + 1) && w.asked == v.asked + 2
      && id.sockslot !in v.handlers && id != INVALID_REACTOR_ID && made.sock !in v.poller
      && result == Some(if reply.ok then id else INVALID_REACTOR_ID)
      && w.handlers == (
           if reply.ok then v.handlers[id.sockslot := StreamType(id, made.sock, false, reply.more, reply.failed)]
           else v.handlers)
      && w.poller == (if reply.ok then v.poller[made.sock := Registration(ToUsize(id), false)] else v.poller)
      && w.trace == v.trace + [Connected(id, INVALID_REACTOR_ID, reply)] + if reply.ok then [] else [Closed(id)]
  }

  /** The next answer from outside is that of bind. */
  ghost predicate Listens(v: MgrView, w: MgrView, made: Made, result: Option<ReactorID>, replies: nat -> Reply) {
    if !replies(v.asked).ok then result == None && w == v.(asked := v.asked + 1)
    else
      && w.asked == v.asked + 1
      && made.id.sockslot !in v.handlers && made.id != INVALID_REACTOR_ID && made.sock !in v.poller
      && result == Some(made.id)
      && w.handlers == v.handlers[made.id.sockslot := ListenerType(made.id, made.sock)]
      && w.poller == v.poller[made.sock := Registration(ToUsize(made.id), false)]
      && w.trace == v.trace + [Listening(made.id)]
  }

  /** Only the slot is looked at. */
  ghost predicate ClosesSocket(v: MgrView, w: MgrView, id: ReactorID, result: Option<ReactorID>) {
    if id.sockslot in v.handlers then
      && result == Some(id) && w.asked == v.asked
      && w.handlers == v.handlers - {id.sockslot} && w.poller == v.poller - {v.handlers[id.sockslot].sock}
      && w.trace == v.trace + [Closed(id)]
    else result == None && w == v
  }

  /** Only a live stream with that very identifier gets the command, and answers. */
  ghost predicate Delivers(v: MgrView, w: MgrView, id: ReactorID, made: Made, result: Option<ReactorID>,
                           replies: nat -> Reply) {
    if id.sockslot in v.handlers && v.handlers[id.sockslot].StreamType? && v.handlers[id.sockslot].id == id then
      && result == Some(id)
      && made.reply == replies(v.asked) && w.asked == v.asked + 1
      && w.trace == v.trace + [Commanded(id, made.reply)] + (if made.reply.ok then [] else [Closed(id)])
      && w.handlers == (
           if made.reply.ok then v.handlers[id.sockslot := Answered(v.handlers[id.sockslot], made.reply)]
           else v.handlers - {id.sockslot})
      && w.poller == if made.reply.ok then v.poller else v.poller - {v.handlers[id.sockslot].sock}
    else result == None && w == v
  }

  ghost predicate Performs(v: MgrView, w: MgrView, cmd: CmdData, made: Made, result: Option<ReactorID>,
                           replies: nat -> Reply) {
    && w.served == v.served
    && match cmd.cmd
       case NewConnect => Connects(v, w, made, result, replies)
       case NewListen => Listens(v, w, made, result, replies)
       case CloseSocket => ClosesSocket(v, w, cmd.reactorid, result)
       case UserCmd => Delivers(v, w, cmd.reactorid, made, result, replies)
  }

  // --------------------------------------------------------------- many commands

  /** The manager goes from `v` to `w` by performing the commands of `executed`, one
      after the other and nothing else. */
  ghost predicate CarriedOut(v: MgrView, w: MgrView, executed: seq<Exec>, accepted: seq<CmdData>, replies: nat -> Reply)
    decreases |executed|
  {
    if executed == [] then w == v
    else
      var n := |executed| - 1;
      && executed[n].ticket < |accepted|
      && exists u, made ::
           && CarriedOut(v, u, executed[..n], accepted, replies)
           && Performs(u, w, accepted[executed[n].ticket], made, executed[n].result, replies)
  }

  lemma NothingCarried(v: MgrView, executed: seq<Exec>, accepted: seq<CmdData>, replies: nat -> Reply)
    ensures CarriedOut(v, v, executed[|executed|..], accepted, replies)
  {}

  lemma LastCarried(v: MgrView, w: MgrView, executed: seq<Exec>, accepted: seq<CmdData>, replies: nat -> Reply)
    returns (u: MgrView, made: Made)
    requires CarriedOut(v, w, executed, accepted, replies) && executed != []
    ensures var n := |executed| - 1; var e := executed[n];
      && e.ticket < |accepted| && CarriedOut(v, u, executed[..n], accepted, replies)
      && Performs(u, w, accepted[e.ticket], made, e.result, replies)
  {
    hide Performs;
    var n := |executed| - 1;
    u, made :|
      && CarriedOut(v, u, executed[..n], accepted, replies)
      && Performs(u, w, accepted[executed[n].ticket], made, executed[n].result, replies);
  }

  lemma CarriesMore(v: MgrView, u: MgrView, w: MgrView, executed: seq<Exec>, e: Exec, accepted: seq<CmdData>,
                    made: Made, replies: nat -> Reply)
    requires CarriedOut(v, u, executed, accepted, replies) && e.ticket < |accepted|
    requires Performs(u, w, accepted[e.ticket], made, e.result, replies)
    ensures CarriedOut(v, w, executed + [e], accepted, replies)
  {
    hide Performs;
    assert (executed + [e])[..|executed|] == executed;
  }

  lemma {:induction false} CarriedGrows(v: MgrView, w: MgrView, executed: seq<Exec>, a: seq<CmdData>, b: seq<CmdData>,
                                        replies: nat -> Reply)
    requires CarriedOut(v, w, executed, a, replies) && a <= b
    ensures CarriedOut(v, w, executed, b, replies)
    decreases |executed|
  {
    if executed != [] {
      hide Performs, CarriedOut;
      var n := |executed| - 1;
      var u, made := LastCarried(v, w, executed, a, replies);
      CarriedGrows(v, u, executed[..n], a, b, replies);
      CarriesMore(v, u, w, executed[..n], executed[n], b, made, replies);
      assert executed == executed[..n] + [executed[n]];
    }
  }

  /** The same for the tail of the record, while more commands are accepted. */
  lemma TailCarriesMore(v: MgrView, u: MgrView, w: MgrView, before: seq<Exec>, from: nat, e: Exec, a: seq<CmdData>,
                        b: seq<CmdData>, cmd: CmdData, made: Made, replies: nat -> Reply)
    requires from <= |before| && CarriedOut(v, u, before[from..], a, replies) && a <= b
    requires e.ticket == cmd.completion && InHand(cmd, a, |a|) && Performs(u, w, cmd, made, e.result, replies)
    ensures CarriedOut(v, w, (before + [e])[from..], b, replies)
  {
    hide Performs, CarriedOut;
    assert (before + [e])[from..] == before[from..] + [e];
    CarriedGrows(v, u, before[from..], a, b, replies);
    CarriesMore(v, u, w, before[from..], e, b, made, replies);
  }

  lemma NoneCarried(v: MgrView, w: MgrView, accepted: seq<CmdData>, replies: nat -> Reply)
    requires CarriedOut(v, w, [], accepted, replies)
    ensures w == v
  {}

  lemma {:induction false} CarriedThrough(v: MgrView, u: MgrView, w: MgrView, first: seq<Exec>, second: seq<Exec>,
                                          accepted: seq<CmdData>, replies: nat -> Reply)
    requires CarriedOut(v, u, first, accepted, replies) && CarriedOut(u, w, second, accepted, replies)
    ensures CarriedOut(v, w, first + second, accepted, replies)
    decreases |second|
  {
    hide Performs, CarriedOut;
    if second == [] {
      NoneCarried(u, w, accepted, replies);
      assert first + second == first;
    } else {
      var n := |second| - 1;
      var x, made := LastCarried(u, w, second, accepted, replies);
      CarriedThrough(v, u, x, first, second[..n], accepted, replies);
      CarriesMore(v, x, w, first + second[..n], second[n], accepted, made, replies);
      assert first + second == (first + second[..n]) + [second[n]];
    }
  }

  // --------------------------------------------- commands lead no stream astray

  lemma PerformsKeepsAstray(v: MgrView, w: MgrView, cmd: CmdData, made: Made, result: Option<ReactorID>,
                            replies: nat -> Reply)
    requires Performs(v, w, cmd, made, result, replies) && OwnSockets(v.handlers, v.poller)
    ensures OwnSockets(w.handlers, w.poller) && Astray(w.handlers, w.poller) <= Astray(v.handlers, v.poller)
  {
    forall k | k in Astray(w.handlers, w.poller) ensures k in Astray(v.handlers, v.poller) {
      assert k in v.handlers && w.handlers[k].sock == v.handlers[k].sock;
    }
  }

  lemma {:induction false} CarriedKeepsAstray(v: MgrView, w: MgrView, executed: seq<Exec>, accepted: seq<CmdData>,
                                              replies: nat -> Reply)
    requires CarriedOut(v, w, executed, accepted, replies) && OwnSockets(v.handlers, v.poller)
    ensures OwnSockets(w.handlers, w.poller) && Astray(w.handlers, w.poller) <= Astray(v.handlers, v.poller)
    decreases |executed|
  {
    hide Performs, CarriedOut, OwnSockets, Astray;
    if executed == [] {
      NoneCarried(v, w, accepted, replies);
    } else {
      var n := |executed| - 1;
      var u, made := LastCarried(v, w, executed, accepted, replies);
      CarriedKeepsAstray(v, u, executed[..n], accepted, replies);
      PerformsKeepsAstray(u, w, accepted[executed[n].ticket], made, executed[n].result, replies);
    }
  }
}
