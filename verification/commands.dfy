/** The command channel of src/reactor.rs: CmdSender, CmdData and the receiver. */
module Commands {
  import opened FlatStorages
  import opened Registry
  import opened Scheduling

  datatype SysCommand = NewConnect | NewListen | CloseSocket | UserCmd

  /** `completion` is the position of the command among all those that the channel
      has accepted; it stands for the command's own completion callback. */
  datatype CmdData = CmdData(reactorid: ReactorID, cmd: SysCommand, deferred: Deferred, completion: nat)

  /** The check that send_cmd makes. */
  predicate Sendable(id: ReactorID, cmd: SysCommand) {
    match cmd
    case NewConnect => id == INVALID_REACTOR_ID
    case NewListen => id == INVALID_REACTOR_ID
    case UserCmd => id != INVALID_REACTOR_ID
    case CloseSocket => true
  }

  datatype Request = Request(reactorid: ReactorID, cmd: SysCommand, deferred: Deferred)

  ghost predicate Numbered(accepted: seq<CmdData>) {
    forall i :: 0 <= i < |accepted| ==> accepted[i].completion == i && Sendable(accepted[i].reactorid, accepted[i].cmd)
  }

  class Channel {
    var queue: seq<CmdData>
    var count: nat
    ghost var accepted: seq<CmdData> // everything ever accepted
    ghost var taken: nat // how much of it has been received

    ghost predicate Valid()
      reads this
    {
      taken <= |accepted| == count && queue == accepted[taken..] && Numbered(accepted)
    }

    constructor ()
      ensures Valid() && accepted == [] && taken == 0
    {
      queue, count, accepted, taken := [], 0, [], 0;
    }

    method SendCmd(r: Request) returns (ok: bool)
      requires Valid()
      modifies this
      ensures Valid() && taken == old(taken)
      ensures ok <==> Sendable(r.reactorid, r.cmd)
      ensures r.cmd.NewConnect? || r.cmd.NewListen? ==> (ok <==> r.reactorid == INVALID_REACTOR_ID)
      ensures r.cmd.UserCmd? ==> (ok <==> r.reactorid != INVALID_REACTOR_ID)
      ensures r.cmd.CloseSocket? ==> ok
      ensures ok ==> accepted == old(accepted) + [CmdData(r.reactorid, r.cmd, r.deferred, old(count))]
      ensures !ok ==> accepted == old(accepted)
    {
      ok := Sendable(r.reactorid, r.cmd);
      if ok {
        var data := CmdData(r.reactorid, r.cmd, r.deferred, count);
        queue, count, accepted := queue + [data], count + 1, accepted + [data];
      }
    }

    /** Code of the user, or another thread: it may send any commands. */
    method UserCode()
      requires Valid()
      modifies this
      ensures Valid() && taken == old(taken) && old(accepted) <= accepted
    {
      var n: int := *;
      while n > 0
        invariant Valid() && taken == old(taken) && old(accepted) <= accepted
        decreases n
      {
        var r: Request := *;
        var sent := SendCmd(r);
        n := n - 1;
      }
    }

    /** Commands of other threads may arrive until the channel is looked at. */
    method TryRecv() returns (r: Option<CmdData>)
      requires Valid()
      modifies this
      ensures Valid() && old(accepted) <= accepted
      ensures r == None ==> queue == [] && taken == old(taken) == |accepted|
      ensures r.Some? ==> taken == old(taken) + 1 <= |accepted| && r.value == accepted[old(taken)]
    {
      UserCode();
      if queue == [] {
        return None;
      }
      r := Some(queue[0]);
      queue, taken := queue[1..], taken + 1;
    }
  }
}
