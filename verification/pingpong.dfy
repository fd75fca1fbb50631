/** The message format of examples/example/pingpong.rs: two bytes of body length,
    low byte first, eight bytes of send time, then the body. */
module Pingpong {
  import opened FlatStorages
  import opened Sending
  import opened SendingLaws
  import opened Receiving
  import opened ReceivingLaws

  const MSG_HEADER_SIZE: nat := 10

  /** The eight bytes of a time stamp. */
  type Stamp = s: bytes | |s| == 8 witness [0, 0, 0, 0, 0, 0, 0, 0]

  datatype Mail = Mail(body: bytes, time: Stamp)

  /** The body is short enough for the length field. */
  predicate Fits(m: Mail) { |m.body| <= 65535 }

  /** The length is cast to 16 bits. */
  function Encode(m: Mail): (r: bytes)
    ensures |r| == MSG_HEADER_SIZE + |m.body|
  {
    var n := |m.body| % 0x1_0000;
    [(n % 256) as byte, (n / 256) as byte] + m.time + m.body
  }

  /** send_msg up to the send: the buffer is filled in place, body first. */
  method EncodeMsg(m: Mail) returns (msg: bytes)
    ensures msg == Encode(m)
    ensures |msg| == MSG_HEADER_SIZE + |m.body|
    ensures msg[0] as nat + 256 * msg[1] as nat == |m.body| % 0x1_0000
    ensures msg[2..MSG_HEADER_SIZE] == m.time && msg[MSG_HEADER_SIZE..] == m.body
  {
    var len := |m.body|;
    var buf := new byte[len + MSG_HEADER_SIZE](i => 0);
    forall i | 0 <= i < len {
      buf[MSG_HEADER_SIZE + i] := m.body[i];
    }
    var n := len % 0x1_0000;
    buf[0], buf[1] := (n % 256) as byte, (n / 256) as byte;
    forall i | 0 <= i < 8 {
      buf[2 + i] := m.time[i];
    }
    assert buf[..2] == [(n % 256) as byte, (n / 256) as byte];
    assert buf[2..10] == m.time && buf[10..] == m.body;
    assert buf[..] == buf[..2] + buf[2..10] + buf[10..];
    msg := buf[..];
  }

  /** The size of the message that starts here, from its header. */
  function MsgSize(w: bytes): nat
    requires |w| >= MSG_HEADER_SIZE
  {
    MSG_HEADER_SIZE + w[0] as nat + 256 * w[1] as nat
  }

  /** The message at the front, as the handler reads it: the body is what follows the
      header, as long as the length field says. */
  function Decode(w: bytes): Option<Mail> {
    if |w| < MSG_HEADER_SIZE || MsgSize(w) > |w| then None
    else Some(Mail(w[MSG_HEADER_SIZE..MsgSize(w)], w[2..MSG_HEADER_SIZE]))
  }

  /** Decoding what was encoded gives back the message if and only if its body is
      short enough for the length field; but the body is always there. */
  lemma DecodeGivesBack(m: Mail, t: bytes)
    ensures Decode(Encode(m) + t) == Some(m) <==> Fits(m)
    ensures Encode(m)[2..MSG_HEADER_SIZE] == m.time && Encode(m)[MSG_HEADER_SIZE..] == m.body
  {
    var s, n := Encode(m) + t, |m.body| % 0x1_0000;
    assert s[0] == (n % 256) as byte && s[1] == (n / 256) as byte;
    assert MsgSize(s) == MSG_HEADER_SIZE + n;
    assert s[2..MSG_HEADER_SIZE] == m.time;
    assert Encode(m)[MSG_HEADER_SIZE..] == m.body;
    assert s[MSG_HEADER_SIZE..MSG_HEADER_SIZE + n] == m.body[..n];
    if Fits(m) {
      assert m.body[..n] == m.body;
    }
  }

  function PingFrame(s: bytes): Frame {
    if |s| < MSG_HEADER_SIZE then Need(0)
    else if MsgSize(s) > |s| then Need(MsgSize(s))
    else Whole(MsgSize(s))
  }

  /** on_inbound_message while the echo limit is not reached: it decodes the
      header unless the size is known, and writes the time into the message. */
  function OnInboundMessage(w: bytes, size: nat, now: Stamp): (r: Reply)
    ensures w != [] && size <= |w| ==>
      |r.slice| == |w| && (r.verdict.DropMsgSize? ==> 0 < r.verdict.n <= |w|)
  {
    if size == 0 && |w| < MSG_HEADER_SIZE then Reply(ExpectMsgSize(0), w)
    else
      var msgSize := if size == 0 then MsgSize(w) else size;
      if size == 0 && msgSize > |w| then Reply(ExpectMsgSize(msgSize), w)
      else Reply(DropMsgSize(msgSize), if |w| >= MSG_HEADER_SIZE then w[..2] + now + w[MSG_HEADER_SIZE..] else w)
  }

  /** `clock` tells what time the handler reads in each call. */
  function PingDispatcher(clock: nat -> Stamp): (d: Dispatcher)
    ensures Lawful(d)
  {
    var d: Dispatcher := (k: nat, w: bytes, unseen: nat, size: nat) => OnInboundMessage(w, size, clock(k));
    assert Lawful(d) by {
      hide OnInboundMessage;
      forall k: nat, w: bytes, unseen: nat, size: nat | w != [] && size <= |w|
        ensures |d(k, w, unseen, size).slice| == |w|
        ensures d(k, w, unseen, size).verdict.DropMsgSize? ==> 0 < d(k, w, unseen, size).verdict.n <= |w|
      {
        assert d(k, w, unseen, size) == OnInboundMessage(w, size, clock(k));
      }
    }
    d
  }

  // ------------------------------------------------------------ a lawful codec

  lemma PingFrameIsStable()
    ensures Stable(PingFrame)
  {
    forall s: bytes, t: bytes
      ensures PingFrame(s).Whole? ==> PingFrame(s + t) == PingFrame(s)
      ensures PingFrame(s).Need? && |s + t| < PingFrame(s).n ==> PingFrame(s + t).Need?
    {
      if |s| >= MSG_HEADER_SIZE {
        assert (s + t)[0] == s[0] && (s + t)[1] == s[1];
      }
    }
  }

  lemma HintIsMsgSize(w: bytes, size: nat)
    requires Hint(PingFrame, w, size) && size != 0
    ensures |w| >= MSG_HEADER_SIZE && size == MsgSize(w)
  {
    var k :| 0 <= k <= |w| && PingFrame(w[..k]) == Need(size);
    assert w[..k][0] == w[0] && w[..k][1] == w[1];
  }

  lemma AnswersByFrame(w: bytes, size: nat, now: Stamp)
    requires w != [] && size <= |w| && Hint(PingFrame, w, size)
    ensures var r := OnInboundMessage(w, size, now);
      && r.verdict == VerdictOf(PingFrame(w))
      && (PingFrame(w).Whole? ==> r.slice[PingFrame(w).n..] == w[PingFrame(w).n..])
      && (PingFrame(w).Need? ==> r.slice == w)
  {
    if size != 0 {
      HintIsMsgSize(w, size);
    }
  }

  /** A whole message is dropped with its own time replaced by the present one; that is
      what is echoed. Its length, its body and what follows it stay. */
  lemma StampsTheTime(w: bytes, size: nat, now: Stamp)
    requires w != [] && size <= |w| && Hint(PingFrame, w, size) && Decode(w).Some?
    ensures var r, m := OnInboundMessage(w, size, now), Decode(w).value;
      && r.verdict == DropMsgSize(MSG_HEADER_SIZE + |m.body|)
      && |r.slice| == |w| && r.slice[..2] == w[..2]
      && Decode(r.slice[..r.verdict.n]) == Some(Mail(m.body, now))
      && r.slice[r.verdict.n..] == w[r.verdict.n..]
  {
    if size != 0 {
      HintIsMsgSize(w, size);
    }
    Restamped(w, now, MsgSize(w));
  }

  lemma Restamped(w: bytes, now: Stamp, n: nat)
    requires MSG_HEADER_SIZE <= n <= |w|
    ensures var s := w[..2] + now + w[MSG_HEADER_SIZE..];
      && |s| == |w| && s[..2] == w[..2] && s[n..] == w[n..]
      && s[..n][0] == w[0] && s[..n][1] == w[1]
      && s[..n][2..MSG_HEADER_SIZE] == now
      && s[..n][MSG_HEADER_SIZE..n] == w[MSG_HEADER_SIZE..n]
  {
    var s := w[..2] + now + w[MSG_HEADER_SIZE..];
    forall i | 0 <= i < |w|
      ensures s[i] == if i < 2 then w[i] else if i < MSG_HEADER_SIZE then now[i - 2] else w[i]
    {}
  }

  /** on_inbound_message follows the framing, although it overwrites the time,
      each time with another one. */
  lemma PingDispatcherFollows(clock: nat -> Stamp)
    ensures Follows(PingDispatcher(clock), PingFrame)
  {
    PingFrameIsStable();
    var d := PingDispatcher(clock);
    forall k: nat, w: bytes, unseen: nat, size: nat | w != [] && size <= |w| && Hint(PingFrame, w, size)
      ensures d(k, w, unseen, size).verdict == VerdictOf(PingFrame(w))
      ensures PingFrame(w).Whole? ==> d(k, w, unseen, size).slice[PingFrame(w).n..] == w[PingFrame(w).n..]
      ensures PingFrame(w).Need? ==> d(k, w, unseen, size).slice == w
    {
      AnswersByFrame(w, size, clock(k));
      assert d(k, w, unseen, size) == OnInboundMessage(w, size, clock(k));
    }
  }

  // ------------------------------------------------------------ many messages

  function Encodings(ms: seq<Mail>): (r: seq<bytes>)
    ensures |r| == |ms|
  {
    if ms == [] then [] else [Encode(ms[0])] + Encodings(ms[1..])
  }

  lemma {:induction false} EncodingAt(ms: seq<Mail>, i: nat)
    requires i < |ms|
    ensures Encodings(ms)[i] == Encode(ms[i])
    decreases i
  {
    if i > 0 {
      EncodingAt(ms[1..], i - 1);
    }
  }

  /** These bytes are this message, with its body and its time. */
  ghost predicate Carries(w: bytes, m: Mail) {
    && |w| == MSG_HEADER_SIZE + |m.body|
    && w[MSG_HEADER_SIZE..] == m.body
    && w[2..MSG_HEADER_SIZE] == m.time
    && Decode(w) == Some(m)
  }

  /** What was dispatched are the first messages that were sent. */
  ghost predicate AreSent(log: seq<bytes>, ms: seq<Mail>) {
    |log| <= |ms| && forall i :: 0 <= i < |log| ==> Carries(log[i], ms[i])
  }

  lemma EncodingCarries(m: Mail)
    requires Fits(m)
    ensures Carries(Encode(m), m)
  {
    DecodeGivesBack(m, []);
    assert Encode(m) + [] == Encode(m);
  }

  lemma {:induction false} EncodingsAreSent(log: seq<bytes>, ms: seq<Mail>)
    requires log <= Encodings(ms) && forall i :: 0 <= i < |ms| ==> Fits(ms[i])
    ensures AreSent(log, ms)
  {
    hide Encodings, Encode, Carries, Fits;
    forall i | 0 <= i < |log| ensures Carries(log[i], ms[i]) {
      EncodingAt(ms, i);
      EncodingCarries(ms[i]);
      assert log[i] == Encodings(ms)[i];
    }
  }

  lemma EncodedSize(m: Mail, t: bytes)
    ensures PingFrame(Encode(m) + t).Whole? && PingFrame(Encode(m) + t).n <= |Encode(m)|
    ensures PingFrame(Encode(m) + t).n == |Encode(m)| <==> Fits(m)
  {
    var n := |m.body| % 0x1_0000;
    var s := Encode(m) + t;
    assert s[0] == (n % 256) as byte && s[1] == (n / 256) as byte;
    assert MsgSize(s) == MSG_HEADER_SIZE + n;
  }

  lemma EncodedHead(m: Mail, t: bytes)
    ensures Fits(m) ==>
      Parse(PingFrame, Encode(m) + t) == Parsed([Encode(m)] + Parse(PingFrame, t).msgs, Parse(PingFrame, t).rest)
    ensures !Fits(m) ==>
      var msgs := Parse(PingFrame, Encode(m) + t).msgs; msgs != [] && |msgs[0]| < |Encode(m)|
  {
    var s := Encode(m) + t;
    EncodedSize(m, t);
    if Fits(m) {
      assert s[..|Encode(m)|] == Encode(m) && s[|Encode(m)|..] == t;
    }
  }

  /** The concatenation of encoded messages parses back to exactly those messages
      if and only if every body is short enough for its length field. */
  lemma {:induction false} EncodingsParse(ms: seq<Mail>)
    ensures Parse(PingFrame, Flat(Encodings(ms))) == Parsed(Encodings(ms), []) <==>
      forall i :: 0 <= i < |ms| ==> Fits(ms[i])
    decreases |ms|
  {
    if ms != [] {
      var rest := ms[1..];
      EncodedHead(ms[0], Flat(Encodings(rest)));
      EncodingsParse(rest);
      assert Encodings(ms)[1..] == Encodings(rest) && Encodings(ms)[0] == Encode(ms[0]);
      assert (forall i :: 0 <= i < |ms| ==> Fits(ms[i])) <==>
             Fits(ms[0]) && (forall i :: 0 <= i < |rest| ==> Fits(rest[i])) by {
        assert forall i :: 0 < i < |ms| ==> ms[i] == rest[i - 1];
      }
    }
  }

  // -------------------------------------------------------------- end to end

  lemma ParseOfPrefix(read: bytes, all: bytes)
    requires read <= all
    ensures Parse(PingFrame, read).msgs <= Parse(PingFrame, all).msgs
  {
    assert all == read + all[|read|..];
    PingFrameIsStable();
    ParseResumes(PingFrame, read, all[|read|..]);
  }

  /** A reader that is given a part of a stream of encoded messages. */
  lemma ReadsEncodings(ms: seq<Mail>, events: seq<Event>, reserve: nat, clock: nat -> Stamp)
    requires forall i :: 0 <= i < |ms| ==> Fits(ms[i])
    requires Arrived(events) <= Flat(Encodings(ms))
    ensures var x := RunEvents(Session(NewReader(reserve), []), events, PingDispatcher(clock));
      && AreSent(x.r.log, ms)
      && (Arrived(events) == Flat(Encodings(ms)) && x.inbox == [] ==> |x.r.log| == |ms| && x.r.window == [])
  {
    var x := RunEvents(Session(NewReader(reserve), []), events, PingDispatcher(clock));
    hide Follows, Stable, Lawful, Hint, Parse, Encodings, RunEvents, Flat;
    PingDispatcherFollows(clock);
    ChunkingInvariance(PingFrame, PingDispatcher(clock), reserve, events);
    EncodingsParse(ms);
    var all, read := Arrived(events), Arrived(events)[..|Arrived(events)| - |x.inbox|];
    ParseOfPrefix(read, Flat(Encodings(ms)));
    EncodingsAreSent(x.r.log, ms);
    hide AreSent;
    assert x.inbox == [] ==> read == all;
  }

  /** Messages sent through a MsgSender over any error-free run, whatever the
      socket accepts and when, and read by a MsgReader in any portions with any
      strategy: what has been dispatched are the first messages that were sent, with
      the bodies and times that were sent, and it is all of them once the sender is
      drained and the reader has read everything. */
  lemma SenderToReader(script: seq<WriteStep>, ops: seq<Op>, timing: Timing, ms: seq<Mail>,
                       events: seq<Event>, reserve: nat, clock: nat -> Stamp)
    requires forall i :: 0 <= i < |ms| ==> Fits(ms[i])
    requires ErrorFree(Fresh(script), ops, 0, timing) && Messages(ops) == Flat(Encodings(ms))
    requires Arrived(events) <= Run(Fresh(script), ops, 0, timing).net.wire
    ensures var l := Run(Fresh(script), ops, 0, timing);
      var x := RunEvents(Session(NewReader(reserve), []), events, PingDispatcher(clock));
      && |x.r.log| <= |ms|
      && (forall i :: 0 <= i < |x.r.log| ==>
            && |x.r.log[i]| == MSG_HEADER_SIZE + |ms[i].body|
            && x.r.log[i][MSG_HEADER_SIZE..] == ms[i].body
            && x.r.log[i][2..MSG_HEADER_SIZE] == ms[i].time
            && Decode(x.r.log[i]) == Some(ms[i]))
      && (l.s.buf == [] && Arrived(events) == l.net.wire && x.inbox == [] ==> |x.r.log| == |ms| && x.r.window == [])
  {
    hide Run, ErrorFree, RunEvents, Messages, Encodings, Flat;
    FreshStream(script, ops, timing);
    ReadsEncodings(ms, events, reserve, clock);
  }
}
