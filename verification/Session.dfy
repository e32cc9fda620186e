// One app-link session after HELLO, and the stock program on it: one echo round trip,
// then answering the host until its last window closes and quitting.
module Session {
  import opened Basics
  import opened Frame
  import opened Mux
  import Text

  // writes is how many more frame writes succeed before one fails, for whatever reason.
  datatype Link = Link(mux: State, nextCorr: int, closed: bool, sent: seq<Frame>, writes: nat)

  function NextCorr(corr: int): int {
    var next := (corr + 1) % 0x1_0000_0000;
    if next == 0 then 1 else next
  }

  function Message(kind: int, channel: int, corr: int, payload: seq<byte>): Frame {
    Frame(Header(kind, 0, channel, corr, |payload|), payload)
  }

  function Pong(ping: Frame): Frame {
    Message(PING, ping.header.channel, ping.header.corr, [])
  }

  function QuitCall(corr: int): Frame {
    Message(CALL, LIFECYCLE_CHANNEL, corr, [0])
  }

  // A failed write closes the session; so does a payload over the cap.
  function Send(l: Link, f: Frame): (Link, Result<()>) {
    if l.closed then (l, Err(Closed001))
    else if |f.payload| > MAX_FRAME_LEN then (l.(closed := true), Err(TooLarge004))
    else if l.writes == 0 then (l.(closed := true), Err(Deadline006))
    else (l.(sent := l.sent + [f], writes := l.writes - 1), Ok(()))
  }

  // Any failure of a receive closes the session.
  function ReceiveOn(l: Link, want: Policy, park: Option<Policy>): (Link, Result<Frame>) {
    if l.closed then (l, Err(Closed001))
    else
      var (m, r) := Received(l.mux, want, park);
      (l.(mux := m, closed := r.Err?), r)
  }

  function Echo(l: Link, message: seq<Text.unit>, count: int): (Link, Result<(seq<Text.unit>, int)>) {
    if l.closed then (l, Err(Closed001))
    else
      var corr, l1 := l.nextCorr, l.(nextCorr := NextCorr(l.nextCorr));
      match Text.EncodedEcho(message, count)
      case Err(code) => (l1, Err(code))
      case Ok(payload) =>
        var (l2, written) := Send(l1, Message(CALL, ECHO_CHANNEL, corr, payload));
        match written
        case Err(code) => (l2, Err(code))
        case Ok(_) =>
          var (l3, r) := ReceiveOn(l2, EchoReplyWaiter(corr), Some(LIFECYCLE_EVENT_RECEIVER));
          match r
          case Err(code) => (l3, Err(code))
          case Ok(reply) => (l3, Text.DecodedEcho(reply.payload))
  }

  datatype LifecycleEvent = Ready | LastWindowClosed

  function DecodedEvent(payload: seq<byte>): Result<LifecycleEvent> {
    if |payload| != 1 then Err(Codec003)
    else if payload[0] == 0 then Ok(Ready)
    else if payload[0] == 1 then Ok(LastWindowClosed)
    else Err(Codec003)
  }

  function Quit(l: Link): (Link, Result<()>) {
    var corr := l.nextCorr;
    var (l1, written) := Send(l.(nextCorr := NextCorr(corr)), QuitCall(corr));
    if written.Err? then (l1, written)
    else
      var (l2, r) := ReceiveOn(l1, LifecycleReplyWaiter(corr), None);
      match r
      case Err(code) => (l2, Err(code))
      case Ok(reply) =>
        if reply.header.kind == ERR then (l2, Err(Protocol005))
        else if reply.payload != [0] then (l2, Err(Codec003))
        else (l2, Ok(()))
  }

  function QuitAfterLastWindowClosed(l: Link): (Link, Result<()>)
    decreases |l.mux.Undelivered()|
  {
    var (l1, r) := ReceiveOn(l, LIFECYCLE_EVENT_RECEIVER, None);
    match r
    case Err(code) => (l1, Err(code))
    case Ok(f) =>
      ReceiveShrinks(l.mux, LIFECYCLE_EVENT_RECEIVER);
      if f.header.kind == PING then
        var (l2, written) := Send(l1, Pong(f));
        if written.Err? then (l2, written) else QuitAfterLastWindowClosed(l2)
      else match DecodedEvent(f.payload)
        case Err(code) => (l1, Err(code))
        case Ok(Ready) => QuitAfterLastWindowClosed(l1)
        case Ok(LastWindowClosed) => Quit(l1)
  }

  // The whole program; the session is closed whatever happens.
  function Program(l: Link, message: seq<Text.unit>, count: int): (Link, Result<()>) {
    var (l1, echoed) := Echo(l, message, count);
    if echoed.Err? then (l1.(closed := true), Err(echoed.code))
    else
      var (l2, r) := QuitAfterLastWindowClosed(l1);
      (l2.(closed := true), r)
  }

  lemma ReceiveShrinks(m: State, want: Policy)
    ensures Received(m, want, None).1.Ok? ==>
              |Received(m, want, None).0.Undelivered()| < |m.Undelivered()|
  {
  }

  // A closed session does nothing; otherwise a write fails only over the cap or when the
  // writes do, and every failed write or receive closes the session.
  lemma FailuresClose(
      l: Link, f: Frame, want: Policy, park: Option<Policy>, message: seq<Text.unit>, count: int)
    ensures l.closed ==> Send(l, f) == (l, Err(Closed001)) && ReceiveOn(l, want, park) == (l, Err(Closed001))
    ensures l.closed ==> Echo(l, message, count) == (l, Err(Closed001))
    ensures !l.closed ==>
              Send(l, f).1 == if |f.payload| > 0x100_0000 then Err(TooLarge004)
                              else if l.writes == 0 then Err(Deadline006)
                              else Ok(())
    ensures Send(l, f).1.Err? ==> Send(l, f).0 == l.(closed := true)
    ensures ReceiveOn(l, want, park).0.closed <==> ReceiveOn(l, want, park).1.Err?
  {
    hide Await, Text.EncodedEcho, Text.DecodedEcho;
  }

  // An echo or a Quit uses up the current id, whatever comes of it, and sends at most one
  // Call, under that id; an echo that succeeds got the Reply to it.
  lemma CallsUseUpIds(l: Link, message: seq<Text.unit>, count: int)
    requires !l.closed
    ensures var (l1, r) := Echo(l, message, count);
      && l1.nextCorr == NextCorr(l.nextCorr)
      && (l1.sent == l.sent || exists p ::
            Text.EncodedEcho(message, count) == Ok(p)
            && l1.sent == l.sent + [Frame(Header(CALL, 0, 1, l.nextCorr, |p|), p)])
      && (r.Ok? ==> |l1.sent| == |l.sent| + 1 && exists reply ::
            reply in l.mux.Undelivered() && reply.header == Header(REPLY, 0, 1, l.nextCorr, reply.header.len)
            && r == Text.DecodedEcho(reply.payload))
    ensures var l1 := Quit(l).0;
      l1.nextCorr == NextCorr(l.nextCorr)
      && (l1.sent == l.sent || l1.sent == l.sent + [Frame(Header(CALL, 0, 3, l.nextCorr, 1), [0])])
  {
    hide NextCorr;
    AwaitedIsUndelivered(l.mux, EchoReplyWaiter(l.nextCorr), Some(LIFECYCLE_EVENT_RECEIVER));
    forall f: Frame
      ensures Admits(EchoReplyWaiter(l.nextCorr), f) ==>
                f.header == Header(REPLY, 0, ECHO_CHANNEL, l.nextCorr, f.header.len)
    {
      StockPoliciesAdmit(f, l.nextCorr);
    }
  }

  lemma AwaitedIsUndelivered(m: State, want: Policy, park: Option<Policy>)
    ensures var r := Received(m, want, park).1;
      r.Ok? ==> r.value in m.Undelivered() && Admits(want, r.value)
  {
    hide Admits;
    AwaitFinds(m, want, park);
  }

  lemma {:induction false} AwaitFinds(m: State, want: Policy, park: Option<Policy>)
    ensures var r := Await(m, want, park).1;
      r.Ok? ==> r.value in m.incoming && Admits(want, r.value)
    decreases |m.incoming|
  {
    hide Admits;
    if m.incoming != [] && !Admits(want, m.incoming[0]) {
      AwaitFinds(State(m.parked + [m.incoming[0]], m.incoming[1..], m.end), want, park);
    }
  }

  class AppLinkSession {
    const directed: DirectedReader
    var nextCorr: int
    var closed: bool
    var sent: seq<Frame>
    var writes: nat

    ghost function Now(): Link
      reads this, directed
    {
      Link(directed.Now(), nextCorr, closed, sent, writes)
    }

    constructor (directed: DirectedReader, writes: nat)
      ensures this.directed == directed && Now() == Link(directed.Now(), 1, false, [], writes)
    {
      this.directed, this.writes := directed, writes;
      nextCorr, closed, sent := 1, false, [];
    }

    method Close()
      modifies this`closed
      ensures closed
    {
      closed := true;
    }

    method AllocCorr() returns (corr: int)
      modifies this`nextCorr
      ensures corr == old(nextCorr) && nextCorr == NextCorr(corr)
    {
      corr := nextCorr;
      var next := (corr + 1) % 0x1_0000_0000;
      if next == 0 {
        next := 1;
      }
      nextCorr := next;
    }

    method WriteFrame(f: Frame) returns (r: Result<()>)
      modifies this`sent, this`writes, this`closed
      ensures (Now(), r) == Send(old(Now()), f)
    {
      if closed {
        return Err(Closed001);
      }
      if |f.payload| > MAX_FRAME_LEN {
        Close();
        return Err(TooLarge004);
      }
      if writes == 0 {
        Close();
        return Err(Deadline006);
      }
      sent := sent + [f];
      writes := writes - 1;
      r := Ok(());
    }

    method Receive(want: Policy, park: Option<Policy>) returns (r: Result<Frame>)
      modifies this`closed, directed
      ensures (Now(), r) == ReceiveOn(old(Now()), want, park)
    {
      if closed {
        return Err(Closed001);
      }
      r := directed.Receive(want, park);
      if r.Err? {
        Close();
      }
    }

    method DoEcho(message: seq<Text.unit>, count: int) returns (r: Result<(seq<Text.unit>, int)>)
      modifies this, directed
      ensures (Now(), r) == Echo(old(Now()), message, count)
    {
      if closed {
        return Err(Closed001);
      }
      var corr := AllocCorr();
      var payload :- Text.EncodedEcho(message, count);
      var _ :- WriteFrame(Message(CALL, ECHO_CHANNEL, corr, payload));
      var reply :- Receive(EchoReplyWaiter(corr), Some(LIFECYCLE_EVENT_RECEIVER));
      r := Text.DecodedEcho(reply.payload);
    }
  }

  method DoQuitAfterLastWindowClosed(session: AppLinkSession) returns (r: Result<()>)
    modifies session, session.directed
    ensures (session.Now(), r) == QuitAfterLastWindowClosed(old(session.Now()))
  {
    hide Received;
    while true
      invariant QuitAfterLastWindowClosed(session.Now()) == QuitAfterLastWindowClosed(old(session.Now()))
      decreases |session.Now().mux.Undelivered()|
    {
      ReceiveShrinks(session.Now().mux, LIFECYCLE_EVENT_RECEIVER);
      var frame :- session.Receive(LIFECYCLE_EVENT_RECEIVER, None);
      if frame.header.kind == PING {
        var _ :- session.WriteFrame(Pong(frame));
        continue;
      }
      var event :- DecodedEvent(frame.payload);
      if event == Ready {
        continue;
      }
      var corr := session.AllocCorr();
      var _ :- session.WriteFrame(QuitCall(corr));
      var reply :- session.Receive(LifecycleReplyWaiter(corr), None);
      if reply.header.kind == ERR {
        return Err(Protocol005);
      }
      if |reply.payload| != 1 || reply.payload[0] != 0 {
        return Err(Codec003);
      }
      return Ok(());
    }
  }

  method RunStockProgram(session: AppLinkSession, message: seq<Text.unit>, count: int) returns (r: Result<()>)
    modifies session, session.directed
    ensures (session.Now(), r) == Program(old(session.Now()), message, count)
  {
    hide Echo, QuitAfterLastWindowClosed;
    var echoed := session.DoEcho(message, count);
    if echoed.Err? {
      session.Close();
      return Err(echoed.code);
    }
    r := DoQuitAfterLastWindowClosed(session);
    session.Close();
  }
}
