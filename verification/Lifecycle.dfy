// What the stock program says to the host, for every sequence of frames the host sends.
module Lifecycle {
  import opened Basics
  import opened Frame
  import opened Modular
  import opened Mux
  import opened Session
  import Text

  // A lifecycle frame the quit loop passes over: a PING, or a Ready event.
  predicate Continues(f: Frame) {
    Admits(LIFECYCLE_EVENT_RECEIVER, f) && (f.header.kind == PING || f.payload == [0])
  }

  predicate IsLastWindowClosed(f: Frame) {
    Admits(LIFECYCLE_EVENT_RECEIVER, f) && f.header.kind == EVENT && f.payload == [1]
  }

  function PongOf(f: Frame): seq<Frame> {
    if f.header.kind == PING then [Frame(Header(PING, 0, f.header.channel, f.header.corr, 0), [])] else []
  }

  function Pongs(frames: seq<Frame>): seq<Frame> {
    if frames == [] then [] else Pongs(frames[..|frames| - 1]) + PongOf(frames[|frames| - 1])
  }

  lemma {:induction false} PongsFront(frames: seq<Frame>)
    requires frames != []
    ensures Pongs(frames) == PongOf(frames[0]) + Pongs(frames[1..])
    decreases |frames|
  {
    var n := |frames| - 1;
    if n > 0 {
      PongsFront(frames[..n]);
      assert frames[..n][1..] == frames[1..][..n - 1];
    } else {
      assert frames[..0] == [] && frames[1..] == [];
    }
  }

  // The position of the first frame the loop does not pass over.
  function FirstStop(frames: seq<Frame>): (k: nat)
    ensures k <= |frames|
    ensures forall j :: 0 <= j < k ==> Continues(frames[j])
    ensures k < |frames| ==> !Continues(frames[k])
  {
    if frames == [] || !Continues(frames[0]) then 0 else 1 + FirstStop(frames[1..])
  }

  predicate Closes(frames: seq<Frame>) {
    FirstStop(frames) < |frames| && IsLastWindowClosed(frames[FirstStop(frames)])
  }

  // A Call of Quit on the lifecycle channel.
  function QuitRequest(corr: int): Frame {
    Frame(Header(CALL, 0, 3, corr, 1), [0])
  }

  // The conversation the host should see: one answer per PING before the last window
  // closes, in order, and then, if it does close, one Quit Call.
  function Answers(frames: seq<Frame>, corr: int): seq<Frame> {
    Pongs(frames[..FirstStop(frames)]) + if Closes(frames) then [QuitRequest(corr)] else []
  }

  // As much of a conversation as n writes allow.
  function Cut(frames: seq<Frame>, n: nat): seq<Frame> {
    if |frames| <= n then frames else frames[..n]
  }

  // Whether the host, sent a Quit Call after the frame at position k, replies with Quit
  // in the next frame it sends after the first n.
  predicate HostAgrees(frames: seq<Frame>, n: nat, corr: int) {
    n < |frames| && Admits(LifecycleReplyWaiter(corr), frames[n]) && frames[n].header.kind == REPLY
    && frames[n].payload == [0]
  }

  // Only lifecycle frames are parked, and the session can still be used.
  ghost predicate Listening(l: Link) {
    && !l.closed
    && |l.mux.parked| <= MAX_PARKED_FRAMES
    && forall i :: 0 <= i < |l.mux.parked| ==> Admits(LIFECYCLE_EVENT_RECEIVER, l.mux.parked[i])
  }

  // An idle receive takes the first undelivered frame, or fails on it.
  lemma IdleReceive(l: Link)
    requires Listening(l)
    ensures var (l1, r) := ReceiveOn(l, LIFECYCLE_EVENT_RECEIVER, None);
      var u := l.mux.Undelivered();
      && l1.sent == l.sent && l1.nextCorr == l.nextCorr && l1.writes == l.writes
      && (r.Ok? <==> u != [] && Admits(LIFECYCLE_EVENT_RECEIVER, u[0]))
      && (r.Err? ==> r.code == if u == [] then l.mux.end else Protocol005)
      && l1.mux.end == l.mux.end
      && (r.Ok? ==> r.value == u[0] && l1.mux.Undelivered() == u[1..] && Listening(l1)
                    && |l1.mux.parked| == if |l.mux.parked| == 0 then 0 else |l.mux.parked| - 1)
  {
    hide Admits;
    var m := l.mux;
    if m.parked != [] {
      FirstIs(LIFECYCLE_EVENT_RECEIVER, m.parked, 0);
      assert Without(m.parked, 0) == m.parked[1..];
      assert m.Undelivered()[1..] == m.parked[1..] + m.incoming;
    } else {
      FirstIsNone(LIFECYCLE_EVENT_RECEIVER, m.parked);
      assert m.Undelivered() == m.incoming;
    }
  }

  lemma QuitReceive(l: Link, corr: int)
    requires Listening(l)
    ensures var (l1, r) := ReceiveOn(l, LifecycleReplyWaiter(corr), None);
      var u, n := l.mux.Undelivered(), |l.mux.parked|;
      && l1.sent == l.sent
      && (r.Ok? <==> n < |u| && Admits(LifecycleReplyWaiter(corr), u[n]))
      && (r.Err? ==> r.code == if n >= |u| then l.mux.end else Protocol005)
      && (r.Ok? ==> r.value == u[n])
  {
    FirstIsNone(LifecycleReplyWaiter(corr), l.mux.parked);
    assert l.mux.incoming != [] ==> l.mux.Undelivered()[|l.mux.parked|] == l.mux.incoming[0];
  }

  // One frame of the loop, on the reference conversation.
  lemma AnswersUnfold(frames: seq<Frame>, corr: int)
    ensures frames != [] && Continues(frames[0]) ==>
              && Answers(frames, corr) ==
                 PongOf(frames[0]) + Answers(frames[1..], corr)
              && FirstStop(frames) == 1 + FirstStop(frames[1..])
              && Closes(frames) == Closes(frames[1..])
    ensures frames == [] || !Continues(frames[0]) ==>
              Answers(frames, corr) == if Closes(frames) then [QuitRequest(corr)] else []
  {
    hide Continues, IsLastWindowClosed, Pongs, PongOf;
    if frames != [] && Continues(frames[0]) {
      var k := FirstStop(frames[1..]);
      assert FirstStop(frames) == 1 + k;
      PongsFront(frames[..1 + k]);
      assert frames[..1 + k][1..] == frames[1..][..k];
      assert k < |frames[1..]| ==> frames[1..][k] == frames[1 + k];
    } else {
      NoPongs();
      assert frames[..0] == [];
    }
  }

  lemma NoPongs()
    ensures Pongs([]) == []
  {
  }

  // Position in the undelivered frames of the first frame the host sends after the loop
  // has stopped: frames still parked then are passed over.
  function AfterStop(l: Link): nat {
    Max(FirstStop(l.mux.Undelivered()) + 1, |l.mux.parked|)
  }

  // With which error the loop ends, if not well: the first failed write, the end of the
  // frames, a frame it does not expect or an event it cannot read, whichever comes first,
  // and then the same of the host's answer to the Quit Call.
  function Trouble(frames: seq<Frame>, after: nat, writes: nat, corr: int, end: ErrorCode): ErrorCode {
    var stop := FirstStop(frames);
    var pongs := |Pongs(frames[..stop])|;
    if writes < pongs then Deadline006
    else if stop == |frames| then end
    else if !Admits(LIFECYCLE_EVENT_RECEIVER, frames[stop]) then Protocol005
    else if frames[stop].payload != [1] then Codec003
    else if writes == pongs then Deadline006
    else if after >= |frames| then end
    else if !Admits(LifecycleReplyWaiter(corr), frames[after]) || frames[after].header.kind == ERR then Protocol005
    else Codec003
  }

  lemma TroubleUnfolds(frames: seq<Frame>, after: nat, writes: nat, corr: int, end: ErrorCode)
    requires frames != [] && Continues(frames[0]) && after > 0
    ensures Trouble(frames, after, writes, corr, end) ==
            if frames[0].header.kind != PING then Trouble(frames[1..], after - 1, writes, corr, end)
            else if writes == 0 then Deadline006
            else Trouble(frames[1..], after - 1, writes - 1, corr, end)
  {
    hide Continues, Pongs, Admits;
    var k := FirstStop(frames[1..]);
    PongsFront(frames[..1 + k]);
    assert frames[..1 + k][1..] == frames[1..][..k];
  }

  // The quit loop holds exactly the reference conversation on the undelivered frames, in
  // arrival order, whatever they are, up to its first failed write; and it succeeds
  // exactly when every write does, the last window closes and the host's next frame is
  // its agreement.
  lemma {:induction false} QuitLoopAnswers(l: Link)
    requires Listening(l)
    ensures var (l1, r) := QuitAfterLastWindowClosed(l);
      var u := l.mux.Undelivered();
      var all := Answers(u, l.nextCorr);
      && l1.sent == l.sent + Cut(all, l.writes)
      && (r.Ok? <==> |all| <= l.writes && Closes(u) && HostAgrees(u, AfterStop(l), l.nextCorr))
      && (r.Err? ==> r.code == Trouble(u, AfterStop(l), l.writes, l.nextCorr, l.mux.end))
    decreases |l.mux.Undelivered()|
  {
    hide ReceiveOn, Quit, Answers, Closes, FirstStop, HostAgrees, Admits, Listening, Trouble;
    var u, corr := l.mux.Undelivered(), l.nextCorr;
    IdleReceive(l);
    AnswersUnfold(u, corr);
    var (l1, r) := ReceiveOn(l, LIFECYCLE_EVENT_RECEIVER, None);
    if r.Ok? && Continues(u[0]) {
      StopMoves(l, l1);
      TroubleUnfolds(u, AfterStop(l), l.writes, corr, l.mux.end);
      if u[0].header.kind != PING {
        QuitLoopAnswers(l1);
      } else if l.writes > 0 {
        var l2 := l1.(sent := l1.sent + [Pong(u[0])], writes := l1.writes - 1);
        StillListening(l1, l2);
        QuitLoopAnswers(l2);
        CutFurther(l.sent, Pong(u[0]), Answers(u[1..], corr), l.writes);
      } else {
        OpenWhenListening(l1);
      }
    } else if r.Ok? && IsLastWindowClosed(u[0]) {
      QuitSpeaks(l1);
      StopsHere(l, l1);
      TroubleHere(l, l1);
    } else {
      TroubleAtOnce(l);
      NeverCloses(u);
      AdmittedKinds(u);
      assert l.sent + [] == l.sent;
    }
  }

  lemma CutFurther(sent: seq<Frame>, f: Frame, rest: seq<Frame>, writes: nat)
    requires writes > 0
    ensures sent + [f] + Cut(rest, writes - 1) == sent + Cut([f] + rest, writes)
  {
  }

  lemma OpenWhenListening(l: Link)
    requires Listening(l)
    ensures !l.closed
  {
  }

  lemma StillListening(l: Link, l1: Link)
    requires Listening(l) && l1 == l.(sent := l1.sent, writes := l1.writes)
    ensures !l.closed && Listening(l1)
  {
  }

  // After a frame is passed over, the loop stops at the same place.
  lemma StopMoves(l: Link, l1: Link)
    requires var u := l.mux.Undelivered(); u != [] && Continues(u[0]) && l1.mux.Undelivered() == u[1..]
    requires |l1.mux.parked| == if |l.mux.parked| == 0 then 0 else |l.mux.parked| - 1
    ensures HostAgrees(l.mux.Undelivered(), AfterStop(l), l.nextCorr) ==
            HostAgrees(l1.mux.Undelivered(), AfterStop(l1), l.nextCorr)
  {
    hide Continues, Admits;
  }

  lemma StopsHere(l: Link, l1: Link)
    requires var u := l.mux.Undelivered(); u != [] && IsLastWindowClosed(u[0]) && l1.mux.Undelivered() == u[1..]
    requires |l1.mux.parked| == if |l.mux.parked| == 0 then 0 else |l.mux.parked| - 1
    ensures !Continues(l.mux.Undelivered()[0]) && Closes(l.mux.Undelivered())
    ensures HostAgrees(l.mux.Undelivered(), AfterStop(l), l.nextCorr) ==
            HostAgrees(l1.mux.Undelivered(), |l1.mux.parked|, l.nextCorr)
  {
    hide Admits;
  }

  lemma TroubleHere(l: Link, l1: Link)
    requires var u := l.mux.Undelivered(); u != [] && IsLastWindowClosed(u[0]) && l1.mux.Undelivered() == u[1..]
    requires |l1.mux.parked| == if |l.mux.parked| == 0 then 0 else |l.mux.parked| - 1
    ensures var u := l1.mux.Undelivered();
      Trouble(l.mux.Undelivered(), AfterStop(l), l.writes, l.nextCorr, l.mux.end) ==
      QuitTrouble(u, |l1.mux.parked|, l.writes, l.nextCorr, l.mux.end)
  {
    hide Admits;
    NoPongs();
    assert l.mux.Undelivered()[..0] == [];
  }

  lemma TroubleAtOnce(l: Link)
    requires var u := l.mux.Undelivered(); u == [] || (!Continues(u[0]) && !IsLastWindowClosed(u[0]))
    ensures var u := l.mux.Undelivered();
      Trouble(u, AfterStop(l), l.writes, l.nextCorr, l.mux.end) ==
      if u == [] then l.mux.end
      else if !Admits(LIFECYCLE_EVENT_RECEIVER, u[0]) then Protocol005
      else Codec003
  {
    NoPongs();
    assert l.mux.Undelivered()[..0] == [];
  }

  function QuitTrouble(frames: seq<Frame>, n: nat, writes: nat, corr: int, end: ErrorCode): ErrorCode {
    if writes == 0 then Deadline006
    else if n >= |frames| then end
    else if !Admits(LifecycleReplyWaiter(corr), frames[n]) || frames[n].header.kind == ERR then Protocol005
    else Codec003
  }

  lemma NeverCloses(frames: seq<Frame>)
    requires frames == [] || (!Continues(frames[0]) && !IsLastWindowClosed(frames[0]))
    ensures !Closes(frames)
  {
  }

  // A lifecycle frame is an event or a PING.
  lemma AdmittedKinds(frames: seq<Frame>)
    ensures frames != [] && Admits(LIFECYCLE_EVENT_RECEIVER, frames[0]) ==> frames[0].header.kind in {EVENT, PING}
  {
  }

  lemma QuitSpeaks(l: Link)
    requires Listening(l)
    ensures var (l1, r) := Quit(l);
      && l1.sent == l.sent + Cut([QuitRequest(l.nextCorr)], l.writes)
      && (r.Ok? <==> l.writes > 0 && HostAgrees(l.mux.Undelivered(), |l.mux.parked|, l.nextCorr))
      && (r.Err? ==> r.code == QuitTrouble(l.mux.Undelivered(), |l.mux.parked|, l.writes, l.nextCorr, l.mux.end))
  {
    hide Received, Admits;
    if l.writes > 0 {
      QuitReceive(Send(l.(nextCorr := NextCorr(l.nextCorr)), QuitCall(l.nextCorr)).0, l.nextCorr);
      ReplyKinds(l.mux.Undelivered(), |l.mux.parked|, l.nextCorr);
    }
  }

  lemma ReplyKinds(frames: seq<Frame>, n: nat, corr: int)
    ensures n < |frames| && Admits(LifecycleReplyWaiter(corr), frames[n]) ==> frames[n].header.kind in {REPLY, ERR}
  {
  }

  // ---- the whole program ----

  function Reply(script: seq<Frame>): Option<nat> {
    FirstAdmitted(EchoReplyWaiter(1), script)
  }

  // The echo succeeds exactly when a decodable Reply arrives, with at most
  // MAX_PARKED_FRAMES frames before it, all of them lifecycle events or PINGs.
  predicate EchoPasses(script: seq<Frame>) {
    match Reply(script)
    case None => false
    case Some(i) =>
      && i <= MAX_PARKED_FRAMES
      && (forall j :: 0 <= j < i ==> Admits(LIFECYCLE_EVENT_RECEIVER, script[j]))
      && Text.DecodedEcho(script[i].payload).Ok?
  }

  function Opened(script: seq<Frame>, end: ErrorCode, writes: nat): Link {
    Link(State([], script, end), 1, false, [], writes)
  }

  // So few frames, all of the lifecycle, that all of them can be parked.
  ghost predicate AllPassing(frames: seq<Frame>) {
    |frames| <= MAX_PARKED_FRAMES && forall i :: 0 <= i < |frames| ==> Admits(LIFECYCLE_EVENT_RECEIVER, frames[i])
  }

  // Parking up to the first reply.
  lemma {:induction false} AwaitParks(m: State, corr: int)
    requires FirstAdmitted(EchoReplyWaiter(corr), m.parked) == None && |m.parked| <= MAX_PARKED_FRAMES
    requires forall i :: 0 <= i < |m.parked| ==> Admits(LIFECYCLE_EVENT_RECEIVER, m.parked[i])
    ensures var (m1, r) := Await(m, EchoReplyWaiter(corr), Some(LIFECYCLE_EVENT_RECEIVER));
      var first := FirstAdmitted(EchoReplyWaiter(corr), m.Undelivered());
      && (forall i :: 0 <= i < |m1.parked| ==> Admits(LIFECYCLE_EVENT_RECEIVER, m1.parked[i]))
      && (r.Ok? ==> first.Some? && |m1.parked| == first.value)
      && m1.end == m.end && (r.Err? ==> r.code == if AllPassing(m.Undelivered()) then m.end else Protocol005)
    decreases |m.incoming|
  {
    hide Admits, FirstAdmitted;
    if m.incoming != [] {
      var f, u := m.incoming[0], m.Undelivered();
      assert u[|m.parked|] == f && forall j :: 0 <= j < |m.parked| ==> u[j] == m.parked[j];
      if Admits(EchoReplyWaiter(corr), f) {
        FirstIsAny(EchoReplyWaiter(corr), m.parked);
        FirstIs(EchoReplyWaiter(corr), u, |m.parked|);
      } else if Parks(Some(LIFECYCLE_EVENT_RECEIVER), f) && |m.parked| < MAX_PARKED_FRAMES {
        var m2 := State(m.parked + [f], m.incoming[1..], m.end);
        FirstIsAny(EchoReplyWaiter(corr), m.parked);
        FirstIsNone(EchoReplyWaiter(corr), m2.parked);
        assert m2.Undelivered() == u;
        AwaitParks(m2, corr);
      }
    }
  }

  lemma FirstIsAny(want: Policy, frames: seq<Frame>)
    requires FirstAdmitted(want, frames) == None
    ensures forall j :: 0 <= j < |frames| ==> !Admits(want, frames[j])
  {
    var found := FirstAdmitted(want, frames);
  }

  lemma EchoReceives(script: seq<Frame>, end: ErrorCode)
    ensures var (m1, r) := Received(State([], script, end), EchoReplyWaiter(1), Some(LIFECYCLE_EVENT_RECEIVER));
      && (r.Ok? <==> Reply(script).Some? && Reply(script).value <= MAX_PARKED_FRAMES
                     && forall j :: 0 <= j < Reply(script).value ==> Admits(LIFECYCLE_EVENT_RECEIVER, script[j]))
      && (r.Ok? ==>
        && r.value == script[Reply(script).value]
        && m1.Undelivered() == Without(script, Reply(script).value)
        && |m1.parked| == Reply(script).value
        && forall i :: 0 <= i < |m1.parked| ==> Admits(LIFECYCLE_EVENT_RECEIVER, m1.parked[i]))
      && m1.end == end && (r.Err? ==> r.code == if AllPassing(script) then end else Protocol005)
  {
    hide Admits, FirstAdmitted, Await, Without, Reachable;
    var m := State([], script, end);
    assert m.Undelivered() == script;
    FirstIsNone(EchoReplyWaiter(1), []);
    AwaitParks(m, 1);
    ReceiveSelects(m, EchoReplyWaiter(1), Some(LIFECYCLE_EVENT_RECEIVER));
    ReachableFromStart(script, end);
  }

  lemma ReachableFromStart(script: seq<Frame>, end: ErrorCode)
    ensures var m := State([], script, end);
      Reply(script).Some? ==>
        (Reachable(m, Some(LIFECYCLE_EVENT_RECEIVER), Reply(script).value) <==>
         Reply(script).value <= MAX_PARKED_FRAMES
         && forall j :: 0 <= j < Reply(script).value ==> Admits(LIFECYCLE_EVENT_RECEIVER, script[j]))
  {
    hide Admits, FirstAdmitted;
    assert State([], script, end).Undelivered() == script;
  }

  // The echo Call, unless the request cannot be encoded or is over the payload cap.
  function EchoCall(message: seq<Text.unit>, count: int): seq<Frame> {
    match Text.EncodedEcho(message, count)
    case Err(_) => []
    case Ok(payload) =>
      if |payload| > MAX_FRAME_LEN then [] else [Frame(Header(CALL, 0, 1, 1, |payload|), payload)]
  }

  // With which error the echo ends, if not well.
  ghost function EchoTrouble(
      script: seq<Frame>, end: ErrorCode, writes: nat, message: seq<Text.unit>, count: int): ErrorCode
  {
    var payload := Text.EncodedEcho(message, count);
    if payload.Err? then Codec003
    else if |payload.value| > MAX_FRAME_LEN then TooLarge004
    else if writes == 0 then Deadline006
    else if AllPassing(script) then end
    else if Reply(script).Some? && Reply(script).value <= MAX_PARKED_FRAMES
            && forall j :: 0 <= j < Reply(script).value ==> Admits(LIFECYCLE_EVENT_RECEIVER, script[j]) then Codec003
    else Protocol005
  }

  ghost function ProgramTrouble(
      script: seq<Frame>, end: ErrorCode, writes: nat, message: seq<Text.unit>, count: int): ErrorCode
  {
    if EchoCall(message, count) == [] || writes == 0 || !EchoPasses(script) then
      EchoTrouble(script, end, writes, message, count)
    else
      var others, n := Without(script, Reply(script).value), Reply(script).value;
      Trouble(others, Max(FirstStop(others) + 1, n), writes - 1, 2, end)
  }

  // The frames the program should send: its echo Call and, once the echo has passed, the
  // reference conversation on all the other frames in arrival order, those that came
  // before the Reply included.
  function Conversation(script: seq<Frame>, call: seq<Frame>): seq<Frame> {
    call + if call != [] && EchoPasses(script) then Answers(Without(script, Reply(script).value), 2) else []
  }

  // The request can be sent, no write fails, the echo passes, the last window closes and
  // the host then agrees to quit.
  predicate EndsCleanly(script: seq<Frame>, writes: nat, call: seq<Frame>) {
    && call != [] && |Conversation(script, call)| <= writes && EchoPasses(script)
    && var others := Without(script, Reply(script).value);
    Closes(others) && HostAgrees(others, Max(FirstStop(others) + 1, Reply(script).value), 2)
  }

  // For every script of host frames and every request, the program sends exactly the
  // reference conversation up to its first failed write, and exits cleanly exactly when
  // the script and the writes allow it. Whatever happens, the session ends closed.
  lemma ProgramSpeaks(script: seq<Frame>, end: ErrorCode, writes: nat, message: seq<Text.unit>, count: int)
    ensures var (l, r) := Program(Opened(script, end, writes), message, count);
      var call := EchoCall(message, count);
      var all := Conversation(script, call);
      && l.closed && l.sent == Cut(all, writes)
      && (r.Ok? <==> EndsCleanly(script, writes, call))
      && (r.Err? ==> r.code == ProgramTrouble(script, end, writes, message, count))
  {
    hide Echo, EchoCall, Program, QuitAfterLastWindowClosed, Conversation, EndsCleanly, Answers, Closes, HostAgrees;
    hide FirstStop, Reply, Without, EchoPasses, Cut, Trouble, EchoTrouble;
    var opening, call := Opened(script, end, writes), EchoCall(message, count);
    ProgramUnfolds(opening, message, count);
    EchoSpeaks(script, end, writes, message, count);
    ConversationCut(script, call, writes);
    var (l1, echoed) := Echo(opening, message, count);
    if echoed.Ok? {
      QuitLoopAnswers(l1);
      CutAfterCall(call, [], writes);
      assert AfterStop(l1) == Max(FirstStop(l1.mux.Undelivered()) + 1, Reply(script).value);
      assert ProgramTrouble(script, end, writes, message, count) ==
             Trouble(l1.mux.Undelivered(), AfterStop(l1), writes - 1, 2, end);
      var r := Program(opening, message, count).1;
      assert r.Err? ==> r.code == QuitAfterLastWindowClosed(l1).1.code;
    } else {
      assert ProgramTrouble(script, end, writes, message, count) == EchoTrouble(script, end, writes, message, count);
    }
  }

  lemma ProgramUnfolds(l: Link, message: seq<Text.unit>, count: int)
    ensures var (l1, echoed) := Echo(l, message, count);
      var (l2, quit) := QuitAfterLastWindowClosed(l1);
      var (l3, r) := Program(l, message, count);
      && l3.closed && l3.sent == (if echoed.Ok? then l2.sent else l1.sent)
      && (r.Ok? <==> echoed.Ok? && quit.Ok?)
      && (r.Err? ==> r.code == if echoed.Err? then echoed.code else quit.code)
  {
  }

  lemma CutAfterCall(call: seq<Frame>, rest: seq<Frame>, writes: nat)
    ensures |call| == 1 && writes > 0 ==>
              && Cut(call, writes) == call
              && Cut(call + rest, writes) == call + Cut(rest, writes - 1)
    ensures writes == 0 ==> Cut(call, writes) == Cut(call + rest, writes) == []
    ensures call + [] == call
  {
  }

  // The conversation goes beyond the echo Call only if the Call is written and answered.
  lemma ConversationCut(script: seq<Frame>, call: seq<Frame>, writes: nat)
    requires |call| <= 1
    ensures var all := Conversation(script, call);
      if call == [] || writes == 0 || !EchoPasses(script) then
        Cut(all, writes) == Cut(call, writes) && !EndsCleanly(script, writes, call)
      else
        var others, n := Without(script, Reply(script).value), Reply(script).value;
        && Cut(all, writes) == call + Cut(Answers(others, 2), writes - 1)
        && (EndsCleanly(script, writes, call) <==>
            && |Answers(others, 2)| <= writes - 1
            && Closes(others) && HostAgrees(others, Max(FirstStop(others) + 1, n), 2))
  {
    hide Answers, Closes, HostAgrees, FirstStop, Without, FirstAdmitted, Admits, Text.DecodedEcho, Cut;
    if EchoPasses(script) {
      CutAfterCall(call, Answers(Without(script, Reply(script).value), 2), writes);
    } else {
      CutAfterCall(call, [], writes);
    }
  }

  // The session class over a directed reader of the host's frames, from HELLO to exit.
  method RunSession(script: seq<Frame>, end: ErrorCode, writes: nat, message: seq<Text.unit>, count: int)
    returns (sent: seq<Frame>, r: Result<()>)
    ensures sent == Cut(Conversation(script, EchoCall(message, count)), writes)
    ensures r.Ok? <==> EndsCleanly(script, writes, EchoCall(message, count))
    ensures r.Err? ==> r.code == ProgramTrouble(script, end, writes, message, count)
  {
    hide Program, EchoCall, Conversation, EndsCleanly, Cut, ProgramTrouble;
    var directed := new DirectedReader(script, end);
    var session := new AppLinkSession(directed, writes);
    r := RunStockProgram(session, message, count);
    ProgramSpeaks(script, end, writes, message, count);
    sent := session.sent;
  }

  // The echo sends its Call if it can, returns what the Reply says and leaves the loop
  // every other frame.
  lemma EchoSpeaks(script: seq<Frame>, end: ErrorCode, writes: nat, message: seq<Text.unit>, count: int)
    ensures var (l, r) := Echo(Opened(script, end, writes), message, count);
      var call := EchoCall(message, count);
      && |call| <= 1
      && l.sent == Cut(call, writes)
      && (r.Ok? <==> call != [] && writes > 0 && EchoPasses(script))
      && (r.Ok? ==>
            && Listening(l) && l.nextCorr == 2 && l.writes == writes - 1
            && Reply(script).Some? && r == Text.DecodedEcho(script[Reply(script).value].payload)
            && l.mux.Undelivered() == Without(script, Reply(script).value)
            && |l.mux.parked| == Reply(script).value)
      && l.mux.end == end && (r.Err? ==> r.code == EchoTrouble(script, end, writes, message, count))
  {
    hide Await, Admits, Text.EncodedEcho, Text.DecodedEcho;
    Text.CodecErrors(message, count, if Reply(script).Some? then script[Reply(script).value].payload else []);
    if Reply(script).Some? {
      StockPoliciesAdmit(script[Reply(script).value], 1);
    }
    EchoReceives(script, end);
    OpeningEcho(script, end, writes, message, count);
  }

  // The echo on a fresh session, step by step.
  lemma OpeningEcho(script: seq<Frame>, end: ErrorCode, writes: nat, message: seq<Text.unit>, count: int)
    ensures var (l, r) := Echo(Opened(script, end, writes), message, count);
      var payload := Text.EncodedEcho(message, count);
      var (m, reply) := Received(State([], script, end), EchoReplyWaiter(1), Some(LIFECYCLE_EVENT_RECEIVER));
      var call := EchoCall(message, count);
      if payload.Err? then r == Err(payload.code) && l.sent == [] && call == [] && l.mux.end == end
      else if |payload.value| > MAX_FRAME_LEN then
        r == Err(TooLarge004) && l.sent == [] && call == [] && l.mux.end == end
      else if writes == 0 then r == Err(Deadline006) && l.sent == [] && |call| == 1 && l.mux.end == end
      else
        && |call| == 1 && l == Link(m, 2, reply.Err?, call, writes - 1)
        && r == if reply.Err? then Err(reply.code) else Text.DecodedEcho(reply.value.payload)
  {
    assert [] + EchoCall(message, count) == EchoCall(message, count);
  }

  // What the reference conversation promises: every PING the loop passes over is
  // answered once, in order, with its own channel and correlation, and a Quit Call, if
  // any, comes last and only after LastWindowClosed.
  lemma {:induction false} PongsAnswerPings(frames: seq<Frame>) returns (pings: seq<nat>)
    ensures AnsweredBy(frames, pings)
    decreases |frames|
  {
    pings := [];
    if frames != [] {
      var n := |frames| - 1;
      pings := PongsAnswerPings(frames[..n]);
      if frames[n].header.kind == PING {
        pings := pings + [n];
      }
    }
  }

  // pings lists, in increasing order, the positions of all PINGs, and the pongs answer
  // them one by one.
  ghost predicate AnsweredBy(frames: seq<Frame>, pings: seq<nat>) {
    && |pings| == |Pongs(frames)|
    && (forall i :: 0 <= i < |pings| ==>
          && pings[i] < |frames| && frames[pings[i]].header.kind == PING
          && var f := frames[pings[i]];
          Pongs(frames)[i] == Frame(Header(PING, 0, f.header.channel, f.header.corr, 0), []))
    && (forall i, j :: 0 <= i < j < |pings| ==> pings[i] < pings[j])
    && (forall k :: 0 <= k < |frames| && frames[k].header.kind == PING ==> k in pings)
  }

  // ---- correlation ids ----

  const IDS := 0xffff_ffff

  function NthCorr(n: nat): int {
    if n == 0 then 1 else NextCorr(NthCorr(n - 1))
  }

  // Ids start at 1, are never the reserved 0, and repeat only after all 2^32 - 1 others.
  lemma {:induction false} CorrSequence(n: nat)
    ensures NthCorr(n) == 1 + n % IDS
    decreases n
  {
    if n > 0 {
      CorrSequence(n - 1);
      ModStep(n - 1, IDS);
    }
  }

  lemma CorrsAreDistinct(a: nat, b: nat)
    requires a < b
    ensures 1 <= NthCorr(a) <= IDS
    ensures NthCorr(a) == NthCorr(b) <==> (b - a) % IDS == 0
  {
    CorrSequence(a);
    CorrSequence(b);
    ModDiff(a, b, IDS);
  }
}
