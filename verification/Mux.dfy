// Receive policies, and the directed reader that waits for one policy while parking
// frames of another.
module Mux {
  import opened Basics
  import opened Frame

  const ECHO_CHANNEL := 1
  const LIFECYCLE_CHANNEL := 3
  const MAX_PARKED_FRAMES := 8

  datatype CorrRule = Zero | NonZero | Exactly(id: int)

  datatype Policy = Policy(
    channel: int,
    alsoChannel: Option<int>,
    kinds: set<int>,
    corr: CorrRule,
    exactLen: Option<int>,
    emptyPayload: bool,
    allowPing: bool)

  // FLAG_RAW and every other flag bit are refused alike.
  function ValidateReceivedHeader(policy: Policy, h: Header): Result<Header> {
    if policy.allowPing && h.kind == PING then
      if h.flags != 0 || h.len != 0 then Err(Protocol005) else Ok(h)
    else if h.kind !in policy.kinds then Err(Protocol005)
    else if h.flags != 0 then Err(Protocol005)
    else if h.channel != policy.channel && policy.alsoChannel != Some(h.channel) then Err(Protocol005)
    else if (match policy.corr
             case Zero => h.corr != 0
             case NonZero => h.corr == 0
             case Exactly(id) => h.corr != id) then Err(Protocol005)
    else if policy.exactLen.Some? && h.len != policy.exactLen.value then Err(Protocol005)
    else if policy.emptyPayload && h.len != 0 then Err(Protocol005)
    else Ok(h)
  }

  // A bare PING where pings are allowed; otherwise a kind, channel, correlation and length
  // the policy asks for, and no flags.
  lemma HeaderIsAdmitted(policy: Policy, h: Header)
    ensures var fits :=
        h.flags == 0 &&
        if policy.allowPing && h.kind == PING then h.len == 0
        else
          && h.kind in policy.kinds
          && (h.channel == policy.channel || Some(h.channel) == policy.alsoChannel)
          && (policy.corr == Zero ==> h.corr == 0)
          && (policy.corr == NonZero ==> h.corr != 0)
          && (policy.corr.Exactly? ==> h.corr == policy.corr.id)
          && (policy.exactLen != None ==> policy.exactLen == Some(h.len))
          && (policy.emptyPayload ==> h.len == 0);
      ValidateReceivedHeader(policy, h) == if fits then Ok(h) else Err(Protocol005)
  {
  }

  predicate Admits(policy: Policy, f: Frame) {
    ValidateReceivedHeader(policy, f.header).Ok?
  }

  predicate Parks(park: Option<Policy>, f: Frame) {
    park.Some? && Admits(park.value, f)
  }

  function EchoReplyWaiter(corr: int): Policy {
    Policy(ECHO_CHANNEL, None, {REPLY}, Exactly(corr), None, false, false)
  }

  function LifecycleReplyWaiter(corr: int): Policy {
    Policy(LIFECYCLE_CHANNEL, None, {REPLY, ERR}, Exactly(corr), None, false, false)
  }

  const LIFECYCLE_EVENT_RECEIVER := Policy(LIFECYCLE_CHANNEL, None, {EVENT}, Zero, None, false, true)

  // What the stock program's policies let through: lifecycle events and bare PINGs, and
  // only the Reply of the awaited call. A lifecycle frame is never taken for a Reply.
  lemma StockPoliciesAdmit(f: Frame, corr: int)
    ensures Admits(LIFECYCLE_EVENT_RECEIVER, f) <==>
            f.header.flags == 0
            && if f.header.kind == PING then f.header.len == 0
               else f.header.kind == EVENT && f.header.channel == LIFECYCLE_CHANNEL && f.header.corr == 0
    ensures Admits(EchoReplyWaiter(corr), f) <==>
            f.header == Header(REPLY, 0, ECHO_CHANNEL, corr, f.header.len)
    ensures Admits(LifecycleReplyWaiter(corr), f) <==>
            f.header == Header(f.header.kind, 0, LIFECYCLE_CHANNEL, corr, f.header.len) && f.header.kind in {REPLY, ERR}
    ensures Admits(LIFECYCLE_EVENT_RECEIVER, f) ==>
            !Admits(EchoReplyWaiter(corr), f) && !Admits(LifecycleReplyWaiter(corr), f)
  {
  }

  // Parked frames, and the frames the underlying reader will still deliver. When they
  // run out, reading fails with end.
  datatype State = State(parked: seq<Frame>, incoming: seq<Frame>, end: ErrorCode) {
    // Everything not delivered yet, in arrival order.
    function Undelivered(): seq<Frame> {
      parked + incoming
    }
  }

  class DirectedReader {
    var parked: seq<Frame>
    var incoming: seq<Frame>
    const end: ErrorCode

    ghost function Now(): State
      reads this
    {
      State(parked, incoming, end)
    }

    constructor (incoming: seq<Frame>, end: ErrorCode)
      ensures Now() == State([], incoming, end)
    {
      this.parked, this.incoming, this.end := [], incoming, end;
    }

    method ReadFrame() returns (r: Result<Frame>)
      modifies this`incoming
      ensures old(incoming) == [] ==> r == Err(end) && incoming == []
      ensures old(incoming) != [] ==> r == Ok(old(incoming)[0]) && incoming == old(incoming)[1..]
    {
      if |incoming| == 0 {
        return Err(end);
      }
      r := Ok(incoming[0]);
      incoming := incoming[1..];
    }

    method TakeParked(want: Policy) returns (hit: Option<Frame>)
      modifies this`parked
      ensures match FirstAdmitted(want, old(parked))
        case None => hit == None && parked == old(parked)
        case Some(i) => hit == Some(old(parked)[i]) && parked == Without(old(parked), i)
    {
      var i := 0;
      while i < |parked|
        invariant 0 <= i <= |parked| && parked == old(parked)
        invariant forall j :: 0 <= j < i ==> !Admits(want, parked[j])
      {
        var frame := parked[i];
        if Admits(want, frame) {
          FirstIs(want, parked, i);
          parked := parked[..i] + parked[i + 1..];
          return Some(frame);
        }
        i := i + 1;
      }
      hit := None;
      FirstIsNone(want, parked);
    }

    method Receive(want: Policy, park: Option<Policy>) returns (r: Result<Frame>)
      modifies this`parked, this`incoming
      ensures (Now(), r) == Received(old(Now()), want, park)
    {
      var parkedHit := TakeParked(want);
      if parkedHit.Some? {
        return Ok(parkedHit.value);
      }
      while true
        invariant Await(Now(), want, park) == Await(old(Now()), want, park)
        decreases |incoming|
      {
        var read := ReadFrame();
        if read.Err? {
          return Err(read.code);
        }
        var frame := read.value;
        if Admits(want, frame) {
          return Ok(frame);
        }
        if park.Some? && Admits(park.value, frame) {
          if |parked| >= MAX_PARKED_FRAMES {
            return Err(Protocol005);
          }
          parked := parked + [frame];
          continue;
        }
        return Err(Protocol005);
      }
    }
  }

  function Without(frames: seq<Frame>, i: nat): seq<Frame>
    requires i < |frames|
  {
    frames[..i] + frames[i + 1..]
  }

  function FirstAdmitted(want: Policy, frames: seq<Frame>): (i: Option<nat>)
    ensures i.Some? ==> i.value < |frames| && Admits(want, frames[i.value])
    ensures i.Some? ==> forall j :: 0 <= j < i.value ==> !Admits(want, frames[j])
    ensures i.None? ==> forall j :: 0 <= j < |frames| ==> !Admits(want, frames[j])
  {
    if frames == [] then None
    else if Admits(want, frames[0]) then Some(0)
    else match FirstAdmitted(want, frames[1..])
      case None => None
      case Some(i) => Some(i + 1)
  }

  lemma FirstIs(want: Policy, frames: seq<Frame>, i: nat)
    requires i < |frames| && Admits(want, frames[i])
    requires forall j :: 0 <= j < i ==> !Admits(want, frames[j])
    ensures FirstAdmitted(want, frames) == Some(i)
  {
    var found := FirstAdmitted(want, frames);
  }

  lemma FirstIsNone(want: Policy, frames: seq<Frame>)
    requires forall j :: 0 <= j < |frames| ==> !Admits(want, frames[j])
    ensures FirstAdmitted(want, frames) == None
  {
    var found := FirstAdmitted(want, frames);
  }

  function Await(m: State, want: Policy, park: Option<Policy>): (State, Result<Frame>)
    decreases |m.incoming|
  {
    if m.incoming == [] then (m, Err(m.end))
    else
      var f, m1 := m.incoming[0], m.(incoming := m.incoming[1..]);
      if Admits(want, f) then (m1, Ok(f))
      else if Parks(park, f) && |m.parked| < MAX_PARKED_FRAMES then
        Await(m1.(parked := m.parked + [f]), want, park)
      else (m1, Err(Protocol005))
  }

  function Received(m: State, want: Policy, park: Option<Policy>): (State, Result<Frame>) {
    match FirstAdmitted(want, m.parked)
    case Some(i) => (m.(parked := Without(m.parked, i)), Ok(m.parked[i]))
    case None => Await(m, want, park)
  }

  // ---- what receive means on the undelivered frames ----

  // The i-th undelivered frame can be reached by a wait: it is parked already, or every
  // frame read before it can be parked within the budget.
  ghost predicate Reachable(m: State, park: Option<Policy>, i: nat)
    requires i < |m.Undelivered()|
  {
    i < |m.parked|
    || (i <= MAX_PARKED_FRAMES && forall j :: |m.parked| <= j < i ==> Parks(park, m.Undelivered()[j]))
  }

  // Exactly frame i left the undelivered frames; the rest keep their order.
  ghost predicate Takes(m: State, m1: State, i: nat) {
    && i < |m.Undelivered()|
    && m1.Undelivered() == Without(m.Undelivered(), i)
    && m1.end == m.end
  }

  // A wait delivers the earliest undelivered frame that want admits, when it can reach
  // it. Otherwise it runs out of frames having lost none, or it loses exactly the frame
  // that stopped it: one that cannot be parked.
  ghost predicate Selects(m: State, want: Policy, park: Option<Policy>, m1: State, r: Result<Frame>) {
    var first := FirstAdmitted(want, m.Undelivered());
    if first.Some? && Reachable(m, park, first.value) then
      r == Ok(m.Undelivered()[first.value]) && Takes(m, m1, first.value)
    else
      Starved(m, m1, r) || Stopped(m, want, park, m1, r)
  }

  ghost predicate Starved(m: State, m1: State, r: Result<Frame>) {
    r == Err(m.end) && m1.incoming == [] && m1.Undelivered() == m.Undelivered() && m1.end == m.end
  }

  ghost predicate Stopped(m: State, want: Policy, park: Option<Policy>, m1: State, r: Result<Frame>) {
    var i := |m1.parked|;
    && r == Err(Protocol005)
    && |m.parked| <= i && Takes(m, m1, i)
    && !Admits(want, m.Undelivered()[i])
    && (!Parks(park, m.Undelivered()[i]) || i == MAX_PARKED_FRAMES)
  }

  lemma {:induction false} AwaitSelects(m: State, want: Policy, park: Option<Policy>)
    requires FirstAdmitted(want, m.parked) == None && |m.parked| <= MAX_PARKED_FRAMES
    ensures var (m1, r) := Await(m, want, park);
      Selects(m, want, park, m1, r) && |m1.parked| <= MAX_PARKED_FRAMES
    decreases |m.incoming|
  {
    hide Admits, Parks, FirstAdmitted, Selects;
    if m.incoming == [] {
      RunsOut(m, want, park);
    } else {
      var f := m.incoming[0];
      var m1 := m.(incoming := m.incoming[1..]);
      if Admits(want, f) {
        ReadsTheWanted(m, want, park);
      } else if Parks(park, f) && |m.parked| < MAX_PARKED_FRAMES {
        var m2 := m1.(parked := m.parked + [f]);
        FirstIsNone(want, m2.parked);
        AwaitSelects(m2, want, park);
        var (m3, r) := Await(m2, want, park);
        ParkingKeepsSelection(m, m2, want, park, m3, r);
      } else {
        StopsAtTheUnwanted(m, want, park);
      }
    }
  }

  // A wait that has run out of frames has seen every undelivered frame.
  lemma RunsOut(m: State, want: Policy, park: Option<Policy>)
    requires m.incoming == [] && FirstAdmitted(want, m.parked) == None
    ensures Selects(m, want, park, m, Err(m.end))
  {
    hide Admits, FirstAdmitted;
    assert m.Undelivered() == m.parked;
  }

  lemma ReadsTheWanted(m: State, want: Policy, park: Option<Policy>)
    requires FirstAdmitted(want, m.parked) == None && |m.parked| <= MAX_PARKED_FRAMES
    requires m.incoming != [] && Admits(want, m.incoming[0])
    ensures Selects(m, want, park, m.(incoming := m.incoming[1..]), Ok(m.incoming[0]))
  {
    hide Admits, Parks, FirstAdmitted;
    var u, k := m.Undelivered(), |m.parked|;
    assert u[k] == m.incoming[0] && forall j :: 0 <= j < k ==> u[j] == m.parked[j];
    FirstIs(want, u, k);
    assert Without(u, k) == m.parked + m.incoming[1..];
  }

  lemma StopsAtTheUnwanted(m: State, want: Policy, park: Option<Policy>)
    requires FirstAdmitted(want, m.parked) == None && |m.parked| <= MAX_PARKED_FRAMES
    requires m.incoming != [] && !Admits(want, m.incoming[0])
    requires !Parks(park, m.incoming[0]) || |m.parked| == MAX_PARKED_FRAMES
    ensures Selects(m, want, park, m.(incoming := m.incoming[1..]), Err(Protocol005))
  {
    hide Admits, Parks, FirstAdmitted;
    var u, k := m.Undelivered(), |m.parked|;
    assert u[k] == m.incoming[0] && u[..k] == m.parked && u[k + 1..] == m.incoming[1..];
    assert FirstAdmitted(want, u).Some? ==> FirstAdmitted(want, u).value > k by {
      assert forall j :: 0 <= j < k ==> u[j] == m.parked[j];
    }
  }

  lemma SameTaking(m: State, m2: State, m3: State, i: nat)
    requires m.Undelivered() == m2.Undelivered() && m.end == m2.end
    ensures Takes(m2, m3, i) == Takes(m, m3, i)
  {
  }

  // Parking the next frame changes neither what is undelivered nor what can be reached.
  lemma ParkingKeepsSelection(m: State, m2: State, want: Policy, park: Option<Policy>, m3: State, r: Result<Frame>)
    requires m.incoming != [] && |m.parked| < MAX_PARKED_FRAMES
    requires m2 == State(m.parked + [m.incoming[0]], m.incoming[1..], m.end)
    requires Parks(park, m.incoming[0]) && FirstAdmitted(want, m2.parked) == None
    requires Selects(m2, want, park, m3, r)
    ensures Selects(m, want, park, m3, r)
  {
    hide Admits, Parks, FirstAdmitted, Takes;
    var u, k := m.Undelivered(), |m.parked|;
    assert u[k] == m.incoming[0];
    assert m2.Undelivered() == u;
    SameTaking(m, m2, m3, |m3.parked|);
    var first := FirstAdmitted(want, u);
    if first.Some? {
      var i := first.value;
      SameTaking(m, m2, m3, i);
      assert i > k by {
        assert forall j :: 0 <= j <= k ==> u[j] == m2.parked[j];
      }
      assert Reachable(m2, park, i) <==> Reachable(m, park, i);
    }
  }

  // The directed reader is a selective receive on the frames in arrival order.
  lemma ReceiveSelects(m: State, want: Policy, park: Option<Policy>)
    requires |m.parked| <= MAX_PARKED_FRAMES
    ensures var (m1, r) := Received(m, want, park);
      Selects(m, want, park, m1, r) && |m1.parked| <= MAX_PARKED_FRAMES
  {
    hide Admits, FirstAdmitted, Await;
    match FirstAdmitted(want, m.parked) {
      case Some(i) =>
        FirstIs(want, m.Undelivered(), i);
        assert Without(m.Undelivered(), i) == Without(m.parked, i) + m.incoming;
      case None =>
        AwaitSelects(m, want, park);
    }
  }

  // ---- whole runs of receives ----

  datatype Request = Request(want: Policy, park: Option<Policy>)

  // A reader and the frames its receives returned or lost so far.
  datatype World = World(mux: State, delivered: seq<Frame>, lost: seq<Frame>)

  function StepWorld(w: World, q: Request): World {
    var (m, r) := Received(w.mux, q.want, q.park);
    match r
    case Ok(f) => World(m, w.delivered + [f], w.lost)
    case Err(_) =>
      // A wait that was stopped lost the frame that stopped it.
      var u := w.mux.Undelivered();
      World(m, w.delivered, w.lost + if |m.parked| < |u| && |m.Undelivered()| < |u| then [u[|m.parked|]] else [])
  }

  function Run(arrivals: seq<Frame>, end: ErrorCode, requests: seq<Request>): World {
    if requests == [] then World(State([], arrivals, end), [], [])
    else StepWorld(Run(arrivals, end, requests[..|requests| - 1]), requests[|requests| - 1])
  }

  // kept lists, in increasing order, the arrival positions of the given frames.
  ghost predicate InArrivalOrder(arrivals: seq<Frame>, frames: seq<Frame>, kept: seq<nat>) {
    && |kept| == |frames|
    && (forall i :: 0 <= i < |kept| ==> kept[i] < |arrivals| && arrivals[kept[i]] == frames[i])
    && (forall i, j :: 0 <= i < j < |kept| ==> kept[i] < kept[j])
  }

  // Conservation over every run of receives with any policies: each frame read is
  // delivered once, still parked, or the one that stopped a wait; parked and unread
  // frames keep their arrival order, and no more than MAX_PARKED_FRAMES are parked.
  lemma {:induction false} RunConserves(arrivals: seq<Frame>, end: ErrorCode, requests: seq<Request>)
    returns (kept: seq<nat>)
    ensures var w := Run(arrivals, end, requests);
      && multiset(w.delivered) + multiset(w.lost) + multiset(w.mux.Undelivered()) == multiset(arrivals)
      && InArrivalOrder(arrivals, w.mux.Undelivered(), kept)
      && |w.mux.parked| <= MAX_PARKED_FRAMES
      && |w.delivered| + |w.lost| <= |requests|
    decreases |requests|
  {
    hide StepWorld, InArrivalOrder, Without;
    if requests == [] {
      assert [] + arrivals == arrivals;
      kept := AllInOrder(arrivals);
    } else {
      var w, q := Run(arrivals, end, requests[..|requests| - 1]), requests[|requests| - 1];
      kept := RunConserves(arrivals, end, requests[..|requests| - 1]);
      var gone := OneReceive(w, q);
      if gone.Some? {
        WithoutOne(w.mux.Undelivered(), gone.value);
        kept := StillInOrder(arrivals, w.mux.Undelivered(), kept, gone.value);
      }
    }
  }

  lemma AllInOrder(arrivals: seq<Frame>) returns (kept: seq<nat>)
    ensures InArrivalOrder(arrivals, arrivals, kept)
  {
    kept := seq(|arrivals|, i requires 0 <= i < |arrivals| => i);
  }

  lemma WithoutOne(frames: seq<Frame>, i: nat)
    requires i < |frames|
    ensures multiset(Without(frames, i)) + multiset{frames[i]} == multiset(frames)
  {
    assert frames == frames[..i] + [frames[i]] + frames[i + 1..];
  }

  lemma StillInOrder(arrivals: seq<Frame>, frames: seq<Frame>, kept: seq<nat>, i: nat) returns (fewer: seq<nat>)
    requires InArrivalOrder(arrivals, frames, kept) && i < |frames|
    ensures InArrivalOrder(arrivals, Without(frames, i), fewer)
  {
    fewer := kept[..i] + kept[i + 1..];
  }

  // One receive removes at most one undelivered frame, and accounts for it.
  lemma OneReceive(w: World, q: Request) returns (gone: Option<nat>)
    requires |w.mux.parked| <= MAX_PARKED_FRAMES
    ensures var w1, u := StepWorld(w, q), w.mux.Undelivered();
      && |w1.mux.parked| <= MAX_PARKED_FRAMES
      && match gone
         case None => w1.mux.Undelivered() == u && w1.delivered == w.delivered && w1.lost == w.lost
         case Some(i) =>
           && i < |u| && w1.mux.Undelivered() == Without(u, i)
           && ((w1.delivered == w.delivered + [u[i]] && w1.lost == w.lost)
               || (w1.delivered == w.delivered && w1.lost == w.lost + [u[i]]))
  {
    hide Received, FirstAdmitted, Admits, Reachable;
    ReceiveSelects(w.mux, q.want, q.park);
    var (m1, r) := Received(w.mux, q.want, q.park);
    if r.Ok? {
      gone := Some(FirstAdmitted(q.want, w.mux.Undelivered()).value);
    } else {
      gone := if Starved(w.mux, m1, r) then None else Some(|m1.parked|);
    }
  }
}
