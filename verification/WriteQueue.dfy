// The serialized frame writer. Awaits split it into atomic steps: a frame is submitted,
// the next chained write starts, the socket takes some bytes, a drain wakes the writer,
// its wait times out, or the handler of a failed write poisons the queue.
module WriteQueues {
  import opened Basics
  import opened Frame

  datatype Submission = Submission(kind: int, flags: int, channel: int, corr: int, payload: seq<byte>) {
    function Framed(): Frame {
      Frame(Header(kind, flags, channel, corr, |payload|), payload)
    }
  }

  // A frame being written: offset bytes of it are on the socket. While draining, the
  // writer waits for a drain event with a timeout at deadlineAt.
  datatype Active = Active(job: Submission, frame: seq<byte>, offset: nat, deadlineAt: real, draining: bool)

  // settling: the last chained write failed and its handler has not run yet. The next
  // one waits for it.
  datatype Queue = Queue(chain: seq<Submission>, active: Option<Active>, poison: Option<ErrorCode>, settling: bool)

  // What a step does to the promise of the submission it concerns.
  datatype Settled = Unsettled | Done | Failed(code: ErrorCode)

  datatype Effect = Effect(queue: Queue, bytes: seq<byte>, settled: Settled)

  datatype Event =
    | Submit(job: Submission)
    | Start
    | SocketTakes(n: int)   // socket.write returned n for the rest of the frame
    | Drain
    | DrainTimeout
    | Handled               // the rejection handler of the chain ran

  function Quiet(q: Queue): Effect {
    Effect(q, [], Unsettled)
  }

  // A chained write fails.
  function Abort(q: Queue, code: ErrorCode): Effect {
    Effect(q.(active := None, settling := true), [], Failed(code))
  }

  // Its handler poisons the queue, once.
  function Poison(q: Queue): Queue {
    if !q.settling then q
    else q.(poison := if q.poison.Some? then q.poison else Some(Closed001), settling := false)
  }

  function WriteFrame(q: Queue, job: Submission): Effect {
    if |job.payload| > MAX_FRAME_LEN then Effect(q, [], Failed(TooLarge004))
    else match q.poison
      case Some(code) => Effect(q, [], Failed(code))
      case None => Quiet(q.(chain := q.chain + [job]))
  }

  function StartNext(q: Queue, now: real): Effect {
    if q.active.Some? || q.settling || q.chain == [] then Quiet(q)
    else
      var job, q1 := q.chain[0], q.(chain := q.chain[1..]);
      match q.poison
      case Some(code) => Abort(q1, code)
      case None =>
        match EncodeHeader(job.Framed().header)
        case Err(code) => Abort(q1, code)
        case Ok(header) =>
          Quiet(q1.(active := Some(Active(job, header + job.payload, 0, now + IO_DEADLINE, false))))
  }

  // A socket never takes more than it is offered.
  function Taken(a: Active, n: int): int {
    Min(n, |a.frame| - a.offset)
  }

  function WriteSome(q: Queue, n: int, now: real): Effect {
    if q.active.None? || q.active.value.draining || q.active.value.offset >= |q.active.value.frame| then Quiet(q)
    else
      var a := q.active.value;
      if a.deadlineAt - now <= 0.0 then Abort(q, Deadline006)
      else if n < 0 then Abort(q, Closed001)
      else
        var k := Taken(a, n);
        var bytes := a.frame[a.offset..a.offset + k];
        if a.offset + k == |a.frame| then Effect(q.(active := None), bytes, Done)
        else Effect(q.(active := Some(a.(offset := a.offset + k, draining := k == 0))), bytes, Unsettled)
  }

  function DrainFires(q: Queue): Queue {
    if q.active.None? then q else q.(active := Some(q.active.value.(draining := false)))
  }

  function DrainTimesOut(q: Queue): Effect {
    if q.active.None? || !q.active.value.draining then Quiet(q) else Abort(q, Deadline006)
  }

  function Step(q: Queue, e: Event, now: real): Effect {
    match e
    case Submit(job) => WriteFrame(q, job)
    case Start => StartNext(q, now)
    case SocketTakes(n) => WriteSome(q, n, now)
    case Drain => Quiet(DrainFires(q))
    case DrainTimeout => DrainTimesOut(q)
    case Handled => Quiet(Poison(q))
  }

  class WriteQueue {
    var chain: seq<Submission>
    var active: Option<Active>
    var poison: Option<ErrorCode>
    var settling: bool

    ghost function Now(): Queue
      reads this
    {
      Queue(chain, active, poison, settling)
    }

    constructor ()
      ensures Now() == Queue([], None, None, false)
    {
      chain, active, poison, settling := [], None, None, false;
    }

    method Submit(job: Submission) returns (settled: Settled)
      modifies this
      ensures Effect(Now(), [], settled) == WriteFrame(old(Now()), job)
    {
      if |job.payload| > MAX_FRAME_LEN {
        return Failed(TooLarge004);
      }
      if poison.Some? {
        return Failed(poison.value);
      }
      chain := chain + [job];
      settled := Unsettled;
    }

    method Abandon(code: ErrorCode) returns (settled: Settled)
      modifies this
      ensures Effect(Now(), [], settled) == Abort(old(Now()), code)
    {
      active, settling := None, true;
      settled := Failed(code);
    }

    method HandleFailure()
      modifies this
      ensures Now() == Poison(old(Now()))
    {
      if settling {
        if poison.None? {
          poison := Some(Closed001);
        }
        settling := false;
      }
    }

    method Start(now: real) returns (settled: Settled)
      modifies this
      ensures Effect(Now(), [], settled) == StartNext(old(Now()), now)
    {
      if active.Some? || settling || |chain| == 0 {
        return Unsettled;
      }
      var job := chain[0];
      chain := chain[1..];
      if poison.Some? {
        settled := Abandon(poison.value);
        return;
      }
      var header := EncodeHeader(job.Framed().header);
      if header.Err? {
        settled := Abandon(header.code);
        return;
      }
      active := Some(Active(job, header.value + job.payload, 0, now + IO_DEADLINE, false));
      settled := Unsettled;
    }

    // One turn of the write loop; n is what socket.write returns.
    method Write(n: int, now: real) returns (bytes: seq<byte>, settled: Settled)
      modifies this
      ensures Effect(Now(), bytes, settled) == WriteSome(old(Now()), n, now)
    {
      bytes, settled := [], Unsettled;
      if active.None? || active.value.draining || active.value.offset >= |active.value.frame| {
        return;
      }
      var a := active.value;
      var remaining := a.deadlineAt - now;
      if remaining <= 0.0 {
        settled := Abandon(Deadline006);
        return;
      }
      if n < 0 {
        settled := Abandon(Closed001);
        return;
      }
      var written := Taken(a, n);
      bytes := a.frame[a.offset..a.offset + written];
      var offset := a.offset + written;
      if offset == |a.frame| {
        active, settled := None, Done;
        return;
      }
      active := Some(a.(offset := offset, draining := written == 0));
    }

    method WakeWriter()
      modifies this
      ensures Now() == DrainFires(old(Now()))
    {
      if active.Some? {
        active := Some(active.value.(draining := false));
      }
    }

    method GiveUpWaiting() returns (settled: Settled)
      modifies this
      ensures Effect(Now(), [], settled) == DrainTimesOut(old(Now()))
    {
      if active.None? || !active.value.draining {
        return Unsettled;
      }
      settled := Abandon(Deadline006);
    }
  }

  // ---- every run ----

  datatype Stamped = Stamped(event: Event, at: real)

  // A queue, everything the socket took, every submission admitted to the chain, and
  // how they ended: completed, then at most one that failed, then those refused because
  // of it.
  datatype World = World(
    queue: Queue,
    wire: seq<byte>,
    admitted: seq<Submission>,
    completed: seq<Submission>,
    failed: seq<Submission>,
    refused: seq<Submission>)

  const START := World(Queue([], None, None, false), [], [], [], [], [])

  // The submission a step settles, if it is one of the chain.
  function Subject(q: Queue, e: Event): seq<Submission> {
    match e
    case Submit(_) => []
    case Start => if q.active.None? && q.chain != [] then [q.chain[0]] else []
    case _ => if q.active.Some? then [q.active.value.job] else []
  }

  function StepWorld(w: World, s: Stamped): World {
    var effect := Step(w.queue, s.event, s.at);
    var subject := if effect.settled.Unsettled? then [] else Subject(w.queue, s.event);
    World(
      effect.queue,
      w.wire + effect.bytes,
      w.admitted + if s.event.Submit? && effect.settled.Unsettled? then [s.event.job] else [],
      w.completed + if effect.settled.Done? then subject else [],
      w.failed + if effect.settled.Failed? && w.queue.poison.None? then subject else [],
      w.refused + if effect.settled.Failed? && w.queue.poison.Some? then subject else [])
  }

  function RunFrom(w: World, script: seq<Stamped>): World {
    if script == [] then w
    else StepWorld(RunFrom(w, script[..|script| - 1]), script[|script| - 1])
  }

  function Run(script: seq<Stamped>): World {
    RunFrom(START, script)
  }

  // How the promise of a submission was settled.
  datatype Answer = Answer(job: Submission, settled: Settled)

  function Settling(q: Queue, e: Event, settled: Settled): seq<Answer> {
    var subject := if e.Submit? then [e.job] else Subject(q, e);
    if settled.Unsettled? || subject == [] then [] else [Answer(subject[0], settled)]
  }

  // The promises settled in a run, in order, those of submissions never admitted included.
  function Answers(script: seq<Stamped>): seq<Answer> {
    if script == [] then []
    else
      var earlier, s := script[..|script| - 1], script[|script| - 1];
      var q := Run(earlier).queue;
      Answers(earlier) + Settling(q, s.event, Step(q, s.event, s.at).settled)
  }

  function Frames(jobs: seq<Submission>): (fs: seq<Frame>)
    ensures |fs| == |jobs|
  {
    seq(|jobs|, i requires 0 <= i < |jobs| => jobs[i].Framed())
  }

  function InProgress(q: Queue): seq<Submission> {
    if q.active.Some? then [q.active.value.job] else []
  }

  // The last, incomplete frame on the wire.
  ghost predicate Tail(w: World, partial: seq<byte>) {
    match w.queue.active
    case Some(a) =>
      && w.failed == []
      && ValidFrame(a.job.Framed()) && a.frame == Wire(a.job.Framed())
      && a.offset < |a.frame| && partial == a.frame[..a.offset]
    case None =>
      if w.failed == [] then partial == []
      else partial == [] || (ValidFrame(w.failed[0].Framed()) && partial < Wire(w.failed[0].Framed()))
  }

  // A write has failed: the queue is poisoned, or about to be.
  predicate Halted(q: Queue) {
    q.active.None? && (q.poison.Some? || q.settling)
  }

  // Where every admitted submission is.
  ghost predicate Ledger(w: World) {
    && (forall i :: 0 <= i < |w.admitted| ==> |w.admitted[i].payload| <= MAX_FRAME_LEN)
    && if w.failed == [] then
         && w.queue.poison.None? && !w.queue.settling && w.refused == []
         && w.admitted == w.completed + (InProgress(w.queue) + w.queue.chain)
       else
         && Halted(w.queue) && |w.failed| == 1
         && w.admitted == w.completed + w.failed + (w.refused + w.queue.chain)
  }

  // What is on the wire.
  ghost predicate OnWire(w: World) {
    && AllValid(Frames(w.completed))
    && WireAll(Frames(w.completed)) <= w.wire
    && Tail(w, w.wire[|WireAll(Frames(w.completed))|..])
  }

  ghost predicate Sound(w: World) {
    Ledger(w) && OnWire(w)
  }

  lemma SubmitLedger(w: World, job: Submission, now: real)
    requires Ledger(w)
    ensures Ledger(StepWorld(w, Stamped(Submit(job), now)))
  {
    var w1 := StepWorld(w, Stamped(Submit(job), now));
    assert w1.completed == w.completed && w1.failed == w.failed && w1.refused == w.refused;
    if |job.payload| <= MAX_FRAME_LEN && w.queue.poison.None? {
      assert w1.queue.chain == w.queue.chain + [job];
    } else {
      assert w1.admitted == w.admitted;
    }
  }

  // What starting the next write does to the books.
  lemma StartBooks(w: World, now: real)
    ensures var q, w1 := w.queue, StepWorld(w, Stamped(Start, now));
      if q.active.Some? || q.settling || q.chain == [] then w1 == w
      else
        var job := q.chain[0];
        && w1.queue.chain == q.chain[1..] && w1.queue.poison == q.poison
        && w1.admitted == w.admitted && w1.completed == w.completed && w1.wire == w.wire
        && if q.poison.None? && EncodeHeader(job.Framed().header).Ok? then
             w1.failed == w.failed && w1.refused == w.refused
             && !w1.queue.settling && InProgress(w1.queue) == [job]
           else
             && w1.queue.settling && w1.queue.active.None?
             && w1.failed == w.failed + (if q.poison.None? then [job] else [])
             && w1.refused == w.refused + if q.poison.None? then [] else [job]
  {
    hide EncodeHeader;
  }

  lemma StartLedger(w: World, now: real)
    requires Ledger(w)
    ensures Ledger(StepWorld(w, Stamped(Start, now)))
  {
    hide EncodeHeader, StepWorld;
    StartBooks(w, now);
    if w.queue.active.None? && !w.queue.settling && w.queue.chain != [] {
      var job, rest := [w.queue.chain[0]], w.queue.chain[1..];
      assert w.queue.chain == job + rest;
      Regroup(w.completed, w.failed, w.refused, job, rest);
    }
  }

  lemma Regroup(
      completed: seq<Submission>, failed: seq<Submission>, refused: seq<Submission>, job: seq<Submission>,
      rest: seq<Submission>)
    ensures completed + failed + (refused + (job + rest)) == completed + failed + ((refused + job) + rest)
    ensures completed + ([] + (job + rest)) == completed + (job + rest)
    ensures completed + ([] + (job + rest)) == completed + ([] + job) + ([] + rest)
  {
  }

  // What an event other than a submission or a start does to the queue.
  lemma StepInside(q: Queue, e: Event, now: real)
    requires !e.Start? && !e.Submit?
    ensures var effect := Step(q, e, now);
      && effect.queue.chain == q.chain
      && if effect.settled.Unsettled? then
           && InProgress(effect.queue) == InProgress(q)
           && (q.poison.None? && !q.settling ==> effect.queue.poison.None? && !effect.queue.settling)
           && (Halted(q) ==> Halted(effect.queue))
         else
           && q.active.Some? && effect.queue.active.None? && effect.queue.poison == q.poison
           && effect.queue.settling == (q.settling || effect.settled.Failed?)
  {
  }

  // Steps of the frame in progress: nothing moves, or it leaves for completed or failed.
  lemma ProgressLedger(w: World, s: Stamped)
    requires Ledger(w) && !s.event.Start? && !s.event.Submit?
    ensures Ledger(StepWorld(w, s))
  {
    hide Step;
    var w1, effect := StepWorld(w, s), Step(w.queue, s.event, s.at);
    StepInside(w.queue, s.event, s.at);
    assert w1.admitted == w.admitted && w1.refused == w.refused && w1.queue.chain == w.queue.chain;
    match effect.settled {
      case Unsettled => assert w1.completed == w.completed && w1.failed == w.failed;
      case Done => assert w1.completed == w.completed + InProgress(w.queue) && w1.failed == w.failed;
      case Failed(_) => assert w1.completed == w.completed && w1.failed == InProgress(w.queue);
    }
  }

  lemma StartOnWire(w: World, now: real)
    requires Ledger(w) && OnWire(w)
    ensures OnWire(StepWorld(w, Stamped(Start, now)))
  {
    hide HeaderBytes, WireAll;
    var w1 := StepWorld(w, Stamped(Start, now));
    assert w1.wire == w.wire && w1.completed == w.completed;
    if w.queue.active.None? && !w.queue.settling && w.queue.chain != [] {
      var job := w.queue.chain[0];
      assert w.queue.poison.None? ==> job == w.admitted[|w.completed|];
    }
  }

  lemma WriteOnWire(w: World, k: int, now: real)
    requires Ledger(w) && OnWire(w)
    ensures OnWire(StepWorld(w, Stamped(SocketTakes(k), now)))
  {
    hide HeaderBytes, Wire, WireAll;
    var w1, effect := StepWorld(w, Stamped(SocketTakes(k), now)), WriteSome(w.queue, k, now);
    if effect.bytes == [] && !effect.settled.Done? {
      assert w1.wire == w.wire && w1.completed == w.completed;
    } else {
      var a := w.queue.active.value;
      assert w1.failed == w.failed;
      var more := a.frame[..a.offset + |effect.bytes|];
      BytesOnWire(w, effect.bytes, more);
      if effect.settled.Done? {
        assert w1.completed == w.completed + [a.job];
        assert more == a.frame;
        assert Frames(w1.completed) == Frames(w.completed) + [a.job.Framed()];
        WireAllOneMore(Frames(w.completed), a.job.Framed());
      } else {
        assert w1.completed == w.completed;
      }
    }
  }

  lemma BytesOnWire(w: World, bytes: seq<byte>, more: seq<byte>)
    requires OnWire(w) && w.queue.active.Some?
    requires var a := w.queue.active.value;
      a.offset + |bytes| <= |a.frame| && bytes == a.frame[a.offset..a.offset + |bytes|]
      && more == a.frame[..a.offset + |bytes|]
    ensures w.wire + bytes == WireAll(Frames(w.completed)) + more
  {
    hide HeaderBytes, Wire, WireAll;
    var n := |WireAll(Frames(w.completed))|;
    assert w.wire == WireAll(Frames(w.completed)) + w.wire[n..];
    assert w.wire[n..] + bytes == more;
  }

  lemma StepSound(w: World, s: Stamped)
    requires Sound(w)
    ensures Sound(StepWorld(w, s))
  {
    hide HeaderBytes, Wire, WireAll;
    match s.event {
      case Submit(job) =>
        SubmitLedger(w, job, s.at);
        assert StepWorld(w, s).wire == w.wire && StepWorld(w, s).completed == w.completed;
      case Start =>
        StartLedger(w, s.at);
        StartOnWire(w, s.at);
      case SocketTakes(k) =>
        ProgressLedger(w, s);
        WriteOnWire(w, k, s.at);
      case _ =>
        ProgressLedger(w, s);
        assert StepWorld(w, s).wire == w.wire && StepWorld(w, s).completed == w.completed;
    }
  }

  lemma {:induction false} RunSound(script: seq<Stamped>)
    ensures Sound(Run(script))
    decreases |script|
  {
    hide StepWorld, Sound;
    if script == [] {
      StartingPoint();
    } else {
      RunSound(script[..|script| - 1]);
      StepSound(Run(script[..|script| - 1]), script[|script| - 1]);
    }
  }

  lemma StartingPoint()
    ensures Sound(START)
  {
  }

  // The wire always holds whole frames, those of the completed submissions, followed by
  // less than one more frame.
  lemma RunWritesWholeFrames(script: seq<Stamped>)
    ensures var w := Run(script);
      && AllValid(Frames(w.completed))
      && exists partial ::
        && w.wire == WireAll(Frames(w.completed)) + partial
        && (partial != [] ==>
          exists next :: next in w.failed + InProgress(w.queue)
            && ValidFrame(next.Framed()) && partial < Wire(next.Framed()))
  {
    hide Run, HeaderBytes, WireAll;
    var w := Run(script);
    RunSound(script);
    var n := |WireAll(Frames(w.completed))|;
    var partial := w.wire[n..];
    assert w.wire == WireAll(Frames(w.completed)) + partial;
    if partial != [] {
      var next := if w.queue.active.Some? then w.queue.active.value.job else w.failed[0];
      assert next in w.failed + InProgress(w.queue);
      assert partial < Wire(next.Framed());
    }
  }

  // Nothing is lost or reordered: the admitted submissions are, in order, the completed
  // ones, then at most one that failed, then those refused because of it, the one in
  // progress and those still chained. The queue is poisoned, or about to be, exactly when
  // one has failed.
  lemma RunKeepsOrder(script: seq<Stamped>)
    ensures var w := Run(script);
      && w.admitted == w.completed + w.failed + w.refused + InProgress(w.queue) + w.queue.chain
      && |w.failed| <= 1
      && (w.failed != [] <==> Halted(w.queue))
      && (w.failed == [] ==> w.refused == [] && w.queue.poison.None?)
  {
    hide Run, OnWire;
    RunSound(script);
  }

  lemma HaltIsFinal(w: World, s: Stamped)
    requires Halted(w.queue)
    ensures var w1 := StepWorld(w, s);
      && Halted(w1.queue)
      && w1.wire == w.wire && w1.completed == w.completed && w1.failed == w.failed
      && (w.queue.poison.Some? ==> w1.admitted == w.admitted && w1.queue.poison == w.queue.poison)
  {
    assert w.wire + [] == w.wire && w.completed + [] == w.completed;
    assert w.failed + [] == w.failed && w.admitted + [] == w.admitted;
  }

  // After a write failed, no event ever puts another byte on the socket or completes
  // another submission; once the queue is poisoned, none is admitted either.
  lemma {:induction false} PoisonedForever(before: seq<Stamped>, after: seq<Stamped>)
    requires Run(before).failed != []
    ensures var w, w1 := Run(before), Run(before + after);
      && Halted(w1.queue)
      && w1.wire == w.wire && w1.completed == w.completed && w1.failed == w.failed
      && (w.queue.poison.Some? ==> w1.admitted == w.admitted && w1.queue.poison == w.queue.poison)
    decreases |after|
  {
    hide StepWorld;
    if after == [] {
      assert before + after == before;
      RunKeepsOrder(before);
    } else {
      var script, n := before + after, |after| - 1;
      assert script[..|script| - 1] == before + after[..n] && script[|script| - 1] == after[n];
      PoisonedForever(before, after[..n]);
      HaltIsFinal(Run(before + after[..n]), after[n]);
    }
  }

  predicate Oversize(s: Stamped) {
    s.event.Submit? && |s.event.job.payload| > MAX_FRAME_LEN
  }

  function WithoutOversize(script: seq<Stamped>): seq<Stamped> {
    if script == [] then []
    else
      var last := script[|script| - 1];
      WithoutOversize(script[..|script| - 1]) + if Oversize(last) then [] else [last]
  }

  lemma OversizeRefused(w: World, s: Stamped)
    requires Oversize(s)
    ensures StepWorld(w, s) == w
  {
  }

  // An over-size frame is refused at admission and leaves no trace: erasing every such
  // submission from a script changes neither the queue, nor the wire, nor the fate of
  // any other submission.
  lemma {:induction false} OversizeLeavesNoTrace(script: seq<Stamped>)
    ensures Run(WithoutOversize(script)) == Run(script)
    decreases |script|
  {
    hide Step;
    if script != [] {
      var earlier, last := script[..|script| - 1], script[|script| - 1];
      OversizeLeavesNoTrace(earlier);
      var w := Run(earlier);
      if Oversize(last) {
        assert WithoutOversize(script) == WithoutOversize(earlier);
        OversizeRefused(w, last);
      } else {
        var kept := WithoutOversize(earlier) + [last];
        assert WithoutOversize(script) == kept;
        assert kept[..|kept| - 1] == WithoutOversize(earlier);
      }
    }
  }

  // ---- the class ----

  // Drives a new WriteQueue through a script, collecting what it puts on the socket and
  // how its promises settle. The socket gets the whole frames of the completed
  // submissions, in the order they were admitted, and less than one frame more; at most
  // one submission fails, the next one admitted.
  method Replay(script: seq<Stamped>)
    returns (
      wire: seq<byte>, completed: seq<Submission>, failed: seq<Submission>, answers: seq<Answer>, poisoned: bool)
    ensures AllValid(Frames(completed))
    ensures exists partial ::
              wire == WireAll(Frames(completed)) + partial
              && (partial != [] ==>
                exists next :: next in Run(script).admitted
                  && ValidFrame(next.Framed()) && partial < Wire(next.Framed()))
    ensures completed + failed <= Run(script).admitted && |failed| <= 1
    ensures poisoned ==> failed != []
    ensures wire == Run(script).wire && completed == Run(script).completed
    ensures failed == Run(script).failed && answers == Answers(script)
    ensures poisoned == Run(script).queue.poison.Some?
  {
    hide StepWorld, Step, Wire, WireAll, Settling;
    var queue := new WriteQueue();
    wire, completed, failed, answers := [], [], [], [];
    for i := 0 to |script|
      invariant fresh(queue) && queue.Now() == Run(script[..i]).queue
      invariant wire == Run(script[..i]).wire && completed == Run(script[..i]).completed
      invariant failed == Run(script[..i]).failed && answers == Answers(script[..i])
    {
      assert script[..i + 1][..i] == script[..i];
      var before := Queue(queue.chain, queue.active, queue.poison, queue.settling);
      ghost var w := Run(script[..i]);
      var bytes, settled := Apply(queue, script[i].event, script[i].at);
      Books(w, script[i]);
      var subject := if settled.Unsettled? then [] else Subject(before, script[i].event);
      wire := wire + bytes;
      completed := completed + if settled.Done? then subject else [];
      failed := failed + if settled.Failed? && before.poison.None? then subject else [];
      answers := answers + Settling(before, script[i].event, settled);
    }
    assert script[..|script|] == script;
    RunWritesWholeFrames(script);
    RunKeepsOrder(script);
    PartialIsAdmitted(script);
    poisoned := queue.poison.Some?;
  }

  lemma Books(w: World, s: Stamped)
    ensures var effect, w1 := Step(w.queue, s.event, s.at), StepWorld(w, s);
      var subject := if effect.settled.Unsettled? then [] else Subject(w.queue, s.event);
      && w1.queue == effect.queue && w1.wire == w.wire + effect.bytes
      && w1.completed == w.completed + (if effect.settled.Done? then subject else [])
      && w1.failed == w.failed + if effect.settled.Failed? && w.queue.poison.None? then subject else []
  {
    hide Step, Subject;
  }

  // Whoever left a partial frame was admitted.
  lemma PartialIsAdmitted(script: seq<Stamped>)
    ensures var w := Run(script);
      forall next :: next in w.failed + InProgress(w.queue) ==> next in w.admitted
  {
    hide Run;
    RunKeepsOrder(script);
  }

  method Apply(queue: WriteQueue, event: Event, now: real) returns (bytes: seq<byte>, settled: Settled)
    modifies queue
    ensures Effect(queue.Now(), bytes, settled) == Step(old(queue.Now()), event, now)
  {
    bytes, settled := [], Unsettled;
    match event {
      case Submit(job) => settled := queue.Submit(job);
      case Start => settled := queue.Start(now);
      case SocketTakes(n) => bytes, settled := queue.Write(n, now);
      case Drain => queue.WakeWriter();
      case DrainTimeout => settled := queue.GiveUpWaiting();
      case Handled => queue.HandleFailure();
    }
  }
}
