// What becomes of a frame once its write has started: exactly when it completes, exactly
// when it fails and with which error, told from the events and their times alone.
module WriteFates {
  import opened Basics
  import opened Frame
  import opened WriteQueues

  // After these events the writer waits: the socket took nothing, and no drain came since.
  predicate Waits(turns: seq<Stamped>) {
    turns != []
    && var earlier := turns[..|turns| - 1];
    match turns[|turns| - 1].event
    case Drain => false
    case SocketTakes(n) => n == 0 || Waits(earlier)
    case _ => Waits(earlier)
  }

  // How many bytes the socket took in these turns, offers made while waiting aside.
  function Sent(turns: seq<Stamped>): int {
    if turns == [] then 0
    else
      var earlier, last := turns[..|turns| - 1], turns[|turns| - 1].event;
      Sent(earlier) + if last.SocketTakes? && !Waits(earlier) then last.n else 0
  }

  // The event ends the write badly: the socket answers a write with an error, a write is
  // attempted IO_DEADLINE or more after the start, or a wait for a drain times out.
  predicate Breaks(earlier: seq<Stamped>, s: Stamped, start: real) {
    match s.event
    case SocketTakes(n) => !Waits(earlier) && (n < 0 || s.at >= start + IO_DEADLINE)
    case DrainTimeout => Waits(earlier)
    case _ => false
  }

  function BreakCode(s: Stamped, start: real): ErrorCode {
    if s.event.SocketTakes? && s.at < start + IO_DEADLINE then Closed001 else Deadline006
  }

  // Nothing has broken the write of size bytes, and some are still to be sent.
  predicate Underway(turns: seq<Stamped>, start: real, size: int) {
    && Sent(turns) < size
    && (turns == [] ||
        var earlier := turns[..|turns| - 1];
        Underway(earlier, start, size) && !Breaks(earlier, turns[|turns| - 1], start))
  }

  // The write of the next submission can start.
  predicate Ready(script: seq<Stamped>) {
    var w := Run(script);
    w.failed == [] && w.queue.active.None? && |w.completed| < |w.admitted|
  }

  function Next(script: seq<Stamped>): Submission
    requires Ready(script)
  {
    Run(script).admitted[|Run(script).completed|]
  }

  function Started(script: seq<Stamped>, start: real, turns: seq<Stamped>): seq<Stamped> {
    script + [Stamped(Start, start)] + turns
  }

  lemma NextIsFirst(script: seq<Stamped>)
    requires Ready(script)
    ensures var w := Run(script);
      && w.queue.chain != [] && w.queue.chain[0] == Next(script)
      && w.queue.poison.None? && !w.queue.settling && w.completed + [Next(script)] <= w.admitted
      && |Next(script).payload| <= MAX_FRAME_LEN
  {
    hide Run, OnWire;
    RunSound(script);
    RunKeepsOrder(script);
  }

  // ---- one event of a write ----

  predicate Writing(w0: World, w: World, job: Submission, start: real, turns: seq<Stamped>)
    requires ValidFrame(job.Framed())
  {
    var wire := Wire(job.Framed());
    && 0 <= Sent(turns) < |wire|
    && w.queue.active == Some(Active(job, wire, Sent(turns), start + IO_DEADLINE, Waits(turns)))
    && w.queue.poison.None? && !w.queue.settling
    && w.wire == w0.wire + wire[..Sent(turns)] && w.completed == w0.completed && w.failed == []
  }

  // What an event does to the frame being written.
  lemma EffectOnActive(q: Queue, e: Event, at: real)
    requires q.active.Some? && q.active.value.offset < |q.active.value.frame|
    ensures var a, effect := q.active.value, Step(q, e, at);
      match e
      case SocketTakes(n) =>
        if a.draining then effect == Effect(q, [], Unsettled)
        else if n < 0 || at >= a.deadlineAt then
          effect == Effect(
            q.(active := None, settling := true), [], Failed(if at < a.deadlineAt then Closed001 else Deadline006))
        else if a.offset + n < |a.frame| then
          effect == Effect(
            q.(active := Some(a.(offset := a.offset + n, draining := n == 0))),
            a.frame[a.offset..a.offset + n], Unsettled)
        else effect == Effect(q.(active := None), a.frame[a.offset..], Done)
      case DrainTimeout =>
        if a.draining then effect == Effect(q.(active := None, settling := true), [], Failed(Deadline006))
        else effect == Effect(q, [], Unsettled)
      case Drain => effect == Effect(q.(active := Some(a.(draining := false))), [], Unsettled)
      case Submit(_) => effect.queue == q.(chain := effect.queue.chain) && effect.bytes == []
      case Start => effect == Effect(q, [], Unsettled)
      case Handled => q.poison.None? && !q.settling ==> effect == Effect(q, [], Unsettled)
  {
  }

  // What an event adds to the turns.
  lemma TurnsGrow(turns: seq<Stamped>, s: Stamped)
    ensures Sent(turns + [s]) == Sent(turns) + if s.event.SocketTakes? && !Waits(turns) then s.event.n else 0
    ensures Waits(turns + [s]) ==
            match s.event
            case Drain => false
            case SocketTakes(n) => n == 0 || Waits(turns)
            case _ => Waits(turns)
  {
    assert (turns + [s])[..|turns|] == turns;
  }

  lemma TurnBreaks(w0: World, w: World, job: Submission, start: real, turns: seq<Stamped>, s: Stamped)
    requires ValidFrame(job.Framed()) && Writing(w0, w, job, start, turns) && Breaks(turns, s, start)
    ensures var w1 := StepWorld(w, s);
      && w1.failed == [job] && w1.completed == w0.completed && w1.wire == w.wire
      && Settling(w.queue, s.event, Step(w.queue, s.event, s.at).settled)
         == [Answer(job, Failed(BreakCode(s, start)))]
  {
    hide Wire, Waits, Sent, Step, StepWorld;
    EffectOnActive(w.queue, s.event, s.at);
    Books(w, s);
    assert w.wire + [] == w.wire;
  }

  lemma TurnContinues(w0: World, w: World, job: Submission, start: real, turns: seq<Stamped>, s: Stamped)
    requires ValidFrame(job.Framed()) && Writing(w0, w, job, start, turns) && !Breaks(turns, s, start)
    requires Sent(turns + [s]) < |Wire(job.Framed())|
    ensures Writing(w0, StepWorld(w, s), job, start, turns + [s])
  {
    hide Wire, Waits, Sent, Step, StepWorld;
    EffectOnActive(w.queue, s.event, s.at);
    Books(w, s);
    TurnsGrow(turns, s);
    var frame, bytes := Wire(job.Framed()), Step(w.queue, s.event, s.at).bytes;
    assert bytes == frame[Sent(turns)..Sent(turns + [s])];
    SentMore(w0.wire, frame, Sent(turns), Sent(turns + [s]));
    if !s.event.Submit? {
      assert Step(w.queue, s.event, s.at).settled.Unsettled?;
    }
    NoSubject(w.queue, s.event);
  }

  lemma NoSubject(q: Queue, e: Event)
    ensures e.Submit? ==> Subject(q, e) == []
  {
  }

  lemma SentMore(wire: seq<byte>, frame: seq<byte>, a: nat, b: nat)
    requires a <= b <= |frame|
    ensures wire + frame[..a] + frame[a..b] == wire + frame[..b]
  {
  }

  lemma TurnCompletes(w0: World, w: World, job: Submission, start: real, turns: seq<Stamped>, s: Stamped)
    requires ValidFrame(job.Framed()) && Writing(w0, w, job, start, turns) && !Breaks(turns, s, start)
    requires Sent(turns + [s]) >= |Wire(job.Framed())|
    ensures var w1 := StepWorld(w, s);
      && w1.completed == w0.completed + [job] && w1.failed == [] && w1.queue.active.None?
      && w1.wire == w0.wire + Wire(job.Framed())
      && Settling(w.queue, s.event, Step(w.queue, s.event, s.at).settled) == [Answer(job, Done)]
  {
    hide Wire, Waits, Sent, Step, StepWorld;
    EffectOnActive(w.queue, s.event, s.at);
    Books(w, s);
    TurnsGrow(turns, s);
    var frame := Wire(job.Framed());
    SentMore(w0.wire, frame, Sent(turns), |frame|);
    assert frame[Sent(turns)..|frame|] == frame[Sent(turns)..] && frame[..|frame|] == frame;
  }

  lemma StartBegins(w: World, start: real)
    requires w.queue.active.None? && w.queue.poison.None? && !w.queue.settling && w.queue.chain != [] && w.failed == []
    requires var f := w.queue.chain[0].Framed(); Encodable(f.header) && |f.payload| <= MAX_FRAME_LEN
    ensures Writing(w, StepWorld(w, Stamped(Start, start)), w.queue.chain[0], start, [])
  {
    hide HeaderBytes;
    var job := w.queue.chain[0];
    assert w.wire + [] == w.wire && Wire(job.Framed())[..0] == [];
  }

  // ---- the whole write ----

  predicate Fits(script: seq<Stamped>) {
    Ready(script) && Encodable(Next(script).Framed().header)
  }

  lemma FitsIsValid(script: seq<Stamped>)
    requires Fits(script)
    ensures ValidFrame(Next(script).Framed())
    ensures |Wire(Next(script).Framed())| == HEADER_LEN + |Next(script).payload|
  {
    hide Run;
    NextIsFirst(script);
  }

  lemma StartedStep(script: seq<Stamped>, start: real, turns: seq<Stamped>, s: Stamped)
    ensures var longer := Started(script, start, turns + [s]);
      && Run(longer) == StepWorld(Run(Started(script, start, turns)), s)
      && var q := Run(Started(script, start, turns)).queue;
      Answers(longer) == Answers(Started(script, start, turns)) + Settling(q, s.event, Step(q, s.event, s.at).settled)
  {
    hide StepWorld, Step, Settling;
    var longer := Started(script, start, turns + [s]);
    assert longer[..|longer| - 1] == Started(script, start, turns);
  }

  lemma {:induction false} UnderwayWrites(script: seq<Stamped>, start: real, turns: seq<Stamped>)
    requires Fits(script) && Underway(turns, start, HEADER_LEN + |Next(script).payload|)
    ensures ValidFrame(Next(script).Framed())
    ensures Writing(Run(script), Run(Started(script, start, turns)), Next(script), start, turns)
    decreases |turns|
  {
    hide Run, StepWorld, Step, Settling, Writing, Wire, Breaks, Waits, Answers;
    FitsIsValid(script);
    if turns == [] {
      FirstStep(script, start);
    } else {
      var earlier, s := turns[..|turns| - 1], turns[|turns| - 1];
      assert turns == earlier + [s];
      UnderwayWrites(script, start, earlier);
      StartedStep(script, start, earlier, s);
      TurnContinues(Run(script), Run(Started(script, start, earlier)), Next(script), start, earlier, s);
    }
  }

  lemma FirstStep(script: seq<Stamped>, start: real)
    requires Fits(script) && ValidFrame(Next(script).Framed())
    ensures Writing(Run(script), Run(Started(script, start, [])), Next(script), start, [])
  {
    hide StepWorld, Writing;
    var longer := Started(script, start, []);
    assert longer[..|longer| - 1] == script;
    NextIsFirst(script);
    StartBegins(Run(script), start);
  }

  // The write of size bytes ends with turn k.
  predicate FailsAt(turns: seq<Stamped>, k: nat, start: real, size: int)
    requires k < |turns|
  {
    Underway(turns[..k], start, size) && Breaks(turns[..k], turns[k], start)
  }

  predicate CompletesAt(turns: seq<Stamped>, k: nat, start: real, size: int)
    requires k < |turns|
  {
    Underway(turns[..k], start, size) && !Breaks(turns[..k], turns[k], start) && Sent(turns[..k + 1]) >= size
  }

  // The header that says what was submitted.
  function HeaderOf(job: Submission): Header {
    Header(job.kind, job.flags, job.channel, job.corr, |job.payload|)
  }

  lemma WireOfJob(job: Submission)
    requires ValidFrame(job.Framed())
    ensures Encodable(HeaderOf(job)) && Wire(job.Framed()) == HeaderBytes(HeaderOf(job)) + job.payload
  {
  }

  // What each outcome means for the submission, at the very event that decides it.
  lemma OutcomeAt(script: seq<Stamped>, start: real, turns: seq<Stamped>, k: nat)
    requires Fits(script) && k < |turns|
    ensures var w, w1, job := Run(script), Run(Started(script, start, turns[..k + 1])), Next(script);
      var size := HEADER_LEN + |job.payload|;
      && ValidFrame(job.Framed())
      && (FailsAt(turns, k, start, size) ==>
            && w1.failed == [job] && w1.completed == w.completed
            && 0 <= Sent(turns[..k]) < size && w1.wire == w.wire + Wire(job.Framed())[..Sent(turns[..k])]
            && Answers(Started(script, start, turns[..k + 1]))
               == Answers(Started(script, start, turns[..k])) + [Answer(job, Failed(BreakCode(turns[k], start)))])
      && (CompletesAt(turns, k, start, size) ==>
            && w1.failed == [] && w1.completed == w.completed + [job]
            && w1.wire == w.wire + Wire(job.Framed())
            && Encodable(HeaderOf(job)) && Wire(job.Framed()) == HeaderBytes(HeaderOf(job)) + job.payload
            && Answers(Started(script, start, turns[..k + 1]))
               == Answers(Started(script, start, turns[..k])) + [Answer(job, Done)])
  {
    hide Run, StepWorld, Step, Settling, Wire, Breaks, Waits, Sent, Answers, BreakCode;
    FitsIsValid(script);
    WireOfJob(Next(script));
    var earlier, s, size := turns[..k], turns[k], HEADER_LEN + |Next(script).payload|;
    assert turns[..k + 1] == earlier + [s];
    if Underway(earlier, start, size) {
      UnderwayWrites(script, start, earlier);
      StartedStep(script, start, earlier, s);
      var w0, w := Run(script), Run(Started(script, start, earlier));
      if Breaks(earlier, s, start) {
        TurnBreaks(w0, w, Next(script), start, earlier, s);
      } else if Sent(earlier + [s]) >= size {
        TurnCompletes(w0, w, Next(script), start, earlier, s);
      }
    }
  }

  lemma StepGrows(w: World, s: Stamped)
    ensures var w1 := StepWorld(w, s);
      w.completed <= w1.completed && w.failed <= w1.failed && w.wire <= w1.wire && w.admitted <= w1.admitted
  {
    hide Step;
  }

  lemma {:induction false} StartedGrows(script: seq<Stamped>, start: real, turns: seq<Stamped>, k: nat)
    requires k <= |turns|
    ensures var w, w1 := Run(Started(script, start, turns[..k])), Run(Started(script, start, turns));
      w.completed <= w1.completed && w.failed <= w1.failed && w.wire <= w1.wire
    decreases |turns|
  {
    hide Run, StepWorld, Step, Answers, Settling;
    if k == |turns| {
      assert turns[..k] == turns;
    } else {
      var earlier, s := turns[..|turns| - 1], turns[|turns| - 1];
      assert turns == earlier + [s] && earlier[..k] == turns[..k];
      StartedGrows(script, start, earlier, k);
      StartedStep(script, start, earlier, s);
      StepGrows(Run(Started(script, start, earlier)), s);
    }
  }

  // Every write is underway, has failed or has completed.
  lemma {:induction false} SomeOutcome(turns: seq<Stamped>, start: real, size: int)
    requires size > 0
    ensures Underway(turns, start, size)
            || exists k: nat :: k < |turns| && (FailsAt(turns, k, start, size) || CompletesAt(turns, k, start, size))
    decreases |turns|
  {
    hide Breaks, Waits;
    if turns != [] {
      var n := |turns| - 1;
      SomeOutcome(turns[..n], start, size);
      if Underway(turns[..n], start, size) {
        assert turns[..n + 1] == turns;
        assert Underway(turns, start, size) || FailsAt(turns, n, start, size) || CompletesAt(turns, n, start, size);
      } else {
        var k: nat :| k < n && (FailsAt(turns[..n], k, start, size) || CompletesAt(turns[..n], k, start, size));
        assert turns[..n][..k] == turns[..k] && turns[..n][..k + 1] == turns[..k + 1];
        assert FailsAt(turns, k, start, size) || CompletesAt(turns, k, start, size);
      }
    }
  }

  // Exactly when a started frame fails, and exactly when it completes, in any run: it
  // fails at the first turn that breaks the write, unless all its bytes went out before.
  lemma FateIsExact(script: seq<Stamped>, start: real, turns: seq<Stamped>)
    requires Fits(script)
    ensures var w, w1, job := Run(script), Run(Started(script, start, turns)), Next(script);
      var size := HEADER_LEN + |job.payload|;
      && ((w1.failed == [job] && w1.completed == w.completed) <==>
          exists k: nat :: k < |turns| && FailsAt(turns, k, start, size))
      && (w.completed + [job] <= w1.completed <==>
          exists k: nat :: k < |turns| && CompletesAt(turns, k, start, size))
      && (w1.completed == w.completed && w1.failed == [] <==> Underway(turns, start, size))
  {
    hide Run, StepWorld, Step, Settling, Wire, Breaks, Waits, Sent, Answers, Underway, FailsAt, CompletesAt;
    var w, w1, job := Run(script), Run(Started(script, start, turns)), Next(script);
    var size := HEADER_LEN + |job.payload|;
    FitsIsValid(script);
    SomeOutcome(turns, start, size);
    if Underway(turns, start, size) {
      UnderwayWrites(script, start, turns);
    }
    forall k: nat | k < |turns|
      ensures FailsAt(turns, k, start, size) ==> w1.failed == [job] && w1.completed == w.completed
      ensures CompletesAt(turns, k, start, size) ==> w.completed + [job] <= w1.completed
    {
      OutcomeAt(script, start, turns, k);
      StartedGrows(script, start, turns, k + 1);
      if FailsAt(turns, k, start, size) {
        FailureLasts(script, start, turns, k);
      }
    }
  }

  lemma FailureLasts(script: seq<Stamped>, start: real, turns: seq<Stamped>, k: nat)
    requires k < |turns| && Run(Started(script, start, turns[..k + 1])).failed != []
    ensures var w, w1 := Run(Started(script, start, turns[..k + 1])), Run(Started(script, start, turns));
      w1.failed == w.failed && w1.completed == w.completed
  {
    hide Run;
    PoisonedForever(Started(script, start, turns[..k + 1]), turns[k + 1..]);
    assert Started(script, start, turns[..k + 1]) + turns[k + 1..] == Started(script, start, turns);
  }

  // Progress: with an answer of the socket for every byte, none of them late or an error,
  // and every wait for a drain ended by one, the frame is written whole.
  lemma {:induction false} TimelyWriteCompletes(script: seq<Stamped>, start: real, turns: seq<Stamped>)
    requires Fits(script) && Sent(turns) >= HEADER_LEN + |Next(script).payload|
    requires forall k :: 0 <= k < |turns| ==>
               && turns[k].event != DrainTimeout
               && (turns[k].event.SocketTakes? ==> turns[k].event.n >= 0 && turns[k].at < start + IO_DEADLINE)
    ensures var w, w1, job := Run(script), Run(Started(script, start, turns)), Next(script);
      && w.completed + [job] <= w1.completed
      && ValidFrame(job.Framed()) && w.wire + Wire(job.Framed()) <= w1.wire
  {
    hide Run, StepWorld, Step, Settling, Wire, Waits, Sent, Answers, Underway, CompletesAt;
    var size := HEADER_LEN + |Next(script).payload|;
    FitsIsValid(script);
    SomeOutcome(turns, start, size);
    NotUnderway(turns, start, size);
    forall k: nat | k < |turns|
      ensures !FailsAt(turns, k, start, size)
    {
    }
    var k: nat :| k < |turns| && CompletesAt(turns, k, start, size);
    OutcomeAt(script, start, turns, k);
    StartedGrows(script, start, turns, k + 1);
  }

  lemma NotUnderway(turns: seq<Stamped>, start: real, size: int)
    requires Sent(turns) >= size
    ensures !Underway(turns, start, size)
  {
  }

  // A frame whose header cannot be encoded fails at its start, before any byte.
  lemma UnencodableFails(script: seq<Stamped>, start: real)
    requires Ready(script) && !Encodable(Next(script).Framed().header)
    ensures var longer, w, job := script + [Stamped(Start, start)], Run(script), Next(script);
      && Run(longer).failed == [job] && Run(longer).completed == w.completed && Run(longer).wire == w.wire
      && Answers(longer) == Answers(script) + [Answer(job, Failed(Codec003))]
  {
    var longer := script + [Stamped(Start, start)];
    assert longer[..|longer| - 1] == script;
    NextIsFirst(script);
    assert Run(script).wire + [] == Run(script).wire && Run(script).completed + [] == Run(script).completed;
  }

  // ---- after a failure ----

  // The handler of a failed write has run.
  ghost predicate Poisoned(script: seq<Stamped>) {
    exists i :: 0 <= i < |script| && script[i].event.Handled? && Run(script[..i]).failed != []
  }

  // A chained write failed or was refused, and its handler has not run since.
  predicate Unhandled(script: seq<Stamped>) {
    script != []
    && var earlier := script[..|script| - 1];
    !script[|script| - 1].event.Handled?
    && (Unhandled(earlier)
        || Run(script).failed != Run(earlier).failed || Run(script).refused != Run(earlier).refused)
  }

  lemma StepSettles(w: World, s: Stamped)
    requires Ledger(w)
    ensures var w1 := StepWorld(w, s);
      && w1.queue.settling ==
         (!s.event.Handled? && (w.queue.settling || w1.failed != w.failed || w1.refused != w.refused))
      && w1.queue.poison == if s.event.Handled? && w.failed != [] && w.queue.poison.None? then Some(Closed001)
                            else w.queue.poison
  {
  }

  // The queue is poisoned, with one and the same error, exactly once a failed write has
  // been handled; and it holds back the next write exactly while one has not.
  lemma {:induction false} PoisonIsExact(script: seq<Stamped>)
    ensures Run(script).queue.poison == if Poisoned(script) then Some(Closed001) else None
    ensures Run(script).queue.settling == Unhandled(script)
    decreases |script|
  {
    hide StepWorld, Ledger, OnWire;
    if script != [] {
      var n := |script| - 1;
      var earlier, s := script[..n], script[n];
      PoisonIsExact(earlier);
      RunSound(earlier);
      StepSettles(Run(earlier), s);
      assert forall i :: 0 <= i < n ==> earlier[..i] == script[..i] && earlier[i] == script[i];
      if Poisoned(script) && !Poisoned(earlier) {
        var i :| 0 <= i < |script| && script[i].event.Handled? && Run(script[..i]).failed != [];
        assert i == n;
      }
      if Poisoned(earlier) {
        var i :| 0 <= i < |earlier| && earlier[i].event.Handled? && Run(earlier[..i]).failed != [];
        assert script[i].event.Handled? && Run(script[..i]).failed != [];
      }
    }
  }

  // An over-size submission is refused with KELD-IPC-004 and any other on a poisoned
  // queue with KELD-IPC-001, at once; every other one is admitted.
  lemma SubmitIsAnswered(script: seq<Stamped>, job: Submission, at: real)
    ensures var longer, w := script + [Stamped(Submit(job), at)], Run(script);
      var refusal :=
        if |job.payload| > MAX_FRAME_LEN then Some(TooLarge004)
        else if Poisoned(script) then Some(Closed001)
        else None;
      match refusal
      case Some(code) =>
        Run(longer).admitted == w.admitted && Answers(longer) == Answers(script) + [Answer(job, Failed(code))]
      case None =>
        Run(longer).admitted == w.admitted + [job] && Answers(longer) == Answers(script)
  {
    hide Poisoned;
    var longer := script + [Stamped(Submit(job), at)];
    assert longer[..|longer| - 1] == script;
    PoisonIsExact(script);
    assert Run(script).admitted + [] == Run(script).admitted && Answers(script) + [] == Answers(script);
  }

  // On a poisoned queue every chained submission is refused in its turn.
  lemma ChainIsRefused(script: seq<Stamped>, at: real)
    requires Poisoned(script) && !Unhandled(script) && Run(script).queue.chain != []
    ensures var longer, w := script + [Stamped(Start, at)], Run(script);
      var job := w.queue.chain[0];
      && Run(longer).refused == w.refused + [job] && Run(longer).queue.chain == w.queue.chain[1..]
      && Answers(longer) == Answers(script) + [Answer(job, Failed(Closed001))]
  {
    hide Poisoned, Unhandled, EncodeHeader;
    var longer := script + [Stamped(Start, at)];
    assert longer[..|longer| - 1] == script;
    PoisonIsExact(script);
    PoisonMeansFailed(script);
  }

  lemma PoisonMeansFailed(script: seq<Stamped>)
    requires Run(script).queue.poison.Some?
    ensures Run(script).queue.active.None?
  {
    hide Run, OnWire;
    RunKeepsOrder(script);
  }
}
