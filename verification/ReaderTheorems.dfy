// What the invariant of ReaderRuns means for users of the reader: delivery, deadlines
// and memory bounds, for every script of events.
module ReaderTheorems {
  import opened Basics
  import opened Frame
  import opened ReaderModel
  import opened ReaderRuns

  lemma {:induction false} CarriesIsWire(past: seq<Cell>, fs: seq<Frame>)
    requires Carries(past, fs)
    ensures AllValid(fs) && Values(past) == WireAll(fs)
    decreases |fs|
  {
    hide Wire;
    if fs != [] {
      var start, fewer := |past| - Size(fs[|fs| - 1]), fs[..|fs| - 1];
      CarriesIsWire(past[..start], fewer);
      ValuesConcat(past[..start], past[start..]);
      assert past == past[..start] + past[start..];
      assert fs == fewer + [fs[|fs| - 1]];
    }
  }

  lemma ValuesConcat(a: seq<Cell>, b: seq<Cell>)
    ensures Values(a + b) == Values(a) + Values(b)
  {
  }

  // Fragmentation independence: whatever the chunk boundaries, reads, timers and clock,
  // the delivered frames are the first frames of the concatenated bytes. An open reader
  // still holds exactly the bytes after them, and one with a read pending has delivered
  // every complete frame.
  lemma RunDelivers(script: seq<Stamped>)
    ensures var w := Run(script);
      && AllValid(w.delivered)
      && WireAll(w.delivered) <= Values(w.history)
      && w.delivered <= Parse(Values(w.history))
      && (w.reader.closed.None? ==> Values(w.history) == WireAll(w.delivered) + Values(w.reader.cells))
      && (w.reader.closed.None? && w.reader.waiting ==> w.delivered == Parse(Values(w.history)))
  {
    hide Run, FrontOf, HeadOf, HeaderBytes, Carries;
    var w := Run(script);
    RunSound(script);
    var n := |WireAll(w.delivered)|;
    CarriesIsWire(w.history[..n], w.delivered);
    var rest := Values(w.history[n..]);
    assert Values(w.history) == WireAll(w.delivered) + rest by {
      assert w.history == w.history[..n] + w.history[n..];
    }
    ParseWireAll(w.delivered, rest);
    if w.reader.closed.None? && w.reader.waiting {
      DrainedParsesToNothing(w.reader.cells);
    }
  }

  lemma DrainedParsesToNothing(cells: seq<Cell>)
    requires Drained(cells)
    ensures Parse(Values(cells)) == []
  {
  }

  // Absolute frame deadline: the bytes of the k-th delivered frame sit in the accepted
  // history, and the last of them arrived less than IO_DEADLINE after the first.
  lemma RunIsTimely(script: seq<Stamped>, k: nat)
    requires k < |Run(script).delivered|
    ensures var w := Run(script);
      && AllValid(w.delivered)
      && var start, end := |WireAll(w.delivered[..k])|, |WireAll(w.delivered[..k + 1])|;
      && start < end <= |w.history|
      && Values(w.history[start..end]) == Wire(w.delivered[k])
      && w.history[end - 1].at - w.history[start].at < IO_DEADLINE
  {
    hide Run, FrontOf, HeadOf, HeaderBytes, Carries;
    var w := Run(script);
    RunSound(script);
    var past := w.history[..|WireAll(w.delivered)|];
    CarriesAt(past, w.delivered, k);
    var start, end := |WireAll(w.delivered[..k])|, |WireAll(w.delivered[..k + 1])|;
    assert past[start..end] == w.history[start..end];
  }

  lemma {:induction false} CarriesAt(past: seq<Cell>, fs: seq<Frame>, k: nat)
    requires Carries(past, fs) && k < |fs|
    ensures AllValid(fs)
    ensures var start, end := |WireAll(fs[..k])|, |WireAll(fs[..k + 1])|;
      && start < end <= |past|
      && Values(past[start..end]) == Wire(fs[k])
      && !Late(past[start].at, past[end - 1].at)
    decreases |fs|
  {
    hide HeaderBytes, Wire, WireAll;
    CarriesIsWire(past, fs);
    var last := |fs| - 1;
    var cut, fewer := |past| - Size(fs[last]), fs[..last];
    CarriesIsWire(past[..cut], fewer);
    if k < last {
      CarriesAt(past[..cut], fewer, k);
      assert fewer[..k] == fs[..k] && fewer[..k + 1] == fs[..k + 1] && fewer[k] == fs[k];
      var start, end := |WireAll(fs[..k])|, |WireAll(fs[..k + 1])|;
      assert past[..cut][start..end] == past[start..end];
    } else {
      assert fs[..k + 1] == fs && fs[..k] == fewer;
      assert past[cut..|past|] == past[cut..];
    }
  }

  // While an open reader holds a byte its deadline walk has not accepted, a timer is
  // armed for at most IO_DEADLINE after that byte arrived, or at once if that is past;
  // everything before that byte is whole, timely frames.
  lemma RunArmsTheDeadline(script: seq<Stamped>)
    requires Run(script).reader.closed.None?
    ensures var r := Run(script).reader;
      && r.census <= |r.cells|
      && WholeRun(r.cells[..r.census])
      && (r.census < |r.cells| <==> r.timer.Some?)
      && (r.timer.Some? ==> r.timer.value.Due() == MaxReal(r.timer.value.armedAt, r.cells[r.census].at + IO_DEADLINE))
  {
    hide Run, FrontOf, WholeRun, Carries;
    RunSound(script);
  }

  predicate Chronological(script: seq<Stamped>) {
    forall i, j :: 0 <= i < j < |script| ==> script[i].at <= script[j].at
  }

  // No event happens after an armed deadline without the timer having fired first.
  predicate Punctual(script: seq<Stamped>) {
    forall i :: 0 <= i < |script| ==>
      var t := Run(script[..i]).reader.timer;
      t.Some? ==> script[i].at <= t.value.Due()
  }

  predicate Ordered(r: Reader, now: real) {
    && (forall i, j :: 0 <= i < j < |r.cells| ==> r.cells[i].at <= r.cells[j].at)
    && (forall i :: 0 <= i < |r.cells| ==> r.cells[i].at <= now)
  }

  predicate DueExactly(r: Reader) {
    r.timer.Some? && r.census < |r.cells| ==> r.timer.value.Due() == r.cells[r.census].at + IO_DEADLINE
  }

  predicate Prompt(r: Reader, now: real) {
    r.timer.Some? ==> now <= r.timer.value.Due()
  }

  lemma DeliverIsPunctual(r: Reader, n: nat, now: real)
    requires n <= |r.cells| && TimerOk(r) && Ordered(r, now) && DueExactly(r) && Prompt(r, now)
    ensures DueExactly(Deliver(r, n, now)) && Ordered(Deliver(r, n, now), now)
  {
  }

  lemma ResolveIsPunctual(r: Reader, now: real)
    requires TimerOk(r) && Ordered(r, now) && DueExactly(r) && Prompt(r, now)
    ensures var r1 := TryResolve(r, now).0; DueExactly(r1) && Ordered(r1, now)
  {
    hide FrontOf, Deliver;
    if r.waiting && r.cells != [] && FrontOf(r.cells).Whole? {
      DeliverIsPunctual(r, Size(FrontOf(r.cells).frame), now);
    }
  }

  lemma PushIsPunctual(r: Reader, chunk: seq<byte>, now: real)
    requires TimerOk(r) && Ordered(r, now) && DueExactly(r) && Prompt(r, now)
    ensures var r1 := Push(r, chunk, now).0; DueExactly(r1) && Ordered(r1, now)
  {
    hide FrontOf, TryResolve;
    if r.closed.None? && chunk != [] {
      ResolveIsPunctual(
        EnsureDeadline(r.(cells := r.cells + CellsOf(chunk, now, r.pushed), pushed := r.pushed + 1), now), now);
    }
  }

  lemma ReadIsPunctual(r: Reader, now: real)
    requires TimerOk(r) && Ordered(r, now) && DueExactly(r) && Prompt(r, now)
    ensures var r1 := ReadFrame(r, now).0; DueExactly(r1) && Ordered(r1, now)
  {
    hide FrontOf, TryResolve;
    if r.closed.None? && !r.waiting {
      ResolveIsPunctual(EnsureDeadline(r.(waiting := true), now), now);
    }
  }

  lemma TimeoutIsPunctual(r: Reader, now: real)
    requires TimerOk(r) && WholeRun(r.cells[..r.census]) && Ordered(r, now) && DueExactly(r)
    ensures var r1 := TimerFires(r, now).0; DueExactly(r1) && Ordered(r1, now)
  {
    hide FrontOf, WholeRun, Walk;
    if r.timer.Some? {
      WalkIsWhole(r.cells, r.census);
      var walk := Walk(r.cells, r.census);
      if walk.verdict.Partial? {
        UnfinishedSince(r.cells[walk.census..]);
      }
    }
  }

  lemma StepIsPunctual(w: World, s: Stamped)
    requires Sound(w) && Ordered(w.reader, s.at) && DueExactly(w.reader) && Prompt(w.reader, s.at)
    ensures var r1 := StepWorld(w, s).reader; DueExactly(r1) && Ordered(r1, s.at)
  {
    hide Push, ReadFrame, TimerFires, Carries, WholeRun, Drained;
    var r := w.reader;
    if r.closed.None? {
      match s.event {
        case Chunk(bytes) => PushIsPunctual(r, bytes, s.at);
        case Read => ReadIsPunctual(r, s.at);
        case Timeout => TimeoutIsPunctual(r, s.at);
        case Break(_) =>
      }
    } else {
      ClosedStaysIdle(r, s);
    }
  }

  lemma ClosedStaysIdle(r: Reader, s: Stamped)
    requires r.closed.Some? && r.cells == [] && r.timer.None?
    ensures var r1 := Step(r, s.event, s.at).0; r1.cells == [] && r1.timer.None?
  {
  }

  lemma {:induction false} RunIsPunctual(script: seq<Stamped>, now: real)
    requires Chronological(script) && Punctual(script)
    requires script != [] ==> script[|script| - 1].at <= now
    ensures DueExactly(Run(script).reader) && Ordered(Run(script).reader, now)
    decreases |script|
  {
    hide StepWorld, Sound, DueExactly;
    if script == [] {
      FreshIsPunctual(now);
    } else {
      var earlier, s := script[..|script| - 1], script[|script| - 1];
      PunctualPrefix(script);
      RunIsPunctual(earlier, s.at);
      RunSound(earlier);
      StepIsPunctual(Run(earlier), s);
    }
  }

  lemma FreshIsPunctual(now: real)
    ensures DueExactly(Run([]).reader) && Ordered(Run([]).reader, now)
  {
  }

  lemma PunctualPrefix(script: seq<Stamped>)
    requires Punctual(script) && script != []
    ensures Punctual(script[..|script| - 1]) && Prompt(Run(script[..|script| - 1]).reader, script[|script| - 1].at)
  {
    hide Run;
    var earlier := script[..|script| - 1];
    forall i | 0 <= i < |earlier|
      ensures var t := Run(earlier[..i]).reader.timer; t.Some? ==> earlier[i].at <= t.value.Due()
    {
      assert earlier[..i] == script[..i];
    }
  }

  // With punctual timers, no open reader is ever seen holding an uncensused byte for
  // longer than the deadline: later chunks cannot keep an unfinished frame alive.
  lemma PunctualTimersBoundFrameAge(script: seq<Stamped>, next: Stamped)
    requires Chronological(script + [next]) && Punctual(script + [next])
    requires var r := Run(script).reader; r.closed.None? && r.census < |r.cells|
    ensures var r := Run(script).reader; next.at <= r.cells[r.census].at + IO_DEADLINE
  {
    hide Run, StepWorld;
    var all := script + [next];
    PunctualPrefix(all);
    assert all[..|all| - 1] == script && all[|script|] == next;
    assert forall i :: 0 <= i < |script| ==> all[i] == script[i];
    RunIsPunctual(script, next.at);
    RunArmsTheDeadline(script);
  }

  // ---- when the deadline moves ----

  // How many bytes an open reader has delivered, and where in the history the byte is
  // that its deadline runs for.
  function Consumed(w: World): int {
    |w.history| - |w.reader.cells|
  }

  function Timed(w: World): int {
    Consumed(w) + w.reader.census
  }

  // The deadline still runs for the same byte, and has not moved further away than it
  // was, or than the clock is.
  predicate NotPostponed(w: World, w1: World, now: real) {
    && Timed(w1) == Timed(w) && w.reader.timer.Some? && w1.reader.timer.Some?
    && w1.reader.timer.value.Due() <= MaxReal(now, w.reader.timer.value.Due())
  }

  lemma ResolveKeepsDeadline(r: Reader, now: real)
    requires TimerOk(r) && r.timer.Some? && r.closed.None?
    ensures var r1 := TryResolve(r, now).0;
      r1.closed.None? ==>
        && |r1.cells| <= |r.cells|
        && (|r1.cells| == |r.cells| ==> r1.timer == r.timer && r1.census == r.census)
        && var n := |r.cells| - |r1.cells|;
        (n <= r.census ==>
          && r1.census == r.census - n && r1.timer.Some?
          && r1.timer.value.Due() <= MaxReal(now, r.timer.value.Due()))
  {
    hide FrontOf;
  }

  // A chunk or a read that delivers nothing leaves an armed deadline alone. One that
  // delivers a frame the census covers does not postpone it.
  lemma StepKeepsDeadline(w: World, s: Stamped)
    requires Sound(w) && w.reader.closed.None? && w.reader.timer.Some? && !s.event.Timeout?
    ensures var w1 := StepWorld(w, s);
      w1.reader.closed.None? ==>
        && Consumed(w) <= Consumed(w1)
        && (Consumed(w1) == Consumed(w) ==> w1.reader.timer == w.reader.timer && w1.reader.census == w.reader.census)
        && (Consumed(w1) <= Timed(w) ==> NotPostponed(w, w1, s.at))
  {
    hide FrontOf, Carries, WholeRun, Drained, TryResolve, WireAll, AllValid;
    var r := w.reader;
    match s.event {
      case Chunk(bytes) =>
        if bytes != [] {
          var r0 := r.(cells := r.cells + CellsOf(bytes, s.at, r.pushed), pushed := r.pushed + 1);
          ResolveKeepsDeadline(r0, s.at);
        }
      case Read =>
        ResolveKeepsDeadline(r.(waiting := true), s.at);
      case Break(_) =>
    }
  }

  // However many chunks and reads follow, while no frame beyond the census is delivered
  // the armed deadline is not postponed. Nothing is assumed about when timers fire.
  lemma {:induction false} ChunksNeverPostpone(script: seq<Stamped>, more: seq<Stamped>, now: real)
    requires forall i :: 0 <= i < |more| ==> !more[i].event.Timeout? && more[i].at <= now
    requires Run(script).reader.closed.None? && Run(script).reader.timer.Some?
    requires Run(script + more).reader.closed.None? && Consumed(Run(script + more)) <= Timed(Run(script))
    ensures NotPostponed(Run(script), Run(script + more), now)
    decreases |more|
  {
    hide Run, StepWorld, Sound, Consumed, Timed;
    if more == [] {
      assert script + more == script;
    } else {
      var earlier, s, all := more[..|more| - 1], more[|more| - 1], script + more;
      assert all[..|all| - 1] == script + earlier && all[..|all|] == all;
      RunStep(all, |all| - 1);
      RunSound(script + earlier);
      var w := Run(script + earlier);
      StepConsumes(w, s);
      ChunksNeverPostpone(script, earlier, now);
      StepKeepsDeadline(w, s);
    }
  }

  // A closed reader stays closed, and bytes are never taken back.
  lemma StepConsumes(w: World, s: Stamped)
    ensures StepWorld(w, s).reader.closed.None? ==> w.reader.closed.None? && Consumed(w) <= Consumed(StepWorld(w, s))
  {
    hide FrontOf, Walk;
  }

  // ---- when the deadline is enforced ----

  // Whole, timely frames up to position p, and something else there.
  ghost predicate StopsAt(cells: seq<Cell>, p: nat) {
    p < |cells| && WholeRun(cells[..p]) && !FrontOf(cells[p..]).Whole?
  }

  lemma {:induction false} StopIsUnique(cells: seq<Cell>, p: nat, q: nat)
    requires StopsAt(cells, p) && p <= q < |cells| && WholeRun(cells[..q])
    ensures p == q
    decreases p
  {
    hide FrontOf;
    if p < q {
      if p == 0 {
        assert cells[..q] + cells[q..] == cells && cells[0..] == cells;
        FrontIsStable(cells[..q], cells[q..]);
      } else {
        var n := Size(FrontOf(cells[..p]).frame);
        FrontIsStable(cells[..p], cells[p..q]);
        assert cells[..p] + cells[p..q] == cells[..q];
        assert cells[..p][n..] == cells[n..][..p - n] && cells[..q][n..] == cells[n..][..q - n];
        assert cells[n..][p - n..] == cells[p..];
        StopIsUnique(cells[n..], p - n, q - n);
      }
    }
  }

  // The deadline walk finds the stop, if there is one.
  lemma WalkFindsTheStop(cells: seq<Cell>, census: nat)
    requires census <= |cells| && WholeRun(cells[..census])
    ensures var w := Walk(cells, census);
      && (w.verdict.AllWhole? <==> w.census == |cells|)
      && (!w.verdict.AllWhole? ==>
            && StopsAt(cells, w.census)
            && (forall p: nat :: StopsAt(cells, p) ==> p == w.census)
            && (w.verdict.Malformed? <==> FrontOf(cells[w.census..]).Unusable?)
            && (w.verdict.Malformed? ==> FrontOf(cells[w.census..]) == Unusable(w.verdict.code))
            && (w.verdict.Partial? ==> w.verdict.startedAt == cells[w.census].at))
      && (w.verdict.AllWhole? ==> forall p: nat :: !StopsAt(cells, p))
  {
    hide FrontOf, WholeRun, Walk;
    WalkIsWhole(cells, census);
    var w := Walk(cells, census);
    if !w.verdict.AllWhole? {
      forall p: nat | StopsAt(cells, p)
        ensures p == w.census
      {
        if p <= w.census { StopIsUnique(cells, p, w.census); } else { StopIsUnique(cells, w.census, p); }
      }
      if w.verdict.Partial? {
        UnfinishedSince(cells[w.census..]);
      }
    } else {
      assert cells[..|cells|] == cells;
      forall p: nat | p < |cells| && WholeRun(cells[..p])
        ensures FrontOf(cells[p..]).Whole?
      {
        NoStopInWholeRun(cells, p);
      }
    }
  }

  lemma {:induction false} NoStopInWholeRun(cells: seq<Cell>, p: nat)
    requires p < |cells| && WholeRun(cells) && WholeRun(cells[..p])
    ensures FrontOf(cells[p..]).Whole?
    decreases p
  {
    hide FrontOf;
    if p == 0 {
      assert cells[0..] == cells;
    } else {
      var n := Size(FrontOf(cells[..p]).frame);
      FrontIsStable(cells[..p], cells[p..]);
      assert cells[..p] + cells[p..] == cells;
      assert cells[..p][n..] == cells[n..][..p - n] && cells[n..][p - n..] == cells[p..];
      NoStopInWholeRun(cells[n..], p - n);
    }
  }

  // The bytes of a header that can be read: magic, version, and a declared kind.
  predicate Readable(bytes: seq<byte>) {
    |bytes| >= 16 && bytes[0] == 0x4b && bytes[1] == 0x49 && bytes[2] == 2 && bytes[3] <= 10
  }

  // What the unread bytes start with, by their values and arrival times.
  lemma FrontIsExact(cells: seq<Cell>)
    requires cells != []
    ensures var bytes, front := Values(cells), FrontOf(cells);
      var late := |cells| >= 16 && cells[15].at - cells[0].at >= 5000.0;
      var len := if |cells| >= 16 then LittleEndian(bytes[12..16]) else 0;
      && (late ==> front == Unusable(Deadline006))
      && (front == Unusable(Header002) <==> |cells| >= 16 && !late && !Readable(bytes))
      && (front == Unusable(TooLarge004) <==> !late && Readable(bytes) && len > 0x100_0000)
      && (front == Unusable(Deadline006) <==>
          late || (Readable(bytes) && 16 + len <= |cells| && len <= 0x100_0000
                   && cells[15 + len].at - cells[0].at >= 5000.0))
      && (front.Unfinished? <==>
          !late && (|cells| < 16 || (Readable(bytes) && len <= 0x100_0000 && |cells| < 16 + len)))
      && (front.Unfinished? ==> front.startedAt == cells[0].at)
      && (front.Whole? ==> front.frame.payload == bytes[16..16 + len])
      && (front.Unusable? ==> front.code in {Deadline006, Header002, TooLarge004})
  {
    if |cells| >= 16 {
      LengthField(Values(cells));
    }
  }

  lemma LengthField(bytes: seq<byte>)
    requires |bytes| >= 16
    ensures GetUint32(bytes, 12) == LittleEndian(bytes[12..16])
  {
    var b := bytes[12..16];
    assert b[1..][1..] == b[2..] && b[2..][1..] == b[3..] && b[3..][1..] == [];
    assert LittleEndian(b[3..]) == b[3] as int;
    assert LittleEndian(b[2..]) == b[2] as int + 256 * b[3] as int;
  }

  // With which error a step must fail an open reader, if with any, other than for the
  // deadline: what a delivery attempt finds in front, what a timer callback finds after
  // whole timely frames, or a bound passed by what is left after a chunk.
  ghost predicate FailsWith(r: Reader, e: Event, now: real, code: ErrorCode) {
    match e
    case Chunk(bytes) =>
      var cells := r.cells + CellsOf(bytes, now, r.pushed);
      && bytes != []
      && if r.waiting && FrontOf(cells).Unusable? then FrontOf(cells) == Unusable(code)
         else
           var left := if r.waiting && FrontOf(cells).Whole? then cells[Size(FrontOf(cells).frame)..] else cells;
           code == TooLarge004 && left != [] && (|left| > 16 + 0x100_0000 || r.pushed + 1 - left[0].chunk > 65536)
    case Read => !r.waiting && r.cells != [] && FrontOf(r.cells) == Unusable(code)
    case Timeout => exists p: nat :: StopsAt(r.cells, p) && FrontOf(r.cells[p..]) == Unusable(code)
    case Break(c) => code == c
  }

  lemma FailureIsExact(w: World, s: Stamped, code: ErrorCode)
    requires Sound(w) && w.reader.closed.None? && (s.event.Break? || code != Deadline006)
    ensures StepWorld(w, s).reader.closed == Some(code) <==> FailsWith(w.reader, s.event, s.at, code)
  {
    hide FrontOf, Carries, WholeRun, Walk, StopsAt, Push;
    var r, now := w.reader, s.at;
    match s.event {
      case Chunk(bytes) =>
        PushFailsExactly(r, bytes, now, code);
      case Read =>
        if !r.waiting && r.cells != [] {
          EnsureDeadlineKeeps(r.(waiting := true), now);
          ResolveExactly(EnsureDeadline(r.(waiting := true), now), now);
        }
      case Timeout =>
        WalkFindsTheStop(r.cells, r.census);
      case Break(_) =>
    }
  }

  lemma PushFailsExactly(r: Reader, bytes: seq<byte>, now: real, code: ErrorCode)
    requires r.closed.None?
    ensures Push(r, bytes, now).0.closed == Some(code) <==> FailsWith(r, Chunk(bytes), now, code)
  {
    hide FrontOf, TryResolve, EnsureDeadline;
    if bytes != [] {
      var r0 := r.(cells := r.cells + CellsOf(bytes, now, r.pushed), pushed := r.pushed + 1);
      EnsureDeadlineKeeps(r0, now);
      assert |r0.cells| >= |bytes|;
      ResolveExactly(EnsureDeadline(r0, now), now);
    }
  }

  lemma ResolveExactly(r: Reader, now: real)
    requires r.closed.None? && r.cells != []
    ensures var (r1, front) := (TryResolve(r, now).0, FrontOf(r.cells));
      && r1.pushed == r.pushed
      && r1.closed == (if r.waiting && front.Unusable? then Some(front.code) else None)
      && r1.cells == (if !r.waiting || front.Unfinished? then r.cells
                      else if front.Whole? then r.cells[Size(front.frame)..] else [])
  {
    hide FrontOf;
    if r.waiting && FrontOf(r.cells).Whole? {
      DeliverStopsWaiting(r, Size(FrontOf(r.cells).frame), now);
    }
  }

  // Only a read is refused, with the error that closed the reader, or with KELD-IPC-005
  // while another is pending. A pending read is rejected exactly when the reader closes
  // without delivering to it, with the same error.
  lemma RefusalIsExact(w: World, s: Stamped)
    requires Sound(w)
    ensures var o := Step(w.reader, s.event, s.at).1;
      && (o.Refused? <==> s.event.Read? && (w.reader.closed.Some? || w.reader.waiting))
      && (o.Refused? ==> o.code == if w.reader.closed.Some? then w.reader.closed.value else Protocol005)
      && (w.reader.closed.None? ==>
            (o.Rejected? <==>
             StepWorld(w, s).reader.closed.Some? && (w.reader.waiting || s.event.Read?) && !o.Resolved?))
      && (o.Rejected? ==> StepWorld(w, s).reader.closed == Some(o.code))
      && (o.Resolved? ==> !StepWorld(w, s).reader.waiting)
  {
    hide FrontOf, Carries, WholeRun, Walk;
  }

  // What a step must find to fail an open reader for the deadline. A delivery attempt, by
  // a chunk or a read, looks only at the frame in front and only when someone waits for
  // it; a timer callback looks at the first frame that is not whole and timely.
  ghost predicate TooLate(r: Reader, e: Event, now: real) {
    match e
    case Chunk(bytes) =>
      var cells := r.cells + CellsOf(bytes, now, r.pushed);
      bytes != [] && r.waiting && FrontOf(cells) == Unusable(Deadline006)
    case Read =>
      !r.waiting && r.cells != [] && FrontOf(r.cells) == Unusable(Deadline006)
    case Timeout =>
      exists p: nat ::
        && StopsAt(r.cells, p)
        && if FrontOf(r.cells[p..]).Unusable? then FrontOf(r.cells[p..]) == Unusable(Deadline006)
           else now >= r.cells[p].at + IO_DEADLINE
    case Break(_) => false
  }

  // The deadline is enforced exactly then: a step of an open reader, other than a socket
  // failure, fails it with KELD-IPC-006 if and only if it finds a frame too late.
  lemma DeadlineIsExact(w: World, s: Stamped)
    requires Sound(w) && w.reader.closed.None? && !s.event.Break?
    ensures StepWorld(w, s).reader.closed == Some(Deadline006) <==> TooLate(w.reader, s.event, s.at)
  {
    hide FrontOf, Carries, WholeRun, Walk, StopsAt;
    var r, now := w.reader, s.at;
    match s.event {
      case Chunk(bytes) =>
        if bytes != [] {
          var r0 := r.(cells := r.cells + CellsOf(bytes, now, r.pushed), pushed := r.pushed + 1);
          EnsureDeadlineKeeps(r0, now);
          assert |r0.cells| >= |bytes|;
          ResolveDeadlineExactly(EnsureDeadline(r0, now), now);
        }
      case Read =>
        if !r.waiting && r.cells != [] {
          EnsureDeadlineKeeps(r.(waiting := true), now);
          ResolveDeadlineExactly(EnsureDeadline(r.(waiting := true), now), now);
        }
      case Timeout =>
        WalkFindsTheStop(r.cells, r.census);
    }
  }

  lemma ResolveDeadlineExactly(r: Reader, now: real)
    requires r.closed.None? && r.cells != []
    ensures TryResolve(r, now).0.closed == Some(Deadline006) <==> r.waiting && FrontOf(r.cells) == Unusable(Deadline006)
    ensures TryResolve(r, now).0.closed != Some(TooLarge004) || FrontOf(r.cells) == Unusable(TooLarge004)
  {
    hide FrontOf;
    if r.waiting && FrontOf(r.cells).Whole? {
      DeliverStopsWaiting(r, Size(FrontOf(r.cells).frame), now);
    }
  }

  // A PING whose halves arrive 5000 ms apart, and a read that asks for it only then.
  function LatePing(): (ping: Frame)
    ensures ValidFrame(ping)
  {
    Frame(Header(PING, 0, 0, 0, 0), [])
  }

  function LateScript(): seq<Stamped> {
    var bytes := Wire(LatePing());
    [Stamped(Chunk(bytes[..8]), 0.0), Stamped(Chunk(bytes[8..]), IO_DEADLINE), Stamped(Read, IO_DEADLINE)]
  }

  // The frame is completely buffered, alone and well-formed, and no timer callback ran;
  // the read still fails the reader, and the frame is never delivered.
  lemma BufferedFrameIsRefused()
    ensures var w := Run(LateScript());
      && Parse(Values(w.history)) == [LatePing()]
      && w.delivered == [] && w.reader.closed == Some(Deadline006)
    ensures Run(LateScript()[..2]).reader.closed.None?
    ensures Values(Run(LateScript()[..2]).reader.cells) == Wire(LatePing())
  {
    hide HeaderBytes, HeadOf, Run, Step, Wire, Parse, FrontOf, WireAll;
    var script, bytes := LateScript(), Wire(LatePing());
    var first, second := CellsOf(bytes[..8], 0.0, 0), CellsOf(bytes[8..], IO_DEADLINE, 1);
    var cells: seq<Cell> := first + second;
    RunStep(script, 0);
    RunStep(script, 1);
    RunStep(script, 2);
    RunStarts();
    assert script[..0] == [] && script[..3] == script;
    HalfArrives(bytes[..8]);
    OtherHalfArrives(first, bytes[8..]);
    LateFrameIsRefused(first, second);
    assert [] + first == first && cells + [] == cells;
    assert Values(cells) == bytes;
    ParseWireAll([LatePing()], []);
    WireAllFront(LatePing(), []);
    NothingParses();
    assert [LatePing()] + [] == [LatePing()] && bytes + [] == bytes;
  }

  // A reader holding the given cells, its deadline armed at 0 for a frame begun then.
  function Holding(cells: seq<Cell>, pushed: nat): Reader {
    Reader(cells, 0, false, None, Some(Arm(0.0, 0.0)), pushed)
  }

  lemma HalfArrives(half: seq<byte>)
    requires |half| == 8
    ensures Step(FRESH, Chunk(half), 0.0) == (Holding(CellsOf(half, 0.0, 0), 1), Quiet)
  {
    assert [] + CellsOf(half, 0.0, 0) == CellsOf(half, 0.0, 0);
    assert CellsOf(half, 0.0, 0)[0].at == 0.0;
  }

  lemma OtherHalfArrives(first: seq<Cell>, half: seq<byte>)
    requires |first| == |half| == 8 && first[0].chunk == 0
    ensures Step(Holding(first, 1), Chunk(half), IO_DEADLINE)
         == (Holding(first + CellsOf(half, IO_DEADLINE, 1), 2), Quiet)
  {
  }

  lemma LateFrameIsRefused(first: seq<Cell>, second: seq<Cell>)
    requires |first| == |second| == 8 && first[0].at == 0.0 && second[7].at == IO_DEADLINE
    ensures var (r, o) := Step(Holding(first + second, 2), Read, IO_DEADLINE);
      r.closed == Some(Deadline006) && !o.Resolved?
  {
    hide HeadOf;
    var cells: seq<Cell> := first + second;
    assert cells[0].at == 0.0 && cells[HEADER_LEN - 1].at == IO_DEADLINE;
    assert FrontOf(cells) == Unusable(Deadline006);
  }

  // ---- memory bounds ----

  // Chunks are queued in order of their serial numbers.
  predicate Serial(r: Reader) {
    && (forall i, j :: 0 <= i < j < |r.cells| ==> r.cells[i].chunk <= r.cells[j].chunk)
    && (forall i :: 0 <= i < |r.cells| ==> r.cells[i].chunk < r.pushed)
  }

  predicate Bounded(r: Reader) {
    |r.cells| <= MAX_BUFFERED && Pending(r) <= MAX_PENDING_CHUNKS
  }

  // After every event an open reader holds at most one maximum frame envelope, in at
  // most MAX_PENDING_CHUNKS fragments.
  lemma {:induction false} RunIsBounded(script: seq<Stamped>)
    ensures Serial(Run(script).reader) && Bounded(Run(script).reader)
    ensures Run(script).reader.pushed <= |script|
    decreases |script|
  {
    hide StepWorld, Serial, Bounded;
    if script == [] {
      FreshIsBounded();
    } else {
      RunIsBounded(script[..|script| - 1]);
      StepIsBounded(Run(script[..|script| - 1]), script[|script| - 1]);
    }
  }

  lemma FreshIsBounded()
    ensures Serial(Run([]).reader) && Bounded(Run([]).reader) && Run([]).reader.pushed == 0
  {
  }

  lemma ResolveShrinks(r: Reader, now: real)
    requires Serial(r)
    ensures var r1 := TryResolve(r, now).0;
      && Serial(r1) && |r1.cells| <= |r.cells| && r1.pushed == r.pushed
      && (Pending(r1) <= Pending(r) || r1.cells == [])
      && (r.closed.None? && r1.closed.Some? ==> r1.cells == [])
  {
    hide FrontOf;
    if r.waiting && r.cells != [] && FrontOf(r.cells).Whole? {
      var n := Size(FrontOf(r.cells).frame);
      DeliverStopsWaiting(r, n, now);
      if n < |r.cells| {
        assert r.cells[n..][0] == r.cells[n];
      }
    }
  }

  lemma PushIsBounded(r: Reader, chunk: seq<byte>, now: real)
    requires Serial(r) && Bounded(r)
    ensures var r1 := Push(r, chunk, now).0; Serial(r1) && Bounded(r1) && r1.pushed <= r.pushed + 1
  {
    hide FrontOf, TryResolve, EnsureDeadline;
    if r.closed.None? && chunk != [] {
      var r0 := r.(cells := r.cells + CellsOf(chunk, now, r.pushed), pushed := r.pushed + 1);
      AppendIsSerial(r, chunk, now);
      EnsureDeadlineKeeps(r0, now);
      ResolveShrinks(EnsureDeadline(r0, now), now);
    }
  }

  lemma AppendIsSerial(r: Reader, chunk: seq<byte>, now: real)
    requires Serial(r)
    ensures Serial(r.(cells := r.cells + CellsOf(chunk, now, r.pushed), pushed := r.pushed + 1))
  {
  }

  lemma StepIsBounded(w: World, s: Stamped)
    requires Serial(w.reader) && Bounded(w.reader)
    ensures Serial(StepWorld(w, s).reader) && Bounded(StepWorld(w, s).reader)
    ensures StepWorld(w, s).reader.pushed <= w.reader.pushed + 1
  {
    hide FrontOf, TryResolve, Walk, ReaderModel.Push;
    var r, now := w.reader, s.at;
    match s.event {
      case Chunk(bytes) => PushIsBounded(r, bytes, now);
      case Read =>
        if r.closed.None? && !r.waiting {
          ResolveShrinks(EnsureDeadline(r.(waiting := true), now), now);
        }
      case Timeout =>
      case Break(_) =>
    }
  }
}
