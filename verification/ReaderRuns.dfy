// Theorems about every run of the frame reader: any script of chunks, reads, timer
// callbacks and socket failures, at any clock readings.
module ReaderRuns {
  import opened Basics
  import opened Frame
  import opened ReaderModel

  datatype Stamped = Stamped(event: Event, at: real)

  // A reader, the cells it ever accepted and the frames it ever delivered.
  datatype World = World(reader: Reader, history: seq<Cell>, delivered: seq<Frame>)

  function Accepted(r: Reader, e: Event, now: real): seq<Cell> {
    if e.Chunk? && r.closed.None? then CellsOf(e.bytes, now, r.pushed) else []
  }

  function Delivered(o: Outcome): seq<Frame> {
    if o.Resolved? then [o.frame] else []
  }

  function StepWorld(w: World, s: Stamped): World {
    var (r, o) := Step(w.reader, s.event, s.at);
    World(r, w.history + Accepted(w.reader, s.event, s.at), w.delivered + Delivered(o))
  }

  function Run(script: seq<Stamped>): World {
    if script == [] then World(FRESH, [], [])
    else StepWorld(Run(script[..|script| - 1]), script[|script| - 1])
  }

  lemma RunStarts()
    ensures Run([]) == World(FRESH, [], [])
  {
  }

  lemma RunStep(script: seq<Stamped>, i: nat)
    requires i < |script|
    ensures Run(script[..i + 1]) == StepWorld(Run(script[..i]), script[i])
  {
    assert script[..i + 1][..i] == script[..i];
  }

  // The cells spell out the frames, and each frame's last byte arrived less than the
  // deadline after its first.
  ghost predicate Carries(past: seq<Cell>, fs: seq<Frame>)
    decreases |fs|
  {
    if fs == [] then past == []
    else
      var f := fs[|fs| - 1];
      && ValidFrame(f)
      && Size(f) <= |past|
      && var start := |past| - Size(f);
      && Values(past[start..]) == Wire(f)
      && !Late(past[start].at, past[|past| - 1].at)
      && Carries(past[..start], fs[..|fs| - 1])
  }

  // A whole number of frames, each arrived in time.
  ghost predicate WholeRun(cells: seq<Cell>)
    decreases |cells|
  {
    cells == [] || (FrontOf(cells).Whole? && WholeRun(cells[Size(FrontOf(cells).frame)..]))
  }

  // The timer is armed exactly while some byte is uncensused, for the deadline of the
  // frame starting at the first such byte.
  predicate TimerOk(r: Reader) {
    && r.census <= |r.cells|
    && match r.timer
       case None => r.census == |r.cells|
       case Some(t) => r.census < |r.cells| && t == Arm(r.cells[r.census].at, t.armedAt)
  }

  // No complete frame is waiting to be delivered.
  predicate Drained(cells: seq<Cell>) {
    cells == [] || FrontOf(cells).Unfinished?
  }

  ghost predicate Tracks(r: Reader, history: seq<Cell>, fs: seq<Frame>) {
    && AllValid(fs)
    && |WireAll(fs)| <= |history|
    && Carries(history[..|WireAll(fs)|], fs)
    && (r.closed.None? ==>
      && history[|WireAll(fs)|..] == r.cells
      && TimerOk(r)
      && WholeRun(r.cells[..r.census]))
    && (r.closed.Some? ==> r == FRESH.(closed := r.closed, pushed := r.pushed))
  }

  ghost predicate Sound(w: World) {
    Tracks(w.reader, w.history, w.delivered) && (w.reader.waiting ==> Drained(w.reader.cells))
  }

  // ---- one step at a time ----

  // Whatever the front of the queue is decided to be, later bytes do not change it.
  lemma FrontIsStable(cells: seq<Cell>, more: seq<Cell>)
    requires cells != [] && !FrontOf(cells).Unfinished?
    ensures FrontOf(cells + more) == FrontOf(cells)
  {
    hide HeadOf;
    assert Values(cells + more) == Values(cells) + Values(more);
    if |cells| >= HEADER_LEN && !Late(cells[0].at, cells[HEADER_LEN - 1].at) {
      HeadIsStable(Values(cells), Values(more));
      if HeadOf(Values(cells)).Got? {
        HeadIsWire(Values(cells));
      }
    }
  }

  // A whole frame at the front is decided by its own cells alone.
  lemma FrontIsLocal(cells: seq<Cell>)
    requires cells != [] && FrontOf(cells).Whole?
    ensures var f := FrontOf(cells).frame;
      && Values(cells[..Size(f)]) == Wire(f)
      && !Late(cells[0].at, cells[Size(f) - 1].at)
      && FrontOf(cells[..Size(f)]) == Whole(f)
  {
    hide HeadOf, HeaderBytes;
    var f := FrontOf(cells).frame;
    HeadIsWire(Values(cells));
    assert Values(cells[..Size(f)]) == Values(cells)[..Size(f)] == Wire(f);
    WireHasHead(f, []);
    assert Wire(f) + [] == Wire(f);
  }

  lemma {:induction false} WholeRunGrows(a: seq<Cell>, b: seq<Cell>)
    requires WholeRun(a) && b != [] && FrontOf(b).Whole?
    ensures WholeRun(a + b[..Size(FrontOf(b).frame)])
    decreases |a|
  {
    hide FrontOf;
    var one := b[..Size(FrontOf(b).frame)];
    FrontIsLocal(b);
    if a == [] {
      assert a + one == one && one[|one|..] == [];
    } else {
      var n := Size(FrontOf(a).frame);
      FrontIsStable(a, one);
      WholeRunGrows(a[n..], b);
      assert (a + one)[n..] == a[n..] + one;
    }
  }

  lemma CarriesOneMore(past: seq<Cell>, fs: seq<Frame>, cells: seq<Cell>)
    requires Carries(past, fs) && cells != [] && FrontOf(cells).Whole?
    ensures var f := FrontOf(cells).frame; Carries(past + cells[..Size(f)], fs + [f])
  {
    hide FrontOf, HeadOf, HeaderBytes;
    var f := FrontOf(cells).frame;
    FrontIsLocal(cells);
    var longer, more := past + cells[..Size(f)], fs + [f];
    assert more[..|more| - 1] == fs && longer[..|longer| - Size(f)] == past;
    assert longer[|longer| - Size(f)..] == cells[..Size(f)];
  }

  // The census is past the frame about to be consumed, or has not started.
  lemma CensusCoversFront(r: Reader)
    requires r.census <= |r.cells| && WholeRun(r.cells[..r.census]) && r.cells != [] && FrontOf(r.cells).Whole?
    ensures var n := Size(FrontOf(r.cells).frame);
      && (r.census == 0 || n <= r.census)
      && (n <= r.census ==> WholeRun(r.cells[n..][..r.census - n]))
  {
    hide FrontOf;
    var n, counted := Size(FrontOf(r.cells).frame), r.cells[..r.census];
    if r.census > 0 {
      FrontIsStable(counted, r.cells[r.census..]);
      assert counted + r.cells[r.census..] == r.cells;
      assert counted[n..] == r.cells[n..][..r.census - n];
    }
  }

  // Arming a missing deadline.
  lemma EnsureDeadlineArms(r: Reader, now: real)
    requires r.timer.None? || TimerOk(r)
    requires r.census <= |r.cells|
    ensures TimerOk(EnsureDeadline(r, now))
  {
  }

  lemma DeliverTracks(r: Reader, history: seq<Cell>, fs: seq<Frame>, now: real)
    requires Tracks(r, history, fs) && r.closed.None? && r.cells != [] && FrontOf(r.cells).Whole?
    ensures var f := FrontOf(r.cells).frame; Tracks(Deliver(r, Size(f), now), history, fs + [f])
  {
    hide FrontOf, HeadOf, HeaderBytes, Carries;
    var f := FrontOf(r.cells).frame;
    var n, start := Size(f), |WireAll(fs)|;
    CensusCoversFront(r);
    CarriesOneMore(history[..start], fs, r.cells);
    assert (fs + [f])[..|fs|] == fs;
    assert |WireAll(fs + [f])| == start + n;
    assert history[start..][..n] == history[start..start + n];
    assert history[..start] + r.cells[..n] == history[..start + n];
    assert history[start + n..] == r.cells[n..];
    EnsureDeadlineArms(Consume(r, n).(timer := None), now);
  }

  lemma ResolveTracks(r: Reader, history: seq<Cell>, fs: seq<Frame>, now: real)
    requires Tracks(r, history, fs) && r.closed.None?
    ensures var (r1, o) := TryResolve(r, now);
      && Tracks(r1, history, fs + Delivered(o))
      && (r1.waiting ==> Drained(r1.cells))
  {
    hide FrontOf, HeadOf, HeaderBytes, Carries, WholeRun, Deliver, TimerOk;
    if r.waiting && r.cells != [] && FrontOf(r.cells).Whole? {
      DeliverTracks(r, history, fs, now);
      DeliverStopsWaiting(r, Size(FrontOf(r.cells).frame), now);
    } else {
      assert fs + [] == fs;
    }
  }

  lemma DeliverStopsWaiting(r: Reader, n: nat, now: real)
    requires n <= |r.cells|
    ensures !Deliver(r, n, now).waiting && Deliver(r, n, now).closed == r.closed
    ensures Deliver(r, n, now).cells == r.cells[n..] && Deliver(r, n, now).pushed == r.pushed
  {
  }

  lemma FailTracks(r: Reader, history: seq<Cell>, fs: seq<Frame>, code: ErrorCode)
    requires Tracks(r, history, fs)
    ensures Tracks(Fail(r, code).0, history, fs + Delivered(Fail(r, code).1))
  {
    assert fs + [] == fs;
  }

  lemma AppendTracks(r: Reader, history: seq<Cell>, fs: seq<Frame>, chunk: seq<byte>, now: real)
    requires Tracks(r, history, fs) && r.closed.None? && chunk != []
    ensures var more := CellsOf(chunk, now, r.pushed);
      Tracks(EnsureDeadline(r.(cells := r.cells + more, pushed := r.pushed + 1), now), history + more, fs)
  {
    hide FrontOf, Carries, WholeRun;
    var more, start := CellsOf(chunk, now, r.pushed), |WireAll(fs)|;
    var r1 := r.(cells := r.cells + more, pushed := r.pushed + 1);
    assert (history + more)[..start] == history[..start];
    assert (history + more)[start..] == r1.cells;
    assert r1.cells[..r.census] == r.cells[..r.census];
    EnsureDeadlineArms(r1, now);
  }

  lemma PushSound(w: World, chunk: seq<byte>, now: real)
    requires Sound(w)
    ensures Sound(StepWorld(w, Stamped(Chunk(chunk), now)))
  {
    hide FrontOf, HeadOf, Carries, WholeRun, TryResolve, TimerOk, EnsureDeadline, Tracks, Drained, Fail;
    var r, more := w.reader, CellsOf(chunk, now, w.reader.pushed);
    if r.closed.Some? || chunk == [] {
      assert w.history + [] == w.history && w.delivered + [] == w.delivered;
      assert more == [] || r.closed.Some?;
    } else {
      AppendTracks(r, w.history, w.delivered, chunk, now);
      var r1 := EnsureDeadline(r.(cells := r.cells + more, pushed := r.pushed + 1), now);
      EnsureDeadlineKeeps(r.(cells := r.cells + more, pushed := r.pushed + 1), now);
      ResolveTracks(r1, w.history + more, w.delivered, now);
      var (r2, o) := TryResolve(r1, now);
      ResolveOutcome(r1, now);
      FailTracks(r2, w.history + more, w.delivered + Delivered(o), TooLarge004);
      FailIsQuietOnceResolved(r2, TooLarge004);
      assert w.delivered + Delivered(o) + [] == w.delivered + Delivered(o);
    }
  }

  lemma EnsureDeadlineKeeps(r: Reader, now: real)
    ensures EnsureDeadline(r, now) == r.(timer := EnsureDeadline(r, now).timer)
  {
  }

  lemma ResolveOutcome(r: Reader, now: real)
    ensures var (r1, o) := TryResolve(r, now);
      (o.Resolved? ==> !r1.waiting) && !o.Refused? && (o.Rejected? ==> r1.closed.Some?)
  {
  }

  lemma FailIsQuietOnceResolved(r: Reader, code: ErrorCode)
    ensures var (r1, o) := Fail(r, code);
      !r1.waiting && !o.Resolved? && !o.Refused? && (!r.waiting ==> o.Quiet?)
  {
  }

  lemma ReadSound(w: World, now: real)
    requires Sound(w)
    ensures Sound(StepWorld(w, Stamped(Read, now)))
  {
    hide FrontOf, HeadOf, Carries, WholeRun, TryResolve, EnsureDeadline, Drained;
    var r := w.reader;
    assert w.history + [] == w.history && w.delivered + [] == w.delivered;
    if r.closed.None? && !r.waiting {
      EnsureDeadlineArms(r.(waiting := true), now);
      EnsureDeadlineKeeps(r.(waiting := true), now);
      ResolveTracks(EnsureDeadline(r.(waiting := true), now), w.history, w.delivered, now);
    }
  }

  // The deadline walk only ever accepts whole frames.
  lemma {:induction false} WalkIsWhole(cells: seq<Cell>, census: nat)
    requires census <= |cells| && WholeRun(cells[..census])
    ensures var w := Walk(cells, census);
      && WholeRun(cells[..w.census])
      && (w.verdict.AllWhole? ==> w.census == |cells|)
      && (w.verdict.Partial? ==> w.census < |cells| && FrontOf(cells[w.census..]) == Unfinished(w.verdict.startedAt))
      && (w.verdict.Malformed? ==> w.census < |cells| && FrontOf(cells[w.census..]) == Unusable(w.verdict.code))
    decreases |cells| - census
  {
    hide FrontOf;
    if census < |cells| && FrontOf(cells[census..]).Whole? {
      var n := Size(FrontOf(cells[census..]).frame);
      WholeRunGrows(cells[..census], cells[census..]);
      assert cells[..census] + cells[census..][..n] == cells[..census + n];
      WalkIsWhole(cells, census + n);
    }
  }

  lemma UnfinishedSince(cells: seq<Cell>)
    requires cells != [] && FrontOf(cells).Unfinished?
    ensures FrontOf(cells).startedAt == cells[0].at
  {
  }

  lemma TimeoutSound(w: World, now: real)
    requires Sound(w)
    ensures Sound(StepWorld(w, Stamped(Timeout, now)))
  {
    hide FrontOf, HeadOf, Carries, WholeRun, Walk, Drained;
    var r := w.reader;
    assert w.history + [] == w.history && w.delivered + [] == w.delivered;
    if r.timer.Some? {
      WalkIsWhole(r.cells, r.census);
      var walk := Walk(r.cells, r.census);
      if walk.verdict.Partial? {
        UnfinishedSince(r.cells[walk.census..]);
      }
    }
  }

  lemma {:induction false} RunSound(script: seq<Stamped>)
    ensures Sound(Run(script))
    decreases |script|
  {
    hide Tracks;
    if script == [] {
      FreshSound();
    } else {
      var w, s := Run(script[..|script| - 1]), script[|script| - 1];
      RunSound(script[..|script| - 1]);
      match s.event {
        case Chunk(bytes) => PushSound(w, bytes, s.at);
        case Read => ReadSound(w, s.at);
        case Timeout => TimeoutSound(w, s.at);
        case Break(code) =>
          FailTracks(w.reader, w.history, w.delivered, code);
          FailIsQuietOnceResolved(w.reader, code);
          assert w.history + [] == w.history;
      }
    }
  }

  lemma FreshSound()
    ensures Sound(Run([]))
  {
  }
}
