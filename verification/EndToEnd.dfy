// Writer and reader together: frames submitted to a write queue, carried by a socket in
// arbitrary pieces and read back by a frame reader.
module EndToEnd {
  import opened Basics
  import opened Frame
  import R = ReaderModel
  import RR = ReaderRuns
  import RT = ReaderTheorems
  import W = WriteQueues

  // A proper prefix of one frame carries no frame.
  lemma PartialParsesToNothing(f: Frame, partial: seq<byte>)
    requires ValidFrame(f) && partial < Wire(f)
    ensures HeadOf(partial) == Incomplete && Parse(partial) == []
  {
    var missing := Wire(f)[|partial|..];
    assert partial + missing == Wire(f) == Wire(f) + [];
    WireHasHead(f, []);
    if !HeadOf(partial).Incomplete? {
      HeadIsStable(partial, missing);
      HeadIsWire(partial);
    }
  }

  // The wire of any write-queue run parses to exactly the completed frames.
  lemma WireParsesToCompleted(writes: seq<W.Stamped>)
    ensures Parse(W.Run(writes).wire) == W.Frames(W.Run(writes).completed)
    ensures AllValid(W.Frames(W.Run(writes).completed))
  {
    hide W.Run, HeadOf, HeaderBytes;
    var w := W.Run(writes);
    W.RunWritesWholeFrames(writes);
    var fs := W.Frames(w.completed);
    var partial :| w.wire == WireAll(fs) + partial
      && (partial != [] ==>
        exists next :: next in w.failed + W.InProgress(w.queue)
          && ValidFrame(next.Framed()) && partial < Wire(next.Framed()));
    ParseWireAll(fs, partial);
    if partial != [] {
      var next :| next in w.failed + W.InProgress(w.queue)
        && ValidFrame(next.Framed()) && partial < Wire(next.Framed());
      PartialParsesToNothing(next.Framed(), partial);
    } else {
      NothingParses();
    }
  }

  // End-to-end delivery. If the bytes a reader has accepted are a prefix of what a write
  // queue put on the wire, however the socket split them on either side, the delivered
  // frames are the first completed submissions, headers and payloads unchanged. Once all
  // bytes have arrived and the open reader has a read pending, they are all of them.
  lemma Delivery(writes: seq<W.Stamped>, script: seq<RR.Stamped>)
    requires R.Values(RR.Run(script).history) <= W.Run(writes).wire
    ensures var sent, got := W.Frames(W.Run(writes).completed), RR.Run(script);
      && got.delivered <= sent
      && (R.Values(got.history) == W.Run(writes).wire && got.reader.closed.None? && got.reader.waiting ==>
            got.delivered == sent)
  {
    hide W.Run, RR.Run, HeadOf, HeaderBytes;
    var got, wire := RR.Run(script), W.Run(writes).wire;
    var sent := W.Frames(W.Run(writes).completed);
    RT.RunDelivers(script);
    WireParsesToCompleted(writes);
    var rest := wire[|WireAll(got.delivered)|..];
    assert wire == WireAll(got.delivered) + rest;
    ParseWireAll(got.delivered, rest);
  }

  // ---- why a reader of such a wire can close ----

  lemma NothingAfterFrames(fs: seq<Frame>, done: seq<Frame>, tail: seq<byte>)
    requires AllValid(fs) && AllValid(done) && WireAll(fs) == WireAll(done) + tail && Parse(tail) == []
    ensures tail == []
  {
    hide HeaderBytes, WireAll;
    NothingParses();
    ParseWireAll(done, tail);
    ParseWireAll(fs, []);
    assert WireAll(fs) + [] == WireAll(fs) && fs + [] == fs && done + [] == done;
  }

  // Every prefix of a stream of valid frames starts with a valid frame or an unfinished one.
  lemma PrefixOfFramesIsNeverBroken(fs: seq<Frame>, bytes: seq<byte>, done: seq<Frame>, rest: seq<byte>)
    requires AllValid(fs) && bytes <= WireAll(fs)
    requires AllValid(done) && bytes == WireAll(done) + rest
    ensures !HeadOf(rest).Broken?
  {
    hide HeaderBytes, WireAll;
    if HeadOf(rest).Broken? {
      var missing := WireAll(fs)[|bytes|..];
      assert WireAll(fs) == WireAll(done) + (rest + missing);
      HeadIsStable(rest, missing);
      NothingAfterFrames(fs, done, rest + missing);
    }
  }

  // A valid stream never looks malformed: if every byte handed to the reader comes from a
  // stream of valid frames and the socket itself reports no failure, the reader closes
  // only for a missed deadline or a buffer bound.
  lemma {:induction false} ValidStreamNeverMalformed(fs: seq<Frame>, script: seq<RR.Stamped>)
    requires AllValid(fs) && R.Values(RR.Run(script).history) <= WireAll(fs)
    requires forall i :: 0 <= i < |script| ==> !script[i].event.Break?
    ensures RR.Run(script).reader.closed in {None, Some(Deadline006), Some(TooLarge004)}
    decreases |script|
  {
    hide RR.StepWorld, WireAll, HeadOf, HeaderBytes, RR.Tracks;
    if script != [] {
      var earlier, s := script[..|script| - 1], script[|script| - 1];
      var w := RR.Run(earlier);
      HistoryGrows(w, s);
      ValidStreamNeverMalformed(fs, earlier);
      RR.RunSound(earlier);
      StepNeverMalformed(fs, w, s);
    }
  }

  lemma HistoryGrows(w: RR.World, s: RR.Stamped)
    ensures R.Values(RR.StepWorld(w, s).history) ==
            R.Values(w.history) + R.Values(RR.Accepted(w.reader, s.event, s.at))
  {
  }

  lemma FrontNeverMalformed(fs: seq<Frame>, history: seq<R.Cell>, done: seq<Frame>, cells: seq<R.Cell>)
    requires AllValid(fs) && R.Values(history) <= WireAll(fs)
    requires AllValid(done) && R.Values(history) == WireAll(done) + R.Values(cells)
    ensures cells != [] && R.FrontOf(cells).Unusable? ==> R.FrontOf(cells).code == Deadline006
  {
    hide HeaderBytes, HeadOf;
    PrefixOfFramesIsNeverBroken(fs, R.Values(history), done, R.Values(cells));
  }

  lemma ResolveNeverMalformed(fs: seq<Frame>, r: R.Reader, now: real, history: seq<R.Cell>, done: seq<Frame>)
    requires r.closed.None? && RR.Tracks(r, history, done)
    requires AllValid(fs) && R.Values(history) <= WireAll(fs)
    ensures R.TryResolve(r, now).0.closed in {None, Some(Deadline006)}
  {
    hide R.FrontOf, HeaderBytes, RR.Carries, RR.WholeRun;
    TracksSplits(r, history, done);
    FrontNeverMalformed(fs, history, done, r.cells);
  }

  lemma TracksSplits(r: R.Reader, history: seq<R.Cell>, done: seq<Frame>)
    requires r.closed.None? && RR.Tracks(r, history, done)
    ensures R.Values(history) == WireAll(done) + R.Values(r.cells)
  {
    hide HeaderBytes, RR.WholeRun;
    var n := |WireAll(done)|;
    RT.CarriesIsWire(history[..n], done);
    assert history == history[..n] + history[n..];
  }

  lemma ClosedHasNoTimer(w: RR.World)
    requires RR.Sound(w)
    ensures w.reader.closed.Some? ==> w.reader.timer.None?
  {
  }

  lemma StepNeverMalformed(fs: seq<Frame>, w: RR.World, s: RR.Stamped)
    requires RR.Sound(w) && !s.event.Break?
    requires AllValid(fs) && R.Values(RR.StepWorld(w, s).history) <= WireAll(fs)
    requires w.reader.closed in {None, Some(Deadline006), Some(TooLarge004)}
    ensures RR.StepWorld(w, s).reader.closed in {None, Some(Deadline006), Some(TooLarge004)}
    ensures w.reader.closed.None? && Roomy(w.reader, s) ==>
              RR.StepWorld(w, s).reader.closed in {None, Some(Deadline006)}
  {
    hide R.FrontOf, R.TryResolve, R.EnsureDeadline, R.Walk, RR.Tracks, HeaderBytes, WireAll, RR.Drained;
    var r, now := w.reader, s.at;
    ClosedHasNoTimer(w);
    if r.closed.None? {
      match s.event {
        case Chunk(bytes) =>
          if bytes != [] {
            var r0 := r.(cells := r.cells + R.CellsOf(bytes, now, r.pushed), pushed := r.pushed + 1);
            RR.AppendTracks(r, w.history, w.delivered, bytes, now);
            RR.EnsureDeadlineKeeps(r0, now);
            ResolveNeverMalformed(fs, R.EnsureDeadline(r0, now), now, RR.StepWorld(w, s).history, w.delivered);
          }
        case Read =>
          if !r.waiting {
            var r0 := r.(waiting := true);
            RR.EnsureDeadlineKeeps(r0, now);
            ReadTracks(r, w.history, w.delivered, now);
            assert w.history + [] == w.history;
            ResolveNeverMalformed(fs, R.EnsureDeadline(r0, now), now, w.history, w.delivered);
          }
        case Timeout =>
          if r.timer.Some? {
            assert w.history + [] == w.history;
            WalkNeverMalformed(fs, r, w.history, w.delivered);
          }
      }
    }
  }

  lemma ReadTracks(r: R.Reader, history: seq<R.Cell>, done: seq<Frame>, now: real)
    requires r.closed.None? && RR.Tracks(r, history, done)
    ensures RR.Tracks(R.EnsureDeadline(r.(waiting := true), now), history, done)
  {
    hide RR.Carries, RR.WholeRun;
    RR.EnsureDeadlineArms(r.(waiting := true), now);
  }

  lemma WalkNeverMalformed(fs: seq<Frame>, r: R.Reader, history: seq<R.Cell>, done: seq<Frame>)
    requires r.closed.None? && RR.Tracks(r, history, done)
    requires AllValid(fs) && R.Values(history) <= WireAll(fs)
    ensures r.census <= |r.cells|
    ensures var v := R.Walk(r.cells, r.census).verdict; v.Malformed? ==> v.code == Deadline006
  {
    hide R.FrontOf, HeaderBytes, RR.Carries, RR.WholeRun, R.Walk, WireAll;
    TracksSplits(r, history, done);
    RR.WalkIsWhole(r.cells, r.census);
    var p := R.Walk(r.cells, r.census).census;
    var more := WholeRunIsWire(r.cells[..p]);
    WireAllConcat(done, more);
    var rest := r.cells[p..];
    assert R.Values(r.cells) == R.Values(r.cells[..p]) + R.Values(rest);
    assert R.Values(history) == WireAll(done + more) + R.Values(rest);
    FrontNeverMalformed(fs, history, done + more, rest);
  }

  // A whole run of cells spells out some frames.
  lemma {:induction false} WholeRunIsWire(cells: seq<R.Cell>) returns (fs: seq<Frame>)
    requires RR.WholeRun(cells)
    ensures AllValid(fs) && WireAll(fs) == R.Values(cells)
    decreases |cells|
  {
    hide R.FrontOf, HeaderBytes;
    fs := [];
    if cells != [] {
      var f := R.FrontOf(cells).frame;
      RR.FrontIsLocal(cells);
      var tail := WholeRunIsWire(cells[Size(f)..]);
      WireAllFront(f, tail);
      fs := [f] + tail;
      assert cells == cells[..Size(f)] + cells[Size(f)..];
    }
  }

  // ---- when a reader stays open ----

  // What a chunk leaves behind, after a waiting read has been served, is within bounds.
  predicate Roomy(r: R.Reader, s: RR.Stamped) {
    match s.event
    case Chunk(bytes) =>
      var r0 := r.(cells := r.cells + R.CellsOf(bytes, s.at, r.pushed), pushed := r.pushed + 1);
      var r1 := R.TryResolve(R.EnsureDeadline(r0, s.at), s.at).0;
      |r1.cells| <= R.MAX_BUFFERED && R.Pending(r1) <= R.MAX_PENDING_CHUNKS
    case _ => true
  }

  // Every frame of the stream that has begun to arrive either arrived in full in less
  // than the deadline, or is younger than that.
  ghost predicate OnTime(fs: seq<Frame>, history: seq<R.Cell>, now: real)
    requires AllValid(fs)
  {
    forall k :: 0 <= k < |fs| ==> FrameOnTime(|WireAll(fs[..k])|, Size(fs[k]), history, now)
  }

  predicate FrameOnTime(start: nat, size: nat, history: seq<R.Cell>, now: real) {
    start < |history| && size > 0 ==>
      if start + size <= |history| then history[start + size - 1].at - history[start].at < IO_DEADLINE
      else now < history[start].at + IO_DEADLINE
  }

  predicate Stamps(history: seq<R.Cell>, now: real) {
    && (forall i, j :: 0 <= i < j < |history| ==> history[i].at <= history[j].at)
    && (forall i :: 0 <= i < |history| ==> history[i].at <= now)
  }

  lemma {:induction false} HistoryIsOrdered(script: seq<RR.Stamped>, now: real)
    requires RT.Chronological(script) && (script != [] ==> script[|script| - 1].at <= now)
    ensures Stamps(RR.Run(script).history, now)
    decreases |script|
  {
    hide R.Step;
    if script != [] {
      HistoryIsOrdered(script[..|script| - 1], script[|script| - 1].at);
    }
  }

  // In a stream that is on time, whatever follows whole frames is not too late.
  lemma FrontIsOnTime(fs: seq<Frame>, history: seq<R.Cell>, done: seq<Frame>, n: nat, now: real)
    requires AllValid(fs) && R.Values(history) <= WireAll(fs) && OnTime(fs, history, now) && Stamps(history, now)
    requires AllValid(done) && n < |history| && R.Values(history[..n]) == WireAll(done)
    ensures var front := R.FrontOf(history[n..]);
      front != R.Unusable(Deadline006) && (front.Unfinished? ==> now < history[n].at + IO_DEADLINE)
  {
    hide HeaderBytes, WireAll;
    var rest, missing := history[n..], WireAll(fs)[|history|..];
    assert R.Values(history) == R.Values(history[..n]) + R.Values(rest);
    assert WireAll(fs) == WireAll(done) + (R.Values(rest) + missing);
    var ahead := RestIsFrames(fs, done, R.Values(rest) + missing);
    NothingParses();
    FirstFrame(ahead);
    var f := ahead[0];
    assert fs[|done|] == f && fs[..|done|] == done;
    assert FrameOnTime(|WireAll(fs[..|done|])|, Size(f), history, now);
    assert |WireAll(done)| == n;
    if n + Size(f) <= |history| {
      WholeFrameIsOnTime(f, rest, missing, now);
    }
  }

  lemma WholeFrameIsOnTime(f: Frame, rest: seq<R.Cell>, missing: seq<byte>, now: real)
    requires ValidFrame(f) && Size(f) <= |rest| && Wire(f) <= R.Values(rest) + missing && Stamps(rest, now)
    requires rest[Size(f) - 1].at - rest[0].at < IO_DEADLINE
    ensures R.FrontOf(rest) == R.Whole(f)
  {
    hide HeaderBytes, HeadOf;
    var more := R.Values(rest)[Size(f)..];
    assert R.Values(rest) == Wire(f) + more;
    WireHasHead(f, more);
    assert rest[HEADER_LEN - 1].at <= rest[Size(f) - 1].at;
  }

  lemma StepIsOnTime(fs: seq<Frame>, w: RR.World, s: RR.Stamped)
    requires RR.Sound(w) && w.reader.closed.None? && !s.event.Break?
    requires var h := RR.StepWorld(w, s).history;
      AllValid(fs) && R.Values(h) <= WireAll(fs) && OnTime(fs, h, s.at) && Stamps(h, s.at)
    ensures !RT.TooLate(w.reader, s.event, s.at)
  {
    hide R.FrontOf, RR.Tracks, HeaderBytes, WireAll, RR.Drained, RR.WholeRun, OnTime, R.Step;
    Delivered(w);
    var r, h := w.reader, RR.StepWorld(w, s).history;
    var n := |WireAll(w.delivered)|;
    HistoryStep(w, s);
    assert h[..n] == w.history[..n];
    var cells := h[n..];
    assert cells == r.cells + RR.Accepted(r, s.event, s.at);
    match s.event {
      case Chunk(bytes) =>
        if bytes != [] {
          FrontIsOnTime(fs, h, w.delivered, n, s.at);
        }
      case Read =>
        assert r.cells + [] == r.cells;
        if r.cells != [] {
          FrontIsOnTime(fs, h, w.delivered, n, s.at);
        }
      case Timeout =>
        assert r.cells + [] == r.cells;
        forall p: nat | RT.StopsAt(r.cells, p)
          ensures R.FrontOf(r.cells[p..]) != R.Unusable(Deadline006)
          ensures !R.FrontOf(r.cells[p..]).Unusable? ==> s.at < r.cells[p].at + IO_DEADLINE
        {
          StopIsOnTime(fs, h, w.delivered, n, r.cells, p, s.at);
        }
    }
  }

  lemma StopIsOnTime(
      fs: seq<Frame>, h: seq<R.Cell>, done: seq<Frame>, n: nat, cells: seq<R.Cell>, p: nat, now: real)
    requires AllValid(fs) && R.Values(h) <= WireAll(fs) && OnTime(fs, h, now) && Stamps(h, now)
    requires AllValid(done) && n <= |h| && h[n..] == cells && R.Values(h[..n]) == WireAll(done)
    requires RT.StopsAt(cells, p)
    ensures R.FrontOf(cells[p..]) != R.Unusable(Deadline006)
    ensures !R.FrontOf(cells[p..]).Unusable? ==> now < cells[p].at + IO_DEADLINE
  {
    hide R.FrontOf, HeaderBytes, WireAll, RR.WholeRun, OnTime;
    var more := WholeRunIsWire(cells[..p]);
    WireAllConcat(done, more);
    assert h[..n + p] == h[..n] + cells[..p];
    assert R.Values(h[..n + p]) == R.Values(h[..n]) + R.Values(cells[..p]);
    assert h[n + p..] == cells[p..];
    FrontIsOnTime(fs, h, done + more, n + p, now);
  }

  lemma Delivered(w: RR.World)
    requires RR.Sound(w) && w.reader.closed.None?
    ensures var n := |WireAll(w.delivered)|;
      AllValid(w.delivered) && n <= |w.history| && w.history[n..] == w.reader.cells
      && R.Values(w.history[..n]) == WireAll(w.delivered)
  {
    hide RR.WholeRun, RR.Drained, HeaderBytes, WireAll;
    RT.CarriesIsWire(w.history[..|WireAll(w.delivered)|], w.delivered);
  }

  lemma HistoryStep(w: RR.World, s: RR.Stamped)
    ensures RR.StepWorld(w, s).history == w.history + RR.Accepted(w.reader, s.event, s.at)
  {
  }

  // A healthy peer is never cut off: on a stream of valid frames, each arriving in less
  // than the deadline, and as long as the buffer bounds are kept and the socket does not
  // fail, the reader stays open.
  lemma {:induction false} TimelyStreamStaysOpen(fs: seq<Frame>, script: seq<RR.Stamped>)
    requires AllValid(fs) && R.Values(RR.Run(script).history) <= WireAll(fs)
    requires RT.Chronological(script)
    requires forall i :: 0 <= i < |script| ==>
               && !script[i].event.Break?
               && Roomy(RR.Run(script[..i]).reader, script[i])
               && OnTime(fs, RR.Run(script[..i + 1]).history, script[i].at)
    ensures RR.Run(script).reader.closed.None?
    decreases |script|
  {
    hide RR.StepWorld, WireAll, HeaderBytes, RR.Sound, Roomy, OnTime;
    if script != [] {
      var n := |script| - 1;
      var earlier, s := script[..n], script[n];
      var w := RR.Run(earlier);
      assert script[..n + 1] == script;
      HistoryGrows(w, s);
      EarlierOnTime(fs, script);
      TimelyStreamStaysOpen(fs, earlier);
      RR.RunSound(earlier);
      StepNeverMalformed(fs, w, s);
      HistoryIsOrdered(script, s.at);
      StepIsOnTime(fs, w, s);
      RT.DeadlineIsExact(w, s);
    }
  }

  lemma EarlierOnTime(fs: seq<Frame>, script: seq<RR.Stamped>)
    requires AllValid(fs) && script != []
    requires forall i :: 0 <= i < |script| ==>
               && !script[i].event.Break?
               && Roomy(RR.Run(script[..i]).reader, script[i])
               && OnTime(fs, RR.Run(script[..i + 1]).history, script[i].at)
    ensures var earlier := script[..|script| - 1];
      forall i :: 0 <= i < |earlier| ==>
        && !earlier[i].event.Break?
        && Roomy(RR.Run(earlier[..i]).reader, earlier[i])
        && OnTime(fs, RR.Run(earlier[..i + 1]).history, earlier[i].at)
  {
    hide RR.Run, Roomy, OnTime;
    var earlier := script[..|script| - 1];
    forall i | 0 <= i < |earlier|
      ensures Roomy(RR.Run(earlier[..i]).reader, earlier[i])
              && OnTime(fs, RR.Run(earlier[..i + 1]).history, earlier[i].at)
    {
      assert earlier[..i] == script[..i] && earlier[..i + 1] == script[..i + 1];
    }
  }
}
