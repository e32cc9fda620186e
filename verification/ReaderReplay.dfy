// The imperative reader driven by a script of events: the theorems about runs of the
// model are theorems about the class.
module ReaderReplay {
  import opened Basics
  import opened Frame
  import opened ReaderModel
  import opened ReaderRuns
  import opened ReaderTheorems
  import opened FrameReaders

  // Drives a new FrameReader through a script. It delivers exactly the frames of the
  // model run, keeps its memory bounds, and all its compactions together move at most
  // one slot for each chunk it was given.
  method Replay(script: seq<Stamped>)
    returns (
      reader: FrameReader, delivered: seq<Frame>, closed: Option<ErrorCode>, buffered: int, unread: nat, slots: nat,
      ghost moved: nat)
    ensures fresh(reader) && reader.Now().Valid() && reader.Now().Model() == Run(script).reader
    ensures delivered == Run(script).delivered
    ensures closed == Run(script).reader.closed
    ensures buffered == |Run(script).reader.cells| <= MAX_BUFFERED
    ensures unread == Pending(Run(script).reader) <= MAX_PENDING_CHUNKS
    ensures slots == |reader.chunks| && moved == reader.copied
    ensures slots < unread + Max(COMPACT_THRESHOLD, unread)
    ensures moved <= Run(script).reader.pushed <= |script|
  {
    hide Fields.Valid, Fields.Model, Run, Step, Bounded, Serial, Pending;
    reader := new FrameReader();
    delivered := [];
    RunStarts();
    for i := 0 to |script|
      invariant fresh(reader) && reader.Now().Valid()
      invariant reader.Now().Model() == Run(script[..i]).reader
      invariant delivered == Run(script[..i]).delivered
    {
      RunStep(script, i);
      var outcome := Apply(reader, script[i].event, script[i].at);
      delivered := delivered + Delivered(outcome);
    }
    assert script[..|script|] == script;
    RunIsBounded(script);
    ghost var end := reader.Now();
    end.Meaning();
    end.PendingCount();
    Measures(end);
    closed, buffered := reader.closed, reader.length;
    unread, slots, moved := |reader.chunks| - reader.chunkIndex, |reader.chunks|, reader.copied;
  }

  lemma Measures(f: Fields)
    requires f.Valid() && Bounded(f.Model())
    ensures |f.Model().cells| <= MAX_BUFFERED && Pending(f.Model()) <= MAX_PENDING_CHUNKS
    ensures f.chunkIndex <= |f.chunks| && f.chunkIndex < Max(COMPACT_THRESHOLD, |f.chunks| - f.chunkIndex)
    ensures f.copied <= f.pushed == f.Model().pushed
  {
  }

  method Apply(reader: FrameReader, event: Event, now: real) returns (outcome: Outcome)
    requires reader.Now().Valid()
    modifies reader
    ensures reader.Now().Valid()
    ensures (reader.Now().Model(), outcome) == Step(old(reader.Now().Model()), event, now)
  {
    hide Fields.Valid, Fields.Model, ReaderModel.Push, ReaderModel.ReadFrame, Walk, ReaderModel.Fail;
    reader.Now().Meaning();
    reader.Now().CensusMeaning();
    match event {
      case Chunk(bytes) =>
        outcome := reader.Push(bytes, now);
      case Read =>
        outcome := reader.ReadFrame(now);
      case Timeout =>
        if reader.frameDeadline.Some? {
          outcome := reader.TimerFires(now);
        } else {
          outcome := Quiet;
        }
      case Break(code) =>
        outcome := reader.Fail(code);
    }
  }
}
