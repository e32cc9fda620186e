// The simple reader that keeps one concatenated buffer, and the proof that the
// chunk-queue reader delivers the same frames for as long as it is open.
module ConcatReaders {
  import opened Basics
  import opened Frame
  import opened ReaderModel
  import opened ReaderRuns

  datatype Concat = Concat(buf: seq<byte>, waiting: bool, closed: Option<ErrorCode>)

  function ConcatFail(c: Concat, code: ErrorCode): (Concat, Outcome) {
    (Concat(c.buf, false, Some(code)), if c.waiting then Rejected(code) else Quiet)
  }

  function ConcatResolve(c: Concat): (Concat, Outcome) {
    if !c.waiting then (c, Quiet)
    else match HeadOf(c.buf)
      case Incomplete => (c, Quiet)
      case Broken(code) => ConcatFail(c, code)
      case Got(f) =>
        HeadIsWire(c.buf);
        (c.(buf := c.buf[Size(f)..], waiting := false), Resolved(f))
  }

  function ConcatPush(c: Concat, chunk: seq<byte>): (Concat, Outcome) {
    ConcatResolve(c.(buf := c.buf + chunk))
  }

  // A second read replaces the pending one; nothing else refuses it.
  function ConcatRead(c: Concat): (Concat, Outcome) {
    match c.closed
    case Some(code) => (c, Refused(code))
    case None => ConcatResolve(c.(waiting := true))
  }

  class ConcatReader {
    var buf: seq<byte>
    var pending: bool
    var closed: Option<ErrorCode>

    ghost function Now(): Concat
      reads this
    {
      Concat(buf, pending, closed)
    }

    constructor ()
      ensures Now() == Concat([], false, None)
    {
      buf, pending, closed := [], false, None;
    }

    method Push(chunk: seq<byte>) returns (outcome: Outcome)
      modifies this
      ensures (Now(), outcome) == ConcatPush(old(Now()), chunk)
    {
      buf := buf + chunk;
      outcome := TryResolve();
    }

    method Fail(code: ErrorCode) returns (outcome: Outcome)
      modifies this
      ensures (Now(), outcome) == ConcatFail(old(Now()), code)
    {
      closed := Some(code);
      outcome := if pending then Rejected(code) else Quiet;
      pending := false;
    }

    method TryResolve() returns (outcome: Outcome)
      modifies this
      ensures (Now(), outcome) == ConcatResolve(old(Now()))
    {
      if !pending || |buf| < HEADER_LEN {
        return Quiet;
      }
      var decoded := DecodeHeader(buf);
      if decoded.Err? {
        outcome := Fail(decoded.code);
        return;
      }
      var header := decoded.value;
      if header.len > MAX_FRAME_LEN {
        outcome := Fail(TooLarge004);
        return;
      }
      var total := HEADER_LEN + header.len;
      if |buf| < total {
        return Quiet;
      }
      var payload := buf[HEADER_LEN..total];
      buf := buf[total..];
      pending := false;
      outcome := Resolved(Frame(header, payload));
    }

    method ReadFrame() returns (outcome: Outcome)
      modifies this
      ensures (Now(), outcome) == ConcatRead(old(Now()))
    {
      if closed.Some? {
        return Refused(closed.value);
      }
      pending := true;
      outcome := TryResolve();
    }
  }

  // A read of a closed reader is refused. A pending one is rejected exactly when the reader
  // closes for what is in front of the buffer, with that error, and then waits no more.
  lemma ConcatRefusals(c: Concat)
    ensures var (c1, o) := ConcatRead(c);
      && (o.Refused? <==> c.closed.Some?) && (o.Refused? ==> c1 == c && o.code == c.closed.value)
    ensures var (c1, o) := ConcatResolve(c);
      && (o.Rejected? <==> c.waiting && HeadOf(c.buf).Broken?)
      && (o.Rejected? ==> o.code == HeadOf(c.buf).code && c1 == Concat(c.buf, false, Some(o.code)))
    ensures forall code :: var (c1, o) := ConcatFail(c, code);
              c1 == Concat(c.buf, false, Some(code)) && o == if c.waiting then Rejected(code) else Quiet
  {
    hide HeadOf;
  }

  // ---- the same script on both readers ----

  datatype ConcatWorld = ConcatWorld(reader: Concat, delivered: seq<Frame>)

  // Timer callbacks do not exist for this reader.
  function ConcatStep(c: Concat, e: Event): (Concat, Outcome) {
    match e
    case Chunk(bytes) => ConcatPush(c, bytes)
    case Read => ConcatRead(c)
    case Timeout => (c, Quiet)
    case Break(code) => ConcatFail(c, code)
  }

  function ConcatStepWorld(w: ConcatWorld, e: Event): ConcatWorld {
    var (c, o) := ConcatStep(w.reader, e);
    ConcatWorld(c, w.delivered + Delivered(o))
  }

  function ConcatRun(script: seq<Stamped>): ConcatWorld {
    if script == [] then ConcatWorld(Concat([], false, None), [])
    else ConcatStepWorld(ConcatRun(script[..|script| - 1]), script[|script| - 1].event)
  }

  ghost predicate Refines(w: World, c: ConcatWorld) {
    && w.delivered <= c.delivered
    && (w.reader.closed.None? ==>
      && w.delivered == c.delivered
      && c.reader == Concat(Values(w.reader.cells), w.reader.waiting, None))
  }

  lemma ResolveRefines(r: Reader, now: real)
    requires r.closed.None?
    ensures var ((r1, o1), (c1, o2)) := (TryResolve(r, now), ConcatResolve(Concat(Values(r.cells), r.waiting, None)));
      && (r1.closed.None? ==> o1 == o2 && c1 == Concat(Values(r1.cells), r1.waiting, None))
      && (o1.Resolved? ==> o1 == o2)
  {
    hide HeadOf;
    if r.waiting && r.cells != [] && FrontOf(r.cells).Whole? {
      var n := Size(FrontOf(r.cells).frame);
      DeliverStopsWaiting(r, n, now);
      assert Values(r.cells)[n..] == Values(r.cells[n..]);
    }
    ShortIsIncomplete(r.cells);
  }

  lemma ShortIsIncomplete(cells: seq<Cell>)
    ensures |cells| < HEADER_LEN ==> HeadOf(Values(cells)) == Incomplete
  {
  }

  lemma StepRefines(w: World, c: ConcatWorld, s: Stamped)
    requires Sound(w) && Refines(w, c)
    ensures Refines(StepWorld(w, s), ConcatStepWorld(c, s.event))
  {
    hide FrontOf, HeadOf, TryResolve, ConcatResolve, Tracks, Walk, EnsureDeadline;
    var r, now := w.reader, s.at;
    if r.closed.None? {
      match s.event {
        case Chunk(bytes) =>
          var more := CellsOf(bytes, now, r.pushed);
          assert Values(r.cells + more) == Values(r.cells) + bytes;
          if bytes != [] {
            var r0 := r.(cells := r.cells + more, pushed := r.pushed + 1);
            EnsureDeadlineKeeps(r0, now);
            ResolveRefines(EnsureDeadline(r0, now), now);
            ResolveOutcome(EnsureDeadline(r0, now), now);
          } else {
            WaitingStaysQuiet(w);
            assert c.reader.buf + bytes == c.reader.buf;
          }
        case Read =>
          if r.waiting {
            WaitingStaysQuiet(w);
          } else {
            EnsureDeadlineKeeps(r.(waiting := true), now);
            ResolveRefines(EnsureDeadline(r.(waiting := true), now), now);
          }
        case Timeout =>
        case Break(_) =>
      }
    }
  }

  // Trying again with no new byte does nothing.
  lemma WaitingStaysQuiet(w: World)
    requires Sound(w) && w.reader.closed.None?
    ensures var c := Concat(Values(w.reader.cells), w.reader.waiting, None); ConcatResolve(c) == (c, Quiet)
  {
  }

  // Refinement: on every script the chunk-queue reader's deliveries are a prefix of the
  // concatenating reader's, and while it is open both have delivered the same frames,
  // hold the same bytes and agree on whether a read is pending.
  lemma {:induction false} RunRefines(script: seq<Stamped>)
    ensures Refines(Run(script), ConcatRun(script))
    decreases |script|
  {
    hide StepWorld, ConcatStepWorld, Sound;
    if script != [] {
      var earlier := script[..|script| - 1];
      RunRefines(earlier);
      RunSound(earlier);
      StepRefines(Run(earlier), ConcatRun(earlier), script[|script| - 1]);
    }
  }

  // ---- what this reader delivers ----

  // All bytes ever pushed.
  function Arrived(script: seq<Stamped>): seq<byte> {
    if script == [] then []
    else
      var last := script[|script| - 1].event;
      Arrived(script[..|script| - 1]) + if last.Chunk? then last.bytes else []
  }

  ghost predicate Splits(arrived: seq<byte>, w: ConcatWorld) {
    && AllValid(w.delivered) && arrived == WireAll(w.delivered) + w.reader.buf
    && (w.reader.waiting ==> HeadOf(w.reader.buf).Incomplete?)
  }

  lemma ResolveSplits(arrived: seq<byte>, c: Concat, delivered: seq<Frame>)
    requires AllValid(delivered) && arrived == WireAll(delivered) + c.buf
    ensures var (c1, o) := ConcatResolve(c); Splits(arrived, ConcatWorld(c1, delivered + Delivered(o)))
  {
    hide HeadOf, Wire, WireAll;
    assert delivered + [] == delivered;
    if c.waiting && HeadOf(c.buf).Got? {
      var f := HeadOf(c.buf).frame;
      HeadIsWire(c.buf);
      WireAllOneMore(delivered, f);
      assert c.buf == Wire(f) + c.buf[Size(f)..];
      assert WireAll(delivered) + c.buf == WireAll(delivered) + Wire(f) + c.buf[Size(f)..];
    }
  }

  lemma StepSplits(arrived: seq<byte>, w: ConcatWorld, e: Event)
    requires Splits(arrived, w)
    ensures Splits(arrived + if e.Chunk? then e.bytes else [], ConcatStepWorld(w, e))
  {
    hide HeadOf, ConcatResolve, WireAll;
    assert arrived + [] == arrived && w.delivered + [] == w.delivered;
    match e {
      case Chunk(bytes) =>
        assert arrived + bytes == WireAll(w.delivered) + (w.reader.buf + bytes);
        ResolveSplits(arrived + bytes, w.reader.(buf := w.reader.buf + bytes), w.delivered);
      case Read =>
        ResolveSplits(arrived, w.reader.(waiting := true), w.delivered);
      case Timeout =>
      case Break(_) =>
    }
  }

  lemma NothingSplits()
    ensures Splits([], ConcatRun([]))
  {
  }

  // Whatever the chunk boundaries, the deliveries are the first frames of the bytes
  // pushed, and all of them while a read is pending.
  lemma {:induction false} ConcatDelivers(script: seq<Stamped>)
    ensures var w := ConcatRun(script);
      && Splits(Arrived(script), w)
      && w.delivered <= Parse(Arrived(script))
      && (w.reader.waiting ==> w.delivered == Parse(Arrived(script)))
    decreases |script|
  {
    hide ConcatStepWorld, Splits, Parse;
    if script == [] {
      NothingSplits();
    } else {
      var earlier := script[..|script| - 1];
      ConcatDelivers(earlier);
      StepSplits(Arrived(earlier), ConcatRun(earlier), script[|script| - 1].event);
    }
    SplitsParses(Arrived(script), ConcatRun(script));
  }

  lemma SplitsParses(arrived: seq<byte>, w: ConcatWorld)
    requires Splits(arrived, w)
    ensures w.delivered <= Parse(arrived) && (w.reader.waiting ==> w.delivered == Parse(arrived))
  {
    hide HeadOf, WireAll;
    ParseWireAll(w.delivered, w.reader.buf);
  }

  // Drives a new ConcatReader through a script: it delivers the first frames of all bytes
  // pushed and holds the rest, and the chunk-queue reader's deliveries on the same script
  // are a prefix of its own, all of them while that reader is open.
  method Replay(script: seq<Stamped>) returns (delivered: seq<Frame>, held: seq<byte>, waiting: bool)
    ensures ConcatWorld(Concat(held, waiting, ConcatRun(script).reader.closed), delivered) == ConcatRun(script)
    ensures AllValid(delivered) && Arrived(script) == WireAll(delivered) + held
    ensures delivered <= Parse(Arrived(script)) && (waiting ==> delivered == Parse(Arrived(script)))
    ensures Run(script).delivered <= delivered
    ensures Run(script).reader.closed.None? ==> Run(script).delivered == delivered
  {
    hide Run, ConcatStep, Arrived, WireAll, Parse;
    var reader := new ConcatReader();
    delivered := [];
    for i := 0 to |script|
      invariant fresh(reader) && ConcatWorld(reader.Now(), delivered) == ConcatRun(script[..i])
    {
      assert script[..i + 1][..i] == script[..i];
      var outcome := Apply(reader, script[i].event);
      delivered := delivered + Delivered(outcome);
    }
    assert script[..|script|] == script;
    ConcatDelivers(script);
    RunRefines(script);
    held, waiting := reader.buf, reader.pending;
  }

  method Apply(reader: ConcatReader, event: Event) returns (outcome: Outcome)
    modifies reader
    ensures (reader.Now(), outcome) == ConcatStep(old(reader.Now()), event)
  {
    match event {
      case Chunk(bytes) => outcome := reader.Push(bytes);
      case Read => outcome := reader.ReadFrame();
      case Timeout => outcome := Quiet;
      case Break(code) => outcome := reader.Fail(code);
    }
  }
}
