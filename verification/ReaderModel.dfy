// The meaning of the chunk-queue frame reader: one flat queue of bytes, each
// remembering when and in which socket chunk it arrived. The class FrameReader
// refines these functions; the theorems about whole runs are stated on them.
module ReaderModel {
  import opened Basics
  import opened Frame

  const MAX_PENDING_CHUNKS := 65536
  const MAX_BUFFERED := HEADER_LEN + MAX_FRAME_LEN

  // One buffered byte: its value, the arrival time of its chunk, and the chunk's
  // serial number.
  datatype Cell = Cell(value: byte, at: real, chunk: int)

  // setTimeout(callback, delay) called at armedAt.
  datatype Timer = Timer(armedAt: real, delay: real) {
    function Due(): real {
      armedAt + delay
    }
  }

  datatype Reader = Reader(
    cells: seq<Cell>,            // unread bytes, oldest first
    census: nat,                 // length of the prefix the deadline walk has accepted
    waiting: bool,               // a readFrame() promise is pending
    closed: Option<ErrorCode>,
    timer: Option<Timer>,
    pushed: nat)                 // chunks accepted so far

  const FRESH := Reader([], 0, false, None, None, 0)

  // What one event does to the promises: nothing, settle the pending read, or refuse
  // a new read.
  datatype Outcome =
    | Quiet
    | Resolved(frame: Frame)
    | Rejected(code: ErrorCode)
    | Refused(code: ErrorCode)

  function Values(cells: seq<Cell>): (bytes: seq<byte>)
    ensures |bytes| == |cells|
  {
    seq(|cells|, i requires 0 <= i < |cells| => cells[i].value)
  }

  function CellsOf(chunk: seq<byte>, at: real, serial: int): (cells: seq<Cell>)
    ensures |cells| == |chunk|
  {
    seq(|chunk|, i requires 0 <= i < |chunk| => Cell(chunk[i], at, serial))
  }

  function MaxReal(a: real, b: real): real {
    if a < b then b else a
  }

  function Fail(r: Reader, code: ErrorCode): (Reader, Outcome) {
    (Reader([], 0, false, Some(code), None, r.pushed),
     if r.waiting then Rejected(code) else Quiet)
  }

  // Arms the deadline for a frame whose first byte arrived at startedAt.
  function Arm(startedAt: real, now: real): Timer {
    Timer(now, MaxReal(0.0, startedAt + IO_DEADLINE - now))
  }

  function EnsureDeadline(r: Reader, now: real): Reader {
    if r.census >= |r.cells| || r.timer.Some? then r
    else r.(timer := Some(Arm(r.cells[r.census].at, now)))
  }

  // Removes the first n unread bytes. A census cursor inside them moves to their end.
  function Consume(r: Reader, n: nat): Reader
    requires n <= |r.cells|
  {
    r.(cells := r.cells[n..], census := if n <= r.census then r.census - n else 0)
  }

  predicate Late(startedAt: real, endedAt: real) {
    endedAt - startedAt >= IO_DEADLINE
  }

  // What unread cells start with: a whole frame that arrived in time, a frame still
  // arriving, or something no later byte can repair.
  datatype Front = Whole(frame: Frame) | Unfinished(startedAt: real) | Unusable(code: ErrorCode)

  function FrontOf(cells: seq<Cell>): (front: Front)
    requires cells != []
    ensures front.Whole? ==> ValidFrame(front.frame) && Size(front.frame) <= |cells|
  {
    if |cells| < HEADER_LEN then Unfinished(cells[0].at)
    else if Late(cells[0].at, cells[HEADER_LEN - 1].at) then Unusable(Deadline006)
    else match HeadOf(Values(cells))
      case Broken(code) => Unusable(code)
      case Incomplete => Unfinished(cells[0].at)
      case Got(f) =>
        HeadIsWire(Values(cells));
        if Late(cells[0].at, cells[Size(f) - 1].at) then Unusable(Deadline006) else Whole(f)
  }

  function TryResolve(r: Reader, now: real): (Reader, Outcome) {
    if !r.waiting || r.cells == [] then (r, Quiet)
    else match FrontOf(r.cells)
      case Unfinished(_) => (r, Quiet)
      case Unusable(code) => Fail(r, code)
      case Whole(f) => (Deliver(r, Size(f), now), Resolved(f))
  }

  // Removes a delivered frame of n bytes and starts the next frame's deadline.
  function Deliver(r: Reader, n: nat, now: real): Reader
    requires n <= |r.cells|
  {
    EnsureDeadline(Consume(r, n).(timer := None), now).(waiting := false)
  }

  function Pending(r: Reader): int {
    if r.cells == [] then 0 else r.pushed - r.cells[0].chunk
  }

  function Then(first: Outcome, second: Outcome): Outcome {
    if first.Quiet? then second else first
  }

  function Push(r: Reader, chunk: seq<byte>, now: real): (Reader, Outcome) {
    if r.closed.Some? || chunk == [] then (r, Quiet)
    else
      var r0 := r.(cells := r.cells + CellsOf(chunk, now, r.pushed), pushed := r.pushed + 1);
      var (r1, o1) := TryResolve(EnsureDeadline(r0, now), now);
      if r1.closed.None? && (|r1.cells| > MAX_BUFFERED || Pending(r1) > MAX_PENDING_CHUNKS) then
        var (r2, o2) := Fail(r1, TooLarge004);
        (r2, Then(o1, o2))
      else (r1, o1)
  }

  function ReadFrame(r: Reader, now: real): (Reader, Outcome) {
    match r.closed
    case Some(code) => (r, Refused(code))
    case None =>
      if r.waiting then (r, Refused(Protocol005))
      else TryResolve(EnsureDeadline(r.(waiting := true), now), now)
  }

  // The deadline walk: how far whole, timely frames reach, and what stops it.
  datatype Verdict = AllWhole | Partial(startedAt: real) | Malformed(code: ErrorCode)

  datatype Walked = Walked(census: nat, verdict: Verdict)

  function Walk(cells: seq<Cell>, census: nat): (w: Walked)
    requires census <= |cells|
    ensures census <= w.census <= |cells|
    decreases |cells| - census
  {
    if census == |cells| then Walked(census, AllWhole)
    else match FrontOf(cells[census..])
      case Unfinished(startedAt) => Walked(census, Partial(startedAt))
      case Unusable(code) => Walked(census, Malformed(code))
      case Whole(f) => Walk(cells, census + Size(f))
  }

  // The timer callback. Timers may run late, or early, so it looks at the clock again.
  function TimerFires(r: Reader, now: real): (Reader, Outcome) {
    if r.timer.None? || r.census > |r.cells| then (r, Quiet)
    else
      var w := Walk(r.cells, r.census);
      var r1 := r.(census := w.census, timer := None);
      match w.verdict
      case AllWhole => (r1, Quiet)
      case Malformed(code) => Fail(r1, code)
      case Partial(startedAt) =>
        if now < startedAt + IO_DEADLINE then (r1.(timer := Some(Arm(startedAt, now))), Quiet)
        else Fail(r1, Deadline006)
  }

  // Everything that can happen to a reader. A socket error or close is Break.
  datatype Event =
    | Chunk(bytes: seq<byte>)
    | Read
    | Timeout
    | Break(code: ErrorCode)

  function Step(r: Reader, e: Event, now: real): (Reader, Outcome) {
    match e
    case Chunk(bytes) => Push(r, bytes, now)
    case Read => ReadFrame(r, now)
    case Timeout => TimerFires(r, now)
    case Break(code) => Fail(r, code)
  }
}
