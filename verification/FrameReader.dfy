// The chunk-queue frame reader: chunks are queued as they arrive and read through a
// cursor, an independent census cursor remembers how far whole frames are known to
// reach, and consumed slots are dropped in bulk. Every method is proved against
// ReaderModel. Where the source throws an underrun error there is an assert false: no
// reachable state gets there.
module FrameReaders {
  import opened Basics
  import opened Frame
  import opened ReaderModel
  import opened ChunkQueue

  const COMPACT_THRESHOLD := 1024

  // A snapshot of a reader's fields, and what they stand for.
  datatype Fields = Fields(
    chunks: seq<Option<seq<byte>>>,
    chunkArrivals: seq<Option<real>>,
    chunkIndex: nat,
    head: nat,
    length: int,
    censusChunkIndex: int,
    censusOffset: nat,
    censusBytes: int,
    pending: bool,
    closed: Option<ErrorCode>,
    frameDeadline: Option<Timer>,
    pushed: nat,   // chunks ever accepted
    copied: nat)   // slots ever moved by compaction
  {
    ghost function Slots(): Queue {
      Queue(chunks, chunkArrivals, pushed - |chunks|)
    }

    // The queue stands for length unread bytes, and consumed slots are empty.
    ghost predicate Queued() {
      && Slots().Canonical(chunkIndex, head)
      && (forall i :: 0 <= i < chunkIndex ==> chunks[i] == None && chunkArrivals[i] == None)
      && length == |Slots().From(chunkIndex, head)|
      && copied + |chunks| <= pushed
    }

    ghost function Unread(): seq<Cell>
      requires Queued()
    {
      Slots().From(chunkIndex, head)
    }

    // The census cursor is the read cursor advanced by censusBytes.
    ghost predicate CensusPlaced()
      requires Queued()
    {
      && 0 <= censusBytes <= length
      && chunkIndex <= censusChunkIndex
      && Slots().Canonical(censusChunkIndex, censusOffset)
      && Slots().From(censusChunkIndex, censusOffset) == Unread()[censusBytes..]
    }

    ghost predicate Compact() {
      chunkIndex < Max(COMPACT_THRESHOLD, |chunks| - chunkIndex)
    }

    ghost predicate Valid() {
      && Queued()
      && CensusPlaced()
      && Compact()
      && (closed.Some? ==> chunks == [] && !pending && frameDeadline == None)
    }

    ghost function Model(): Reader
      requires Valid()
    {
      Reader(Unread(), censusBytes, pending, closed, frameDeadline, pushed)
    }

    lemma Meaning()
      requires Valid()
      ensures Queued() && Model().cells == Unread() && |Unread()| == length
      ensures 0 <= censusBytes <= length
      ensures Model() == Reader(Unread(), censusBytes, pending, closed, frameDeadline, pushed)
    {
    }

    lemma CensusMeaning()
      requires Valid()
      ensures censusChunkIndex >= 0 && 0 <= censusBytes <= |Model().cells|
      ensures Slots().Canonical(censusChunkIndex, censusOffset)
      ensures Slots().From(censusChunkIndex, censusOffset) == Model().cells[censusBytes..]
    {
    }

    lemma TimerMeansOpen()
      requires Valid()
      ensures frameDeadline.Some? || pending ==> closed.None?
    {
    }

    // The deadline timer and the pending read are independent of the queue.
    lemma Independent(f: Fields)
      requires Valid() && closed.None? && f.closed.None?
      requires f == this.(frameDeadline := f.frameDeadline, pending := f.pending)
      ensures f.Valid() && f.Model() == Model().(timer := f.frameDeadline, waiting := f.pending)
    {
    }

    // Socket chunks not yet fully read.
    lemma PendingCount()
      requires Valid()
      ensures |chunks| - chunkIndex == Pending(Model())
    {
    }

    lemma Pushed(f: Fields, chunk: seq<byte>, at: real)
      requires Valid() && closed.None? && chunk != []
      requires f == this.(chunks := chunks + [Some(chunk)], chunkArrivals := chunkArrivals + [Some(at)],
                          length := length + |chunk|, pushed := pushed + 1)
      ensures f.Valid()
      ensures f.Model() == Model().(cells := Model().cells + CellsOf(chunk, at, pushed), pushed := pushed + 1)
    {
      hide Queue.Flat;
      var q, cells := Slots(), CellsOf(chunk, at, pushed);
      q.OffsetWithin(chunkIndex, head);
      q.OffsetWithin(censusChunkIndex, censusOffset);
      q.Pushed(chunk, at, chunkIndex);
      q.Pushed(chunk, at, censusChunkIndex);
      assert f.Slots() == Queue(chunks + [Some(chunk)], chunkArrivals + [Some(at)], q.base);
      q.FlatEnd();
      assert f.Unread() == Unread() + cells;
      assert f.Slots().From(censusChunkIndex, censusOffset) == Unread()[censusBytes..] + cells;
    }

    // Moving the census cursor forward over cells it still precedes.
    lemma CensusMoved(f: Fields)
      requires Valid() && 0 <= f.censusBytes <= length
      requires f == this.(censusChunkIndex := f.censusChunkIndex, censusOffset := f.censusOffset,
                          censusBytes := f.censusBytes, frameDeadline := f.frameDeadline)
      requires closed.None? || f.frameDeadline.None?
      requires f.censusChunkIndex >= 0 && Slots().Canonical(f.censusChunkIndex, f.censusOffset)
      requires Slots().From(f.censusChunkIndex, f.censusOffset) == Unread()[f.censusBytes..]
      ensures f.Valid() && f.Model() == Model().(census := f.censusBytes, timer := f.frameDeadline)
    {
      hide Queue.Flat;
      Slots().CursorOrder(f.censusChunkIndex, f.censusOffset, chunkIndex, head);
    }

    // Midway through consuming: done bytes of unread are gone, and the census cursor,
    // when it is kept, denotes position mark.
    ghost predicate Consuming(unread: seq<Cell>, done: int, keep: bool, mark: int) {
      && 0 <= done <= |unread|
      && Slots().Canonical(chunkIndex, head)
      && (forall i :: 0 <= i < chunkIndex ==> chunks[i] == None && chunkArrivals[i] == None)
      && Slots().From(chunkIndex, head) == unread[done..]
      && copied + |chunks| <= pushed
      && (keep ==>
        && done <= mark <= |unread|
        && chunkIndex <= censusChunkIndex
        && Slots().Canonical(censusChunkIndex, censusOffset)
        && Slots().From(censusChunkIndex, censusOffset) == unread[mark..])
    }

    lemma ConsumeBegins(f: Fields, n: nat)
      requires Valid() && n <= length
      requires f == this.(length := length - n, censusBytes := Max(0, censusBytes - n))
      ensures f.Consuming(Unread(), 0, n <= censusBytes, censusBytes)
    {
    }

    lemma NotDrained(unread: seq<Cell>, done: int, keep: bool, mark: int)
      requires Consuming(unread, done, keep, mark) && done < |unread|
      ensures |chunks| == |chunkArrivals| && chunkIndex < |chunks|
      ensures chunks[chunkIndex].Some? && head < |chunks[chunkIndex].value|
    {
      Slots().FlatEnd();
    }

    lemma ConsumedWithin(f: Fields, unread: seq<Cell>, done: int, n: nat, keep: bool, mark: int)
      requires Consuming(unread, done, keep, mark) && chunkIndex < |chunks|
      requires n < |chunks[chunkIndex].value| - head && (keep ==> done + n <= mark)
      requires f == this.(head := head + n)
      ensures f.Consuming(unread, done + n, keep, mark) && Same(f)
    {
      hide Queue.Flat;
      Slots().Advance(chunkIndex, head, n);
    }

    // Nothing but the queue itself and its census cursor differ.
    ghost predicate Same(f: Fields) {
      && f.length == length && f.censusBytes == censusBytes
      && f.pending == pending && f.closed == closed && f.frameDeadline == frameDeadline && f.pushed == pushed
    }

    // The fields after the slot under the read cursor is freed.
    ghost function Released(): Fields
      requires chunkIndex < |chunks| == |chunkArrivals|
    {
      this.(chunks := chunks[chunkIndex := None], chunkArrivals := chunkArrivals[chunkIndex := None],
            chunkIndex := chunkIndex + 1, head := 0)
    }

    lemma ConsumedSlot(f: Fields, unread: seq<Cell>, done: int, keep: bool, mark: int)
      requires Consuming(unread, done, keep, mark) && chunkIndex < |chunks|
      requires keep ==> done + |chunks[chunkIndex].value| - head <= mark
      requires f == Released()
      ensures f.Consuming(unread, done + |chunks[chunkIndex].value| - head, keep, mark)
      ensures |f.chunks| == |chunks| && Same(f)
    {
      hide Queue.Flat;
      var q := Slots();
      q.Advance(chunkIndex, head, |chunks[chunkIndex].value| - head);
      q.SameTail(f.Slots(), chunkIndex + 1);
      if keep {
        q.CursorOrder(censusChunkIndex, censusOffset, chunkIndex + 1, 0);
        q.SameTail(f.Slots(), censusChunkIndex);
      }
    }

    // The fields after compaction.
    ghost function Compacted(): Fields
      requires 0 <= chunkIndex <= |chunks| == |chunkArrivals|
    {
      if chunkIndex == |chunks| then
        this.(chunks := [], chunkArrivals := [], chunkIndex := 0, censusChunkIndex := 0, censusOffset := 0)
      else if chunkIndex >= COMPACT_THRESHOLD && chunkIndex * 2 >= |chunks| then
        this.(chunks := chunks[chunkIndex..], chunkArrivals := chunkArrivals[chunkIndex..], chunkIndex := 0,
              censusChunkIndex := censusChunkIndex - chunkIndex, copied := copied + |chunks| - chunkIndex)
      else this
    }

    lemma CompactedKeepsQueue(unread: seq<Cell>, done: int, keep: bool, mark: int)
      requires Consuming(unread, done, keep, mark)
      ensures 0 <= chunkIndex <= |chunks| == |chunkArrivals|
      ensures Compacted().Consuming(unread, done, keep, mark)
      ensures Compacted().Compact() && |Compacted().chunks| <= |chunks| && Same(Compacted())
    {
      hide Queue.Flat;
      var q := Slots();
      if chunkIndex == |chunks| {
        q.FlatEnd();
        Compacted().Slots().FlatEnd();
      } else if chunkIndex >= COMPACT_THRESHOLD && chunkIndex * 2 >= |chunks| {
        q.Dropped(chunkIndex, chunkIndex);
        if keep {
          q.Dropped(chunkIndex, censusChunkIndex);
        }
      }
    }

    lemma ConsumeEnds(f: Fields, before: Fields, n: nat)
      requires before.Valid() && n <= before.length
      requires Consuming(before.Unread(), n, n <= before.censusBytes, before.censusBytes) && Compact()
      requires Same(before.(length := before.length - n, censusBytes := Max(0, before.censusBytes - n)))
      requires |chunks| <= |before.chunks|
      requires f == if n <= before.censusBytes then this
                    else this.(censusChunkIndex := chunkIndex, censusOffset := head)
      ensures f.Valid() && f.Model() == ReaderModel.Consume(before.Model(), n)
    {
      hide Queue.Flat;
      var unread := before.Unread();
      assert f.Slots() == Slots() && f.Unread() == unread[n..];
      if n <= before.censusBytes {
        assert unread[n..][before.censusBytes - n..] == unread[before.censusBytes..];
      } else {
        assert f.Unread()[0..] == f.Unread();
      }
      assert f.CensusPlaced();
      var m := before.Model();
      assert m.cells == unread && m.census == before.censusBytes;
      assert f.Model() == m.(cells := unread[n..], census := f.censusBytes as nat);
    }

    lemma Failed(code: ErrorCode, f: Fields)
      requires Valid()
      requires f == Fields([], [], 0, 0, 0, 0, 0, 0, false, Some(code), None, pushed, copied)
      ensures f.Valid()
      ensures ReaderModel.Fail(Model(), code) == (f.Model(), if pending then Rejected(code) else Quiet)
    {
      assert f.Unread() == [];
    }
  }

  // What one turn of the deadline walk does.
  ghost predicate CensusResult(m: Reader, m1: Reader, r: Result<Option<real>>) {
    && m.census < |m.cells|
    && match FrontOf(m.cells[m.census..])
       case Unfinished(startedAt) => r == Ok(Some(startedAt)) && m1 == m
       case Unusable(code) => r == Err(code) && m1 == m
       case Whole(f) => r == Ok(None) && m1 == m.(census := m.census + Size(f))
  }

  // A cursor moved forward, the bytes it passed and the arrival of the last of them.
  datatype Advanced = Advanced(index: nat, offset: nat, bytes: seq<byte>, lastArrival: real)

  class FrameReader {
    var chunks: seq<Option<seq<byte>>>
    var chunkArrivals: seq<Option<real>>
    var chunkIndex: nat
    var head: nat
    var length: int
    var censusChunkIndex: int
    var censusOffset: nat
    var censusBytes: int
    var pending: bool
    var closed: Option<ErrorCode>
    var frameDeadline: Option<Timer>
    ghost var pushed: nat
    ghost var copied: nat

    ghost function Now(): Fields
      reads this
    {
      Fields(chunks, chunkArrivals, chunkIndex, head, length, censusChunkIndex, censusOffset, censusBytes,
             pending, closed, frameDeadline, pushed, copied)
    }

    constructor ()
      ensures Now().Valid() && Now().Model() == FRESH && copied == 0
    {
      chunks, chunkArrivals, chunkIndex, head, length := [], [], 0, 0, 0;
      censusChunkIndex, censusOffset, censusBytes := 0, 0, 0;
      pending, closed, frameDeadline := false, None, None;
      pushed, copied := 0, 0;
    }

    method Discard()
      modifies this
      ensures Now() == old(Now()).(chunks := [], chunkArrivals := [], chunkIndex := 0, head := 0, length := 0,
                                   censusChunkIndex := 0, censusOffset := 0, censusBytes := 0)
    {
      chunks, chunkArrivals, chunkIndex, head, length := [], [], 0, 0, 0;
      censusChunkIndex, censusOffset, censusBytes := 0, 0, 0;
    }

    method Fail(code: ErrorCode) returns (outcome: Outcome)
      requires Now().Valid()
      modifies this
      ensures Now().Valid() && copied == old(copied)
      ensures (Now().Model(), outcome) == ReaderModel.Fail(old(Now().Model()), code)
    {
      hide Fields.Valid, Fields.Model;
      ghost var before := Now();
      frameDeadline := None;
      closed := Some(code);
      Discard();
      outcome := if pending then Rejected(code) else Quiet;
      pending := false;
      before.Failed(code, Now());
    }

    // Copies the first n unread bytes.
    method CopyOut(n: nat) returns (out: seq<byte>)
      requires Now().Valid() && n <= length
      ensures out == Values(Now().Model().cells[..n])
    {
      hide Queue.Flat, Queue.From, Queue.Canonical, Fields.Valid;
      Now().Meaning();
      out := [];
      var idx: nat, offset: nat := chunkIndex, head;
      ghost var q, unread := Now().Slots(), Now().Unread();
      while |out| < n
        invariant |out| <= n
        invariant out == Values(unread[..|out|])
        invariant |out| < n ==> q.Canonical(idx, offset) && q.From(idx, offset) == unread[|out|..]
      {
        q.Inside(idx, offset);
        if idx >= |chunks| || chunks[idx].None? {
          assert false;
        }
        var chunk := chunks[idx].value;
        var take := Min(|chunk| - offset, n - |out|);
        q.AdvanceFrom(unread, |out|, idx, offset, take);
        out := out + chunk[offset..offset + take];
        idx, offset := idx + 1, 0;
      }
    }

    // The arrival time of the unread byte at position skip.
    method ArrivalAt(skip: nat) returns (at: real)
      requires Now().Valid() && skip < length
      ensures at == Now().Model().cells[skip].at
    {
      hide Queue.Flat;
      var idx: nat, offset: nat := chunkIndex, head;
      var leftToSkip := skip;
      ghost var q, unread := Now().Slots(), Now().Unread();
      while true
        invariant 0 <= leftToSkip <= skip < length
        invariant q.Canonical(idx, offset) && q.From(idx, offset) == unread[skip - leftToSkip..]
        decreases |chunks| - idx
      {
        q.FlatEnd();
        if idx >= |chunks| || chunks[idx].None? || chunkArrivals[idx].None? {
          assert false;
        }
        var available := |chunks[idx].value| - offset;
        if leftToSkip < available {
          q.Advance(idx, offset, leftToSkip + 1);
          return chunkArrivals[idx].value;
        }
        q.Advance(idx, offset, available);
        leftToSkip := leftToSkip - available;
        idx, offset := idx + 1, 0;
      }
    }

    // Drops consumed slots once they are at least half of a large backing array.
    method CompactChunks()
      requires chunkIndex <= |chunks| == |chunkArrivals|
      modifies this
      ensures Now() == old(Now().Compacted())
    {
      if chunkIndex == |chunks| {
        chunks, chunkArrivals, chunkIndex := [], [], 0;
        censusChunkIndex, censusOffset := 0, 0;
        return;
      }
      if chunkIndex >= COMPACT_THRESHOLD && chunkIndex * 2 >= |chunks| {
        var removed := chunkIndex;
        copied := copied + |chunks| - removed;
        chunks, chunkArrivals := chunks[removed..], chunkArrivals[removed..];
        censusChunkIndex := censusChunkIndex - removed;
        chunkIndex := 0;
      }
    }

    // Frees the slot under the read cursor and moves to the next one.
    method ReleaseSlot()
      requires chunkIndex < |chunks| == |chunkArrivals|
      modifies this
      ensures Now() == old(Now().Released())
    {
      chunks := chunks[chunkIndex := None];
      chunkArrivals := chunkArrivals[chunkIndex := None];
      chunkIndex := chunkIndex + 1;
      head := 0;
    }

    // Moves the read cursor over n bytes, freeing every slot it leaves.
    method MoveHead(n: nat, ghost unread: seq<Cell>, ghost keep: bool, ghost mark: int)
      requires Now().Consuming(unread, 0, keep, mark) && n <= |unread| && (keep ==> n <= mark)
      modifies this
      ensures Now().Consuming(unread, n, keep, mark) && Now().Same(old(Now())) && |chunks| == |old(chunks)|
    {
      hide Fields.Consuming, Fields.Released;
      ghost var before := Now();
      var left := n;
      while left > 0
        invariant 0 <= left <= n
        invariant Now().Consuming(unread, n - left, keep, mark) && Now().Same(before) && |chunks| == |before.chunks|
      {
        ghost var f := Now();
        f.NotDrained(unread, n - left, keep, mark);
        if chunkIndex >= |chunks| || chunks[chunkIndex].None? {
          assert false;
        }
        var avail := |chunks[chunkIndex].value| - head;
        if left < avail {
          head := head + left;
          f.ConsumedWithin(Now(), unread, n - left, left, keep, mark);
          left := 0;
          break;
        }
        left := left - avail;
        ReleaseSlot();
        f.ConsumedSlot(Now(), unread, n - left - avail, keep, mark);
      }
    }

    method Consume(n: nat)
      requires Now().Valid() && n <= length
      modifies this
      ensures Now().Valid() && closed == old(closed)
      ensures Now().Model() == ReaderModel.Consume(old(Now().Model()), n)
    {
      hide Fields.Consuming, Fields.Compacted, Fields.Compact, Fields.Valid, Fields.Model, Fields.Unread;
      hide ReaderModel.Consume;
      ghost var before, mark := Now(), censusBytes;
      before.Meaning();
      var resetCensus := n > censusBytes;
      censusBytes := Max(0, censusBytes - n);
      length := length - n;
      before.ConsumeBegins(Now(), n);
      MoveHead(n, before.Unread(), !resetCensus, mark);
      Now().CompactedKeepsQueue(before.Unread(), n, !resetCensus, mark);
      CompactChunks();
      ghost var f := Now();
      if resetCensus {
        censusChunkIndex := chunkIndex;
        censusOffset := head;
      }
      f.ConsumeEnds(Now(), before, n);
    }

    method CensusArrival() returns (at: real)
      requires Now().Valid() && censusBytes < length
      ensures at == Now().Model().cells[censusBytes].at
    {
      hide Queue.Flat;
      Now().Slots().FlatEnd();
      if censusChunkIndex >= |chunkArrivals| || chunkArrivals[censusChunkIndex].None? {
        assert false;
      }
      Now().Slots().Advance(censusChunkIndex, censusOffset, 1);
      at := chunkArrivals[censusChunkIndex].value;
    }

    method EnsureFrameDeadline(now: real)
      requires Now().Valid() && closed.None?
      modifies this`frameDeadline
      ensures Now().Valid()
      ensures Now().Model() == EnsureDeadline(old(Now().Model()), now)
    {
      hide Queue.Flat, Fields.Queued, Fields.CensusPlaced, Fields.Model;
      ghost var f := Now();
      f.Meaning();
      if censusBytes >= length || frameDeadline.Some? {
        return;
      }
      var startedAt := CensusArrival();
      ScheduleFrameDeadline(startedAt, now);
      f.Independent(Now());
    }

    method ScheduleFrameDeadline(startedAt: real, now: real)
      modifies this`frameDeadline
      ensures frameDeadline == if old(frameDeadline).Some? then old(frameDeadline) else Some(Arm(startedAt, now))
    {
      if frameDeadline.Some? {
        return;
      }
      var remaining := MaxReal(0.0, startedAt + IO_DEADLINE - now);
      frameDeadline := Some(Timer(now, remaining));
    }

    method TryResolve(now: real) returns (outcome: Outcome)
      requires Now().Valid() && closed.None?
      modifies this
      ensures Now().Valid()
      ensures (Now().Model(), outcome) == ReaderModel.TryResolve(old(Now().Model()), now)
    {
      hide Fields.Valid, Fields.Model, Fields.Unread, FrontOf, HeadOf, DecodeHeader;
      hide ReaderModel.Fail, ReaderModel.Deliver;
      ghost var m := Now().Model();
      Now().Meaning();
      if m.cells != [] {
        FrontByHeader(m.cells);
      }
      if !pending || length < HEADER_LEN {
        return Quiet;
      }
      var startedAt := ArrivalAt(0);
      var headerCompletedAt := ArrivalAt(HEADER_LEN - 1);
      if headerCompletedAt - startedAt >= IO_DEADLINE {
        outcome := Fail(Deadline006);
        return;
      }
      var encoded := CopyOut(HEADER_LEN);
      var decoded := DecodeHeader(encoded);
      if decoded.Err? {
        outcome := Fail(decoded.code);
        return;
      }
      var header := decoded.value;
      if header.len > MAX_FRAME_LEN {
        outcome := Fail(TooLarge004);
        return;
      }
      var total := HEADER_LEN + header.len;
      if length < total {
        return Quiet;
      }
      var completedAt := ArrivalAt(total - 1);
      if completedAt - startedAt >= IO_DEADLINE {
        outcome := Fail(Deadline006);
        return;
      }
      outcome := Deliver(header, now);
    }

    // Takes the complete frame at the front of the queue.
    method Deliver(header: Header, now: real) returns (outcome: Outcome)
      requires Now().Valid() && closed.None? && pending
      requires 0 <= header.len && HEADER_LEN + header.len <= length
      modifies this
      ensures Now().Valid()
      ensures var m, total := old(Now().Model()), HEADER_LEN + header.len;
        && Now().Model() == ReaderModel.Deliver(m, total, now)
        && outcome == Resolved(Frame(header, Values(m.cells)[HEADER_LEN..total]))
    {
      hide Fields.Valid, Fields.Model, Fields.Unread, ReaderModel.Consume, EnsureDeadline, Fields.Queued, Values;
      ghost var m := Now().Model();
      Now().Meaning();
      ConsumeTwice(m, HEADER_LEN, header.len);
      Consume(HEADER_LEN);
      Now().Meaning();
      var payload: seq<byte> := [];
      if header.len > 0 {
        payload := CopyOut(header.len);
        Consume(header.len);
      }
      ghost var f := Now();
      f.Meaning();
      frameDeadline := None;
      f.Independent(Now());
      EnsureFrameDeadline(now);
      ghost var g := Now();
      g.Meaning();
      pending := false;
      g.Independent(Now());
      outcome := Resolved(Frame(header, payload));
    }

    method ReadFrame(now: real) returns (outcome: Outcome)
      requires Now().Valid()
      modifies this
      ensures Now().Valid()
      ensures (Now().Model(), outcome) == ReaderModel.ReadFrame(old(Now().Model()), now)
    {
      hide Fields.Valid, Fields.Model, Fields.Unread, EnsureDeadline, ReaderModel.TryResolve;
      ghost var f := Now();
      f.Meaning();
      if closed.Some? {
        return Refused(closed.value);
      }
      if pending {
        return Refused(Protocol005);
      }
      pending := true;
      f.Independent(Now());
      EnsureFrameDeadline(now);
      outcome := TryResolve(now);
    }

    method Push(chunk: seq<byte>, now: real) returns (outcome: Outcome)
      requires Now().Valid()
      modifies this
      ensures Now().Valid()
      ensures (Now().Model(), outcome) == ReaderModel.Push(old(Now().Model()), chunk, now)
    {
      hide Fields.Valid, Fields.Model, Fields.Unread, EnsureDeadline, ReaderModel.TryResolve, ReaderModel.Fail, Pending;
      ghost var f := Now();
      f.Meaning();
      if closed.Some? || |chunk| == 0 {
        return Quiet;
      }
      chunks := chunks + [Some(chunk)];
      chunkArrivals := chunkArrivals + [Some(now)];
      length := length + |chunk|;
      pushed := pushed + 1;
      f.Pushed(Now(), chunk, now);
      EnsureFrameDeadline(now);
      outcome := TryResolve(now);
      Now().Meaning();
      Now().PendingCount();
      if closed.None? && length > MAX_BUFFERED {
        var second := Fail(TooLarge004);
        return Then(outcome, second);
      }
      if closed.None? && |chunks| - chunkIndex > MAX_PENDING_CHUNKS {
        var second := Fail(TooLarge004);
        return Then(outcome, second);
      }
    }

    // Moves a cursor over n buffered bytes.
    method Advance(index: nat, offset: nat, n: nat) returns (end: Advanced)
      requires Now().Slots().Canonical(index, offset)
      requires 0 < n <= |Now().Slots().From(index, offset)|
      ensures var q, start := Now().Slots(), Now().Slots().From(index, offset);
        && q.Canonical(end.index, end.offset) && q.From(end.index, end.offset) == start[n..]
        && end.bytes == Values(start[..n]) && end.lastArrival == start[n - 1].at
    {
      hide Queue.Flat, Queue.From, Queue.Canonical;
      ghost var q, start := Now().Slots(), Now().Slots().From(index, offset);
      var idx: nat, chunkOffset: nat := index, offset;
      q.Inside(idx, chunkOffset);
      if idx >= |chunkArrivals| || chunkArrivals[idx].None? {
        assert false;
      }
      var left, bytes, lastArrival := n, [], chunkArrivals[idx].value;
      while left > 0
        invariant 0 <= left <= n
        invariant q.Canonical(idx, chunkOffset) && q.From(idx, chunkOffset) == start[n - left..]
        invariant bytes == Values(start[..n - left])
        invariant left < n ==> lastArrival == start[n - left - 1].at
      {
        q.Inside(idx, chunkOffset);
        if idx >= |chunks| || chunks[idx].None? || chunkArrivals[idx].None? {
          assert false;
        }
        lastArrival := chunkArrivals[idx].value;
        var take := Min(|chunks[idx].value| - chunkOffset, left);
        q.AdvanceFrom(start, n - left, idx, chunkOffset, take);
        bytes := bytes + chunks[idx].value[chunkOffset..chunkOffset + take];
        left := left - take;
        chunkOffset := chunkOffset + take;
        if chunkOffset == |chunks[idx].value| {
          idx, chunkOffset := idx + 1, 0;
        }
      }
      assert start[..n - left] == start[..n];
      end := Advanced(idx, chunkOffset, bytes, lastArrival);
    }

    // One turn of the deadline walk: moves the census cursor over a whole frame, or
    // returns the arrival of the first byte of a frame that is still incomplete.
    method CensusOneFrame() returns (r: Result<Option<real>>)
      requires Now().Valid() && closed.None? && censusBytes < length
      modifies this`censusChunkIndex, this`censusOffset, this`censusBytes
      ensures Now().Valid() && CensusResult(old(Now().Model()), Now().Model(), r)
    {
      hide Fields.Valid, Fields.Model, Fields.Unread, Queue.Canonical, Queue.From, FrontOf, HeadOf, DecodeHeader;
      Now().Meaning();
      Now().CensusMeaning();
      FrontByHeader(Now().Model().cells[censusBytes..]);
      var startedAt := CensusArrival();
      var remaining := length - censusBytes;
      if remaining < HEADER_LEN {
        return Ok(Some(startedAt));
      }
      var top := Advance(censusChunkIndex, censusOffset, HEADER_LEN);
      if top.lastArrival - startedAt >= IO_DEADLINE {
        return Err(Deadline006);
      }
      var header :- DecodeHeader(top.bytes);
      if header.len > MAX_FRAME_LEN {
        return Err(TooLarge004);
      }
      if remaining - HEADER_LEN < header.len {
        return Ok(Some(startedAt));
      }
      r := CensusPayload(header.len, top, startedAt);
    }

    // The rest of the turn, once the whole payload is known to be buffered.
    method CensusPayload(len: nat, top: Advanced, startedAt: real) returns (r: Result<Option<real>>)
      requires Now().Valid() && closed.None? && 0 <= censusBytes && censusBytes + HEADER_LEN + len <= length
      requires Now().Slots().Canonical(top.index, top.offset)
      requires Now().Slots().From(top.index, top.offset) == Now().Model().cells[censusBytes + HEADER_LEN..]
      requires top.lastArrival == Now().Model().cells[censusBytes + HEADER_LEN - 1].at
      modifies this`censusChunkIndex, this`censusOffset, this`censusBytes
      ensures var m, total := old(Now().Model()), HEADER_LEN + len;
        && Now().Valid()
        && if m.cells[m.census + total - 1].at - startedAt >= IO_DEADLINE then
             r == Err(Deadline006) && Now().Model() == m
           else r == Ok(None) && Now().Model() == m.(census := m.census + total)
    {
      hide Fields.Valid, Fields.Model, Fields.Unread, Queue.Canonical, Queue.From;
      ghost var f := Now();
      f.Meaning();
      var end := top;
      if len != 0 {
        end := Advance(top.index, top.offset, len);
      }
      if end.lastArrival - startedAt >= IO_DEADLINE {
        return Err(Deadline006);
      }
      censusChunkIndex := end.index;
      censusOffset := end.offset;
      censusBytes := censusBytes + HEADER_LEN + len;
      f.CensusMoved(Now());
      r := Ok(None);
    }

    // The deadline walk: validates whole frames from the census cursor on.
    method IncompleteFrameStartedAt() returns (r: Result<Option<real>>)
      requires Now().Valid() && closed.None?
      modifies this`censusChunkIndex, this`censusOffset, this`censusBytes
      ensures Now().Valid()
      ensures var m := old(Now().Model()); var w := Walk(m.cells, m.census);
        && Now().Model() == m.(census := w.census)
        && r == match w.verdict
           case AllWhole => Ok(None)
           case Partial(startedAt) => Ok(Some(startedAt))
           case Malformed(code) => Err(code)
    {
      hide Fields.Valid, Fields.Model, Fields.Unread, FrontOf;
      ghost var m := Now().Model();
      Now().Meaning();
      while censusBytes < length
        invariant Now().Valid() && closed.None?
        invariant m.census <= censusBytes <= length == |m.cells|
        invariant Now().Model() == m.(census := censusBytes)
        invariant Walk(m.cells, m.census) == Walk(m.cells, censusBytes)
      {
        r := CensusOneFrame();
        Now().Meaning();
        if r.Err? || r.value.Some? {
          return;
        }
      }
      r := Ok(None);
    }

    // The deadline timer's callback.
    method TimerFires(now: real) returns (outcome: Outcome)
      requires Now().Valid() && frameDeadline.Some?
      modifies this
      ensures Now().Valid()
      ensures (Now().Model(), outcome) == ReaderModel.TimerFires(old(Now().Model()), now)
    {
      hide Fields.Valid, Fields.Model, Fields.Unread, Walk, ReaderModel.Fail;
      ghost var f := Now();
      f.Meaning();
      f.TimerMeansOpen();
      frameDeadline := None;
      f.Independent(Now());
      var walked := IncompleteFrameStartedAt();
      if walked.Err? {
        outcome := Fail(walked.code);
        return;
      }
      if walked.value.None? {
        return Quiet;
      }
      var startedAt := walked.value.value;
      if now < startedAt + IO_DEADLINE {
        f := Now();
        f.Meaning();
        ScheduleFrameDeadline(startedAt, now);
        f.Independent(Now());
        return Quiet;
      }
      outcome := Fail(Deadline006);
    }
  }

  lemma ConsumeTwice(m: Reader, a: nat, b: nat)
    requires a + b <= |m.cells|
    ensures |ReaderModel.Consume(m, a).cells| == |m.cells| - a
    ensures b == 0 ==> ReaderModel.Consume(m, a) == ReaderModel.Consume(m, a + b)
    ensures ReaderModel.Consume(ReaderModel.Consume(m, a), b) == ReaderModel.Consume(m, a + b)
    ensures Values(ReaderModel.Consume(m, a).cells[..b]) == Values(m.cells)[a..a + b]
  {
    assert m.cells[a..][b..] == m.cells[a + b..];
  }

  // How the front of the queue is decided from its first HEADER_LEN bytes.
  lemma FrontByHeader(cells: seq<Cell>)
    requires cells != []
    ensures |cells| < HEADER_LEN ==> FrontOf(cells) == Unfinished(cells[0].at)
    ensures |cells| >= HEADER_LEN && Late(cells[0].at, cells[HEADER_LEN - 1].at) ==>
              FrontOf(cells) == Unusable(Deadline006)
    ensures |cells| >= HEADER_LEN && !Late(cells[0].at, cells[HEADER_LEN - 1].at) ==>
              match DecodeHeader(Values(cells[..HEADER_LEN]))
              case Err(code) => FrontOf(cells) == Unusable(code)
              case Ok(h) =>
                && 0 <= h.len
                && var total := HEADER_LEN + h.len;
                FrontOf(cells) ==
                if h.len > MAX_FRAME_LEN then Unusable(TooLarge004)
                else if |cells| < total then Unfinished(cells[0].at)
                else if Late(cells[0].at, cells[total - 1].at) then Unusable(Deadline006)
                else Whole(Frame(h, Values(cells)[HEADER_LEN..total]))
  {
    if |cells| >= HEADER_LEN {
      var encoded := Values(cells[..HEADER_LEN]);
      assert forall i :: 0 <= i < HEADER_LEN ==> encoded[i] == Values(cells)[i];
      assert DecodeHeader(encoded) == DecodeHeader(Values(cells));
    }
  }
}
