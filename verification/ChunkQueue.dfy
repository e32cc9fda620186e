// A queue of socket chunks read through cursors, and the flat queue of cells it stands
// for. Slots already consumed hold None.
module ChunkQueue {
  import opened Basics
  import opened ReaderModel

  // base is the serial number of slot 0.
  datatype Queue = Queue(chunks: seq<Option<seq<byte>>>, times: seq<Option<real>>, base: int) {
    ghost predicate Filled(from: nat) {
      && |chunks| == |times|
      && from <= |chunks|
      && forall i :: from <= i < |chunks| ==> chunks[i].Some? && times[i].Some? && chunks[i].value != []
    }

    // A cursor is canonical when it points at a byte, or just past the last slot.
    ghost predicate Canonical(index: nat, offset: nat) {
      && Filled(index)
      && if index == |chunks| then offset == 0 else offset < |chunks[index].value|
    }

    ghost function Flat(from: nat): (cells: seq<Cell>)
      requires Filled(from)
      decreases |chunks| - from
    {
      if from == |chunks| then []
      else CellsOf(chunks[from].value, times[from].value, base + from) + Flat(from + 1)
    }

    // The cells from a cursor on.
    ghost function From(index: nat, offset: nat): seq<Cell>
      requires Canonical(index, offset)
    {
      Flat(index)[offset..]
    }

    lemma FlatEnd()
      requires |chunks| == |times|
      ensures Flat(|chunks|) == []
    {
    }

    lemma OffsetWithin(index: nat, offset: nat)
      requires Canonical(index, offset)
      ensures offset <= |Flat(index)| == offset + |From(index, offset)|
    {
    }

    lemma FlatShrinks(i: nat, j: nat)
      requires Filled(i) && i < j <= |chunks|
      ensures |Flat(i)| >= |chunks[i].value| + |Flat(j)|
      decreases j - i
    {
      if i + 1 < j {
        FlatShrinks(i + 1, j);
      }
    }

    // Canonical cursors are ordered by how much they leave to read.
    lemma CursorOrder(i: nat, a: nat, j: nat, b: nat)
      requires Canonical(i, a) && Canonical(j, b)
      requires |From(i, a)| <= |From(j, b)|
      ensures j <= i
    {
      if i < j {
        FlatShrinks(i, j);
      }
    }

    // Moving a cursor within or to the end of its slot.
    lemma Advance(index: nat, offset: nat, take: nat)
      requires Canonical(index, offset) && index < |chunks|
      requires offset + take <= |chunks[index].value|
      ensures take <= |From(index, offset)|
      ensures Values(From(index, offset)[..take]) == chunks[index].value[offset..offset + take]
      ensures forall i :: 0 <= i < take ==> From(index, offset)[i].at == times[index].value
      ensures offset + take < |chunks[index].value| ==>
                Canonical(index, offset + take) && From(index, offset + take) == From(index, offset)[take..]
      ensures offset + take == |chunks[index].value| ==>
                Canonical(index + 1, 0) && From(index + 1, 0) == From(index, offset)[take..]
    {
    }

    lemma Inside(index: nat, offset: nat)
      requires Canonical(index, offset) && From(index, offset) != []
      ensures index < |chunks| == |times| && chunks[index].Some? && times[index].Some?
      ensures offset < |chunks[index].value|
    {
      FlatEnd();
    }

    // The same move seen from a fixed starting point, done cells behind the cursor.
    lemma AdvanceFrom(start: seq<Cell>, done: nat, index: nat, offset: nat, take: nat)
      requires Canonical(index, offset) && index < |chunks| && done <= |start|
      requires From(index, offset) == start[done..] && 0 < take && offset + take <= |chunks[index].value|
      ensures done + take <= |start| && start[done + take - 1].at == times[index].value
      ensures Values(start[..done + take]) == Values(start[..done]) + chunks[index].value[offset..offset + take]
      ensures offset + take < |chunks[index].value| ==>
                Canonical(index, offset + take) && From(index, offset + take) == start[done + take..]
      ensures offset + take == |chunks[index].value| ==>
                Canonical(index + 1, 0) && From(index + 1, 0) == start[done + take..]
    {
      hide Queue.Flat;
      Advance(index, offset, take);
      assert start[..done + take] == start[..done] + start[done..][..take];
      assert start[done..][take..] == start[done + take..];
      assert start[done..][take - 1] == start[done + take - 1];
    }

    lemma {:induction false} Pushed(chunk: seq<byte>, at: real, from: nat)
      requires Filled(from) && chunk != []
      ensures var q := Queue(chunks + [Some(chunk)], times + [Some(at)], base);
        q.Filled(from) && q.Flat(from) == Flat(from) + CellsOf(chunk, at, base + |chunks|)
      decreases |chunks| - from
    {
      var q := Queue(chunks + [Some(chunk)], times + [Some(at)], base);
      if from == |chunks| {
        assert q.Flat(from + 1) == [];
      } else {
        Pushed(chunk, at, from + 1);
      }
    }

    // Slots before a position do not matter to it.
    lemma {:induction false} SameTail(q: Queue, from: nat)
      requires Filled(from) && |q.chunks| == |chunks| && |q.times| == |times| && q.base == base
      requires forall i :: from <= i < |chunks| ==> q.chunks[i] == chunks[i] && q.times[i] == times[i]
      ensures q.Filled(from) && q.Flat(from) == Flat(from)
      decreases |chunks| - from
    {
      if from < |chunks| {
        SameTail(q, from + 1);
      }
    }

    // Dropping the first n slots renumbers positions by n.
    lemma {:induction false} Dropped(n: nat, from: nat)
      requires n <= from && Filled(from)
      ensures var q := Queue(chunks[n..], times[n..], base + n);
        q.Filled(from - n) && q.Flat(from - n) == Flat(from)
      decreases |chunks| - from
    {
      if from < |chunks| {
        Dropped(n, from + 1);
      }
    }
  }
}
