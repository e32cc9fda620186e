// Reading a screenshot: the chunk walk of the PNG container, its header checks, and the
// pixels of the reconstructed image. CRC-32 and inflate are parameters.
module PngFile {
  import opened Basics
  import opened Scanlines

  const SIGNATURE: seq<byte> := [0x89, 0x50, 0x4e, 0x47, 0x0d, 0x0a, 0x1a, 0x0a]
  const IHDR: seq<byte> := [0x49, 0x48, 0x44, 0x52]
  const IDAT: seq<byte> := [0x49, 0x44, 0x41, 0x54]
  const IEND: seq<byte> := [0x49, 0x45, 0x4e, 0x44]
  const WIDTH := 320
  const HEIGHT := 240

  function BigEndian(bytes: seq<byte>): nat {
    if bytes == [] then 0 else 256 * BigEndian(bytes[..|bytes| - 1]) + bytes[|bytes| - 1]
  }

  function PutBigEndian(n: nat, width: nat): (bytes: seq<byte>)
    ensures |bytes| == width
  {
    if width == 0 then [] else PutBigEndian(n / 256, width - 1) + [n % 256]
  }

  function Pow256(n: nat): nat {
    if n == 0 then 1 else 256 * Pow256(n - 1)
  }

  lemma {:induction false} BigEndianRoundTrip(n: nat, width: nat)
    requires n < Pow256(width)
    ensures BigEndian(PutBigEndian(n, width)) == n
    decreases width
  {
    if width > 0 {
      BigEndianRoundTrip(n / 256, width - 1);
      assert PutBigEndian(n, width)[..width - 1] == PutBigEndian(n / 256, width - 1);
    }
  }

  lemma {:induction false} BigEndianIsInverse(bytes: seq<byte>)
    ensures BigEndian(bytes) < Pow256(|bytes|)
    ensures PutBigEndian(BigEndian(bytes), |bytes|) == bytes
    decreases |bytes|
  {
    if bytes != [] {
      var front, last := bytes[..|bytes| - 1], bytes[|bytes| - 1];
      BigEndianIsInverse(front);
      assert BigEndian(bytes) / 256 == BigEndian(front) && BigEndian(bytes) % 256 == last;
      assert bytes == front + [last];
    }
  }

  // The fields of IHDR the decoder keeps.
  datatype Shape = Shape(width: nat, height: nat, bitDepth: byte, colorType: byte, interlace: byte)

  // What the walk has collected.
  datatype Scan = Scan(shape: Option<Shape>, compressed: seq<byte>)

  function ReadShape(payload: seq<byte>): Result<Shape> {
    if |payload| != 13 then Err(Codec003)
    else if payload[10] != 0 || payload[11] != 0 then Err(Codec003)
    else Ok(Shape(BigEndian(payload[0..4]), BigEndian(payload[4..8]), payload[8], payload[9], payload[12]))
  }

  datatype Chunk = Chunk(kind: seq<byte>, payload: seq<byte>)

  // One chunk's effect, and whether the walk stops at it.
  function Take(scan: Scan, c: Chunk): (Result<Scan>, bool) {
    if c.kind == IHDR then
      match ReadShape(c.payload)
      case Err(code) => (Err(code), true)
      case Ok(shape) => (Ok(scan.(shape := Some(shape))), false)
    else if c.kind == IDAT then (Ok(scan.(compressed := scan.compressed + c.payload)), false)
    else (Ok(scan), c.kind == IEND)
  }

  function Walk(raw: seq<byte>, cursor: nat, scan: Scan, crc: seq<byte> -> nat): Result<Scan>
    requires cursor <= |raw|
    decreases |raw| - cursor
  {
    if cursor == |raw| then Ok(scan)
    else if cursor + 12 > |raw| then Err(Codec003)
    else
      var length := BigEndian(raw[cursor..cursor + 4]);
      var kind := raw[cursor + 4..cursor + 8];
      var end := cursor + 12 + length;
      if end > |raw| then Err(Codec003)
      else
        var payload := raw[cursor + 8..cursor + 8 + length];
        if crc(kind + payload) % 0x1_0000_0000 != BigEndian(raw[cursor + 8 + length..end]) then Err(Codec003)
        else
          var (taken, stop) := Take(scan, Chunk(kind, payload));
          if taken.Err? || stop then taken else Walk(raw, end, taken.value, crc)
  }

  datatype Image = Image(rows: seq<seq<byte>>, channels: nat)

  // The chunk loop.
  method ScanChunks(raw: seq<byte>, crc: seq<byte> -> nat) returns (r: Result<Scan>)
    requires |raw| >= 8
    ensures r == Walk(raw, 8, Scan(None, []), crc)
  {
    hide BigEndian, Take;
    var cursor, scan := 8, Scan(None, []);
    while cursor < |raw|
      invariant 8 <= cursor <= |raw|
      invariant Walk(raw, cursor, scan, crc) == Walk(raw, 8, Scan(None, []), crc)
    {
      if cursor + 12 > |raw| {
        return Err(Codec003);
      }
      var length := BigEndian(raw[cursor..cursor + 4]);
      var kind := raw[cursor + 4..cursor + 8];
      var end := cursor + 12 + length;
      if end > |raw| {
        return Err(Codec003);
      }
      var payload := raw[cursor + 8..cursor + 8 + length];
      var expectedCrc := BigEndian(raw[cursor + 8 + length..end]);
      if crc(kind + payload) % 0x1_0000_0000 != expectedCrc {
        return Err(Codec003);
      }
      var (taken, stop) := Take(scan, Chunk(kind, payload));
      if taken.Err? || stop {
        return taken;
      }
      scan := taken.value;
      cursor := end;
    }
    r := Ok(scan);
  }

  // decode_png_oracle up to its pixels: it accepts exactly the files that stand for an
  // image, and returns that image.
  method Decode(raw: seq<byte>, crc: seq<byte> -> nat, inflate: seq<byte> -> seq<byte>) returns (r: Result<Image>)
    ensures r.Ok? <==> exists image :: StandsFor(raw, crc, inflate, image)
    ensures r.Ok? ==> forall image :: StandsFor(raw, crc, inflate, image) <==> image == r.value
    ensures r.Err? ==> r.code == Codec003
  {
    hide Walk, Filtered, IsImage, StandsFor;
    r := DecodeScan(raw, crc, inflate);
    forall image: Image
      ensures IsImage(raw, crc, inflate, image) <==> StandsFor(raw, crc, inflate, image)
      ensures r.Ok? && IsImage(raw, crc, inflate, image) ==> image == r.value
    {
      FileStandsFor(raw, crc, inflate, image);
      if r.Ok? && IsImage(raw, crc, inflate, image) {
        ImageIsUnique(raw, crc, inflate, image, r.value);
      }
    }
  }

  // The same, said of the walk and of filtered data.
  method DecodeScan(raw: seq<byte>, crc: seq<byte> -> nat, inflate: seq<byte> -> seq<byte>) returns (r: Result<Image>)
    ensures r.Ok? <==> exists image :: IsImage(raw, crc, inflate, image)
    ensures r.Ok? ==> IsImage(raw, crc, inflate, r.value)
    ensures r.Err? ==> r.code == Codec003
  {
    hide Walk, Filtered, ImageIsData;
    if !(SIGNATURE <= raw) {
      return Err(Codec003);
    }
    WalkErrors(raw, 8, Scan(None, []), crc);
    var scan :- ScanChunks(raw, crc);
    if scan.shape.None? || !Supported(scan.shape.value) {
      return Err(Codec003);
    }
    var channels := Channels(scan.shape.value);
    var stride := WIDTH * channels;
    var inflated := inflate(scan.compressed);
    if |inflated| != HEIGHT * (stride + 1) {
      forall filters, rows | |filters| == |rows| == HEIGHT && Filters(filters) && Rows(rows, stride)
        ensures inflated != Filtered(filters, rows, stride, channels)
      {
        assert |Filtered(filters, rows, stride, channels)| == HEIGHT * (stride + 1);
      }
      return Err(Codec003);
    }
    var rows :- Unfilter(inflated, HEIGHT, stride, channels);
    DataIsRows(inflated, rows, stride, channels);
    r := Ok(Image(rows, channels));
    assert IsImage(raw, crc, inflate, r.value);
  }

  // One error stands for every ValueError.
  lemma {:induction false} WalkErrors(raw: seq<byte>, cursor: nat, scan: Scan, crc: seq<byte> -> nat)
    requires cursor <= |raw|
    ensures Walk(raw, cursor, scan, crc).Err? ==> Walk(raw, cursor, scan, crc).code == Codec003
    decreases |raw| - cursor
  {
    hide BigEndian;
    if cursor + 12 <= |raw| {
      var length := BigEndian(raw[cursor..cursor + 4]);
      var end := cursor + 12 + length;
      if end <= |raw| {
        var taken := Take(scan, Chunk(raw[cursor + 4..cursor + 8], raw[cursor + 8..cursor + 8 + length])).0;
        if taken.Ok? {
          WalkErrors(raw, end, taken.value, crc);
        }
      }
    }
  }

  predicate Supported(s: Shape) {
    s.width == WIDTH && s.height == HEIGHT && s.bitDepth == 8 && (s.colorType == 2 || s.colorType == 6)
    && s.interlace == 0
  }

  function Channels(s: Shape): (n: nat)
    ensures n == 3 || n == 4
  {
    if s.colorType == 2 then 3 else 4
  }

  // The image a file stands for: its walk succeeds on a supported shape, and its data
  // inflate to that image filtered in some way.
  ghost predicate IsImage(raw: seq<byte>, crc: seq<byte> -> nat, inflate: seq<byte> -> seq<byte>, image: Image) {
    && SIGNATURE <= raw
    && var scan := Walk(raw, 8, Scan(None, []), crc);
    && scan.Ok? && scan.value.shape.Some? && Supported(scan.value.shape.value)
    && image.channels == Channels(scan.value.shape.value)
    && var stride := WIDTH * image.channels;
    && |image.rows| == HEIGHT && Rows(image.rows, stride)
    && exists filters :: |filters| == HEIGHT && Filters(filters)
         && inflate(scan.value.compressed) == Filtered(filters, image.rows, stride, image.channels)
  }

  // A file stands for at most one image.
  lemma ImageIsUnique(raw: seq<byte>, crc: seq<byte> -> nat, inflate: seq<byte> -> seq<byte>, a: Image, b: Image)
    requires IsImage(raw, crc, inflate, a) && IsImage(raw, crc, inflate, b)
    ensures a == b
  {
    hide Filtered, Walk;
    var scan := Walk(raw, 8, Scan(None, []), crc).value;
    var stride := WIDTH * a.channels;
    var fs :| |fs| == HEIGHT && Filters(fs) && inflate(scan.compressed) == Filtered(fs, a.rows, stride, a.channels);
    var gs :| |gs| == HEIGHT && Filters(gs) && inflate(scan.compressed) == Filtered(gs, b.rows, stride, a.channels);
    FilteringIsInjective(fs, a.rows, gs, b.rows, stride, a.channels);
  }

  // ---- files as a writer makes them ----

  predicate WellFormed(c: Chunk) {
    |c.kind| == 4 && |c.payload| < 0x1_0000_0000
  }

  function ChunkBytes(c: Chunk, crc: seq<byte> -> nat): seq<byte> {
    PutBigEndian(|c.payload|, 4) + c.kind + c.payload + PutBigEndian(crc(c.kind + c.payload) % 0x1_0000_0000, 4)
  }

  function Serialized(chunks: seq<Chunk>, crc: seq<byte> -> nat): seq<byte> {
    if chunks == [] then [] else ChunkBytes(chunks[0], crc) + Serialized(chunks[1..], crc)
  }

  // The walk on the chunks themselves.
  function Collect(chunks: seq<Chunk>, scan: Scan): Result<Scan> {
    if chunks == [] then Ok(scan)
    else
      var (taken, stop) := Take(scan, chunks[0]);
      if taken.Err? || stop then taken else Collect(chunks[1..], taken.value)
  }

  lemma FourBytes()
    ensures Pow256(4) == 0x1_0000_0000
  {
    assert Pow256(1) == 256 && Pow256(2) == 0x1_0000 && Pow256(3) == 0x100_0000;
  }

  // Where the parts of a serialized chunk are.
  lemma ChunkFields(before: seq<byte>, c: Chunk, rest: seq<byte>, crc: seq<byte> -> nat)
    requires WellFormed(c)
    ensures var raw, at, n := before + ChunkBytes(c, crc) + rest, |before|, |c.payload|;
      && |ChunkBytes(c, crc)| == 12 + n
      && BigEndian(raw[at..at + 4]) == n
      && raw[at + 4..at + 8] == c.kind
      && raw[at + 8..at + 8 + n] == c.payload
      && BigEndian(raw[at + 8 + n..at + 12 + n]) == crc(c.kind + c.payload) % 0x1_0000_0000
  {
    hide BigEndian, PutBigEndian, Pow256;
    FourBytes();
    var raw, at, n := before + ChunkBytes(c, crc) + rest, |before|, |c.payload|;
    BigEndianRoundTrip(n, 4);
    BigEndianRoundTrip(crc(c.kind + c.payload) % 0x1_0000_0000, 4);
    assert raw[at..at + 4] == PutBigEndian(n, 4);
    assert raw[at + 8 + n..at + 12 + n] == PutBigEndian(crc(c.kind + c.payload) % 0x1_0000_0000, 4);
  }

  lemma WalkStep(before: seq<byte>, c: Chunk, after: seq<byte>, scan: Scan, crc: seq<byte> -> nat)
    requires WellFormed(c)
    ensures var raw, (taken, stop) := before + ChunkBytes(c, crc) + after, Take(scan, c);
      && Walk(raw, |before|, scan, crc) ==
         if taken.Err? || stop then taken
         else Walk(before + ChunkBytes(c, crc) + after, |before + ChunkBytes(c, crc)|, taken.value, crc)
  {
    hide BigEndian, ChunkBytes, Take;
    ChunkFields(before, c, after, crc);
  }

  // Walking a serialized file collects from exactly its chunks, up to IEND.
  lemma {:induction false} WalkCollects(before: seq<byte>, chunks: seq<Chunk>, scan: Scan, crc: seq<byte> -> nat)
    requires forall i :: 0 <= i < |chunks| ==> WellFormed(chunks[i])
    ensures Walk(before + Serialized(chunks, crc), |before|, scan, crc) == Collect(chunks, scan)
    decreases |chunks|
  {
    hide ChunkBytes, Take;
    var raw := before + Serialized(chunks, crc);
    if chunks != [] {
      var c, rest := chunks[0], Serialized(chunks[1..], crc);
      assert raw == before + ChunkBytes(c, crc) + rest;
      WalkStep(before, c, rest, scan, crc);
      var (taken, stop) := Take(scan, c);
      if taken.Ok? {
        WalkCollects(before + ChunkBytes(c, crc), chunks[1..], taken.value, crc);
      }
    }
  }

  // Chunks between the image data that the decoder skips.
  predicate Ancillary(c: Chunk) {
    WellFormed(c) && c.kind != IHDR && c.kind != IDAT && c.kind != IEND
  }

  function DataOf(chunks: seq<Chunk>): seq<byte> {
    if chunks == [] then []
    else (if chunks[0].kind == IDAT then chunks[0].payload else []) + DataOf(chunks[1..])
  }

  lemma {:induction false} CollectData(chunks: seq<Chunk>, scan: Scan, tail: seq<Chunk>)
    requires forall i :: 0 <= i < |chunks| ==> chunks[i].kind == IDAT || Ancillary(chunks[i])
    ensures Collect(chunks + tail, scan) == Collect(tail, scan.(compressed := scan.compressed + DataOf(chunks)))
    decreases |chunks|
  {
    if chunks == [] {
      assert chunks + tail == tail && scan.compressed + [] == scan.compressed;
    } else {
      hide DataOf, ReadShape;
      assert (chunks + tail)[1..] == chunks[1..] + tail;
      var scan1 := Take(scan, chunks[0]).0.value;
      DataOfFirst(chunks);
      CollectData(chunks[1..], scan1, tail);
      assert scan1.compressed + DataOf(chunks[1..]) == scan.compressed + DataOf(chunks);
    }
  }

  lemma DataOfFirst(chunks: seq<Chunk>)
    requires chunks != []
    ensures DataOf(chunks) == (if chunks[0].kind == IDAT then chunks[0].payload else []) + DataOf(chunks[1..])
  {
  }

  // ---- files as a reader finds them ----

  // The payload of the last IHDR.
  function LastHeader(chunks: seq<Chunk>): Option<seq<byte>> {
    if chunks == [] then None
    else if LastHeader(chunks[1..]).Some? then LastHeader(chunks[1..])
    else if chunks[0].kind == IHDR then Some(chunks[0].payload)
    else None
  }

  // A chunk before IEND; an IHDR has 13 bytes and the one compression and filter method.
  predicate Passable(c: Chunk) {
    && WellFormed(c) && c.kind != IEND
    && (c.kind == IHDR ==> |c.payload| == 13 && c.payload[10] == 0 && c.payload[11] == 0)
  }

  // Nothing, or an IEND chunk and whatever follows it.
  ghost predicate Ends(tail: seq<byte>, crc: seq<byte> -> nat) {
    tail == [] || exists c, more :: WellFormed(c) && c.kind == IEND && tail == ChunkBytes(c, crc) + more
  }

  // The bytes are those chunks, each with its length and the CRC of its kind and payload.
  ghost predicate Holds(bytes: seq<byte>, chunks: seq<Chunk>, tail: seq<byte>, crc: seq<byte> -> nat) {
    && (forall i :: 0 <= i < |chunks| ==> Passable(chunks[i]))
    && bytes == Serialized(chunks, crc) + tail && Ends(tail, crc)
  }

  function After(scan: Scan, chunks: seq<Chunk>): Scan
    requires forall i :: 0 <= i < |chunks| ==> Passable(chunks[i])
  {
    PassableHeader(chunks);
    Scan(
      match LastHeader(chunks) case None => scan.shape case Some(payload) => Some(ReadShape(payload).value),
      scan.compressed + DataOf(chunks))
  }

  lemma {:induction false} PassableHeader(chunks: seq<Chunk>)
    requires forall i :: 0 <= i < |chunks| ==> Passable(chunks[i])
    ensures LastHeader(chunks).Some? ==> ReadShape(LastHeader(chunks).value).Ok?
    decreases |chunks|
  {
    if chunks != [] {
      PassableHeader(chunks[1..]);
    }
  }

  lemma TakePassable(scan: Scan, c: Chunk)
    requires WellFormed(c)
    ensures Take(scan, c).0.Ok? && !Take(scan, c).1 <==> Passable(c)
    ensures Take(scan, c).0.Ok? && Take(scan, c).1 ==> c.kind == IEND && Take(scan, c).0.value == scan
  {
  }

  lemma PassableFits(c: Chunk)
    requires Passable(c)
    ensures WellFormed(c)
  {
  }

  lemma AfterFirst(scan: Scan, c: Chunk, chunks: seq<Chunk>)
    requires Passable(c) && forall i :: 0 <= i < |chunks| ==> Passable(chunks[i])
    ensures Take(scan, c).0.Ok? && After(Take(scan, c).0.value, chunks) == After(scan, [c] + chunks)
  {
    hide BigEndian, LastHeader;
    TakePassable(scan, c);
    HeaderOfFirst(c, chunks);
    DataOfFirst([c] + chunks);
    assert ([c] + chunks)[1..] == chunks;
    var data := if c.kind == IDAT then c.payload else [];
    assert scan.compressed + (data + DataOf(chunks)) == (scan.compressed + data) + DataOf(chunks);
    assert scan.compressed + [] == scan.compressed;
  }

  lemma HeaderOfFirst(c: Chunk, chunks: seq<Chunk>)
    ensures LastHeader([c] + chunks) ==
            if LastHeader(chunks).Some? then LastHeader(chunks) else if c.kind == IHDR then Some(c.payload) else None
  {
    assert ([c] + chunks)[1..] == chunks;
  }

  // The chunk at the cursor, if its length and CRC are right.
  lemma ChunkAt(raw: seq<byte>, cursor: nat, crc: seq<byte> -> nat)
    requires cursor + 12 <= |raw|
    ensures var length := BigEndian(raw[cursor..cursor + 4]);
      cursor + 12 + length <= |raw| ==>
      var c := Chunk(raw[cursor + 4..cursor + 8], raw[cursor + 8..cursor + 8 + length]);
      && WellFormed(c)
      && (BigEndian(raw[cursor + 8 + length..cursor + 12 + length]) == crc(c.kind + c.payload) % 0x1_0000_0000 ==>
          raw[cursor..cursor + 12 + length] == ChunkBytes(c, crc))
  {
    hide BigEndian, PutBigEndian, Pow256;
    FourBytes();
    var length := BigEndian(raw[cursor..cursor + 4]);
    BigEndianIsInverse(raw[cursor..cursor + 4]);
    if cursor + 12 + length <= |raw| {
      var end := cursor + 12 + length;
      BigEndianIsInverse(raw[cursor + 8 + length..end]);
      assert raw[cursor..end] == raw[cursor..cursor + 4] + raw[cursor + 4..cursor + 8]
        + raw[cursor + 8..cursor + 8 + length] + raw[cursor + 8 + length..end];
    }
  }

  // A walk that succeeds has read whole chunks with right CRCs up to an IEND or to the end
  // of the file.
  lemma {:induction false} WalkReads(raw: seq<byte>, cursor: nat, scan: Scan, crc: seq<byte> -> nat)
    returns (chunks: seq<Chunk>, tail: seq<byte>)
    requires cursor <= |raw| && Walk(raw, cursor, scan, crc).Ok?
    ensures Holds(raw[cursor..], chunks, tail, crc) && forall i :: 0 <= i < |chunks| ==> Passable(chunks[i])
    ensures Walk(raw, cursor, scan, crc).value == After(scan, chunks)
    decreases |raw| - cursor
  {
    hide BigEndian, ChunkBytes, Take, After, Ends, Passable, Holds;
    chunks, tail := [], raw[cursor..];
    NothingAfter(scan);
    NothingLeft(raw[cursor..], crc);
    if cursor < |raw| {
      ChunkAt(raw, cursor, crc);
      var length := BigEndian(raw[cursor..cursor + 4]);
      var end := cursor + 12 + length;
      var c := Chunk(raw[cursor + 4..cursor + 8], raw[cursor + 8..cursor + 8 + length]);
      TakePassable(scan, c);
      assert raw[cursor..] == raw[cursor..end] + raw[end..];
      if Take(scan, c).1 {
        EndsWith(c, raw[end..], crc);
      } else {
        var rest: seq<Chunk>;
        rest, tail := WalkReads(raw, end, Take(scan, c).0.value, crc);
        HoldsFirst(c, raw[end..], rest, tail, crc);
        AfterFirst(scan, c, rest);
        chunks := [c] + rest;
      }
    }
  }

  lemma HoldsFirst(c: Chunk, bytes: seq<byte>, chunks: seq<Chunk>, tail: seq<byte>, crc: seq<byte> -> nat)
    requires Passable(c) && Holds(bytes, chunks, tail, crc)
    ensures Holds(ChunkBytes(c, crc) + bytes, [c] + chunks, tail, crc)
    ensures forall i :: 0 <= i < |chunks| ==> Passable(chunks[i])
  {
    hide ChunkBytes, Ends, Passable;
    SerializedFirst(c, chunks, crc);
  }

  lemma NothingAfter(scan: Scan)
    ensures After(scan, []) == scan
  {
    assert scan.compressed + [] == scan.compressed;
  }

  lemma NothingLeft(tail: seq<byte>, crc: seq<byte> -> nat)
    ensures Ends(tail, crc) ==> Holds(tail, [], tail, crc)
    ensures Ends([], crc) && Serialized([], crc) == []
  {
    assert Serialized([], crc) + tail == tail;
  }

  lemma EndsWith(c: Chunk, more: seq<byte>, crc: seq<byte> -> nat)
    requires WellFormed(c) && c.kind == IEND
    ensures Ends(ChunkBytes(c, crc) + more, crc)
  {
  }

  lemma SerializedFirst(c: Chunk, chunks: seq<Chunk>, crc: seq<byte> -> nat)
    ensures Serialized([c] + chunks, crc) == ChunkBytes(c, crc) + Serialized(chunks, crc)
  {
    assert ([c] + chunks)[1..] == chunks;
  }

  // Conversely, the walk succeeds on such bytes, wherever they start.
  lemma {:induction false} WalkSucceeds(
      before: seq<byte>, chunks: seq<Chunk>, tail: seq<byte>, scan: Scan, crc: seq<byte> -> nat)
    requires Holds(Serialized(chunks, crc) + tail, chunks, tail, crc)
    ensures Walk(before + (Serialized(chunks, crc) + tail), |before|, scan, crc) == Ok(After(scan, chunks))
    decreases |chunks|
  {
    hide ChunkBytes, Take, After, Passable;
    NothingAfter(scan);
    if chunks == [] {
      NothingLeft(tail, crc);
      assert Serialized([], crc) + tail == tail;
      if tail != [] {
        var c, more :| WellFormed(c) && c.kind == IEND && tail == ChunkBytes(c, crc) + more;
        assert before + tail == before + ChunkBytes(c, crc) + more;
        WalkStep(before, c, more, scan, crc);
        EndStops(scan, c);
      }
    } else {
      var c, rest := chunks[0], chunks[1..];
      assert chunks == [c] + rest;
      SerializedFirst(c, rest, crc);
      var after := Serialized(rest, crc) + tail;
      assert before + (Serialized(chunks, crc) + tail) == before + ChunkBytes(c, crc) + after;
      PassableFits(c);
      WalkStep(before, c, after, scan, crc);
      TakePassable(scan, c);
      AfterFirst(scan, c, rest);
      WalkSucceeds(before + ChunkBytes(c, crc), rest, tail, Take(scan, c).0.value, crc);
    }
  }

  lemma EndStops(scan: Scan, c: Chunk)
    requires c.kind == IEND
    ensures Take(scan, c) == (Ok(scan), true)
  {
  }

  // 320 by 240, 8 bits, no interlacing; colour type 2 with 3 channels or 6 with 4.
  function ExpectedHeader(channels: nat): seq<byte> {
    [0, 0, 0x01, 0x40, 0, 0, 0, 0xf0, 8, if channels == 3 then 2 else 6, 0, 0, 0]
  }

  lemma SupportedHeaders(payload: seq<byte>)
    requires ReadShape(payload).Ok?
    ensures var s := ReadShape(payload).value;
      Supported(s) <==> payload == ExpectedHeader(3) || payload == ExpectedHeader(4)
    ensures payload == ExpectedHeader(3) ==> Channels(ReadShape(payload).value) == 3
    ensures payload == ExpectedHeader(4) ==> Channels(ReadShape(payload).value) == 4
  {
    hide BigEndian;
    FourDigits(payload[0..4]);
    FourDigits(payload[4..8]);
  }

  lemma FourDigits(b: seq<byte>)
    requires |b| == 4
    ensures var (d0: int, d1: int, d2: int, d3: int) := (b[0] as int, b[1] as int, b[2] as int, b[3] as int);
      BigEndian(b) == 0x100_0000 * d0 + 0x1_0000 * d1 + 0x100 * d2 + d3
  {
    var (d0: int, d1: int, d2: int) := (b[0] as int, b[1] as int, b[2] as int);
    assert b[..3][..2] == b[..2] && b[..2][..1] == b[..1] && b[..1][..0] == [];
    assert BigEndian(b[..1]) == d0 && BigEndian(b[..2]) == 0x100 * d0 + d1;
    assert BigEndian(b[..3]) == 0x1_0000 * d0 + 0x100 * d1 + d2;
  }

  // The image a file stands for, byte by byte.
  ghost predicate StandsFor(
      raw: seq<byte>, crc: seq<byte> -> nat, inflate: seq<byte> -> seq<byte>, image: Image)
  {
    && SIGNATURE <= raw && image.channels in {3, 4} && |image.rows| == 240
    && exists chunks, tail ::
      && Holds(raw[8..], chunks, tail, crc)
      && LastHeader(chunks) == Some(ExpectedHeader(image.channels))
      && ImageIsData(inflate(DataOf(chunks)), image.rows, 320 * image.channels, image.channels)
  }

  lemma FileStandsFor(raw: seq<byte>, crc: seq<byte> -> nat, inflate: seq<byte> -> seq<byte>, image: Image)
    ensures IsImage(raw, crc, inflate, image) <==> StandsFor(raw, crc, inflate, image)
  {
    hide Walk, Filtered, ImageIsData, Holds;
    if IsImage(raw, crc, inflate, image) {
      var chunks, tail := WalkReads(raw, 8, Scan(None, []), crc);
      FinishedWalk(raw, chunks, tail, crc);
      SupportedHeaders(LastHeader(chunks).value);
      var data, stride := inflate(DataOf(chunks)), WIDTH * image.channels;
      var fs :| |fs| == HEIGHT && Filters(fs) && data == Filtered(fs, image.rows, stride, image.channels);
      FilteredIsData(fs, image.rows, stride, image.channels);
    }
    if StandsFor(raw, crc, inflate, image) {
      var chunks, tail :| Holds(raw[8..], chunks, tail, crc)
        && LastHeader(chunks) == Some(ExpectedHeader(image.channels))
        && ImageIsData(inflate(DataOf(chunks)), image.rows, 320 * image.channels, image.channels);
      FinishedWalk(raw, chunks, tail, crc);
      SupportedHeaders(LastHeader(chunks).value);
      DataIsRows(inflate(DataOf(chunks)), image.rows, 320 * image.channels, image.channels);
      var fs := DataIsFiltered(inflate(DataOf(chunks)), image.rows, 320 * image.channels, image.channels);
    }
  }

  lemma FinishedWalk(raw: seq<byte>, chunks: seq<Chunk>, tail: seq<byte>, crc: seq<byte> -> nat)
    requires SIGNATURE <= raw && Holds(raw[8..], chunks, tail, crc)
    ensures var header := LastHeader(chunks);
      && (header.Some? ==> ReadShape(header.value).Ok?)
      && Walk(raw, 8, Scan(None, []), crc) ==
         Ok(Scan(if header.None? then None else Some(ReadShape(header.value).value), DataOf(chunks)))
  {
    hide ReadShape, LastHeader;
    WalkSucceeds(raw[..8], chunks, tail, Scan(None, []), crc);
    PassableHeader(chunks);
    assert raw == raw[..8] + (Serialized(chunks, crc) + tail);
    assert [] + DataOf(chunks) == DataOf(chunks);
  }

  function HeaderChunk(channels: nat): Chunk {
    Chunk(IHDR, PutBigEndian(WIDTH, 4) + PutBigEndian(HEIGHT, 4) + [8, if channels == 3 then 2 else 6, 0, 0, 0])
  }

  lemma HeaderReads(channels: nat)
    requires channels == 3 || channels == 4
    ensures WellFormed(HeaderChunk(channels))
    ensures var shape := ReadShape(HeaderChunk(channels).payload);
      shape.Ok? && Supported(shape.value) && Channels(shape.value) == channels
  {
    hide BigEndian, PutBigEndian, Pow256;
    FourBytes();
    BigEndianRoundTrip(WIDTH, 4);
    BigEndianRoundTrip(HEIGHT, 4);
    var payload := HeaderChunk(channels).payload;
    assert payload[0..4] == PutBigEndian(WIDTH, 4) && payload[4..8] == PutBigEndian(HEIGHT, 4);
  }

  // Decoding inverts encoding: for every image of the expected size with 3 or 4
  // channels, any filter type for each row, and any split of the compressed data over
  // IDAT chunks with other chunks among them, the file stands for exactly that image.
  lemma FileRoundTrip(image: Image, filters: seq<int>, body: seq<Chunk>,
                      crc: seq<byte> -> nat, inflate: seq<byte> -> seq<byte>)
    requires image.channels == 3 || image.channels == 4
    requires |image.rows| == HEIGHT && Rows(image.rows, WIDTH * image.channels)
    requires |filters| == HEIGHT && Filters(filters)
    requires forall i :: 0 <= i < |body| ==> WellFormed(body[i]) && (body[i].kind == IDAT || Ancillary(body[i]))
    requires inflate(DataOf(body)) == Filtered(filters, image.rows, WIDTH * image.channels, image.channels)
    ensures var chunks := [HeaderChunk(image.channels)] + (body + [Chunk(IEND, [])]);
      var raw := SIGNATURE + Serialized(chunks, crc);
      IsImage(raw, crc, inflate, image)
  {
    hide Filtered, Walk, ChunkBytes, DataOf;
    var end := [Chunk(IEND, [])];
    var chunks := [HeaderChunk(image.channels)] + (body + end);
    HeaderReads(image.channels);
    WalkCollects(SIGNATURE, chunks, Scan(None, []), crc);
    var shape := ReadShape(HeaderChunk(image.channels).payload).value;
    var scan := Scan(Some(shape), []);
    assert chunks[1..] == body + end;
    CollectData(body, scan, end);
    assert [] + DataOf(body) == DataOf(body);
  }
}
