// The kipc v2 wire format: a 16-byte little-endian header followed by the payload,
// and the meaning of a byte stream as a sequence of frames.
module Frame {
  import opened Basics

  const HEADER_LEN := 16
  const MAX_FRAME_LEN := 16 * 1024 * 1024
  const IO_DEADLINE: real := 5000.0  // milliseconds
  const MAGIC_K: byte := 0x4b
  const MAGIC_I: byte := 0x49
  const PROTOCOL_VERSION: byte := 2

  const CALL := 1
  const REPLY := 2
  const ERR := 3
  const EVENT := 4
  const PING := 10

  // Header fields are JavaScript numbers, so encoding checks their ranges.
  datatype Header = Header(kind: int, flags: int, channel: int, corr: int, len: int)

  datatype Frame = Frame(header: Header, payload: seq<byte>)

  predicate KnownKind(kind: int) {
    0 <= kind <= 10
  }

  predicate Encodable(h: Header) {
    && KnownKind(h.kind)
    && 0 <= h.flags <= 0xffff
    && 0 <= h.channel <= 0xffff
    && 0 <= h.corr <= 0xffff_ffff
    && 0 <= h.len <= 0xffff_ffff
  }

  function PutUint16(n: int): seq<byte>
    requires 0 <= n <= 0xffff
  {
    [n % 256, n / 256]
  }

  function PutUint32(n: int): seq<byte>
    requires 0 <= n <= 0xffff_ffff
  {
    PutUint16(n % 0x1_0000) + PutUint16(n / 0x1_0000)
  }

  function GetUint16(bytes: seq<byte>, at: nat): int
    requires at + 2 <= |bytes|
  {
    bytes[at] as int + 256 * (bytes[at + 1] as int)
  }

  function GetUint32(bytes: seq<byte>, at: nat): int
    requires at + 4 <= |bytes|
  {
    GetUint16(bytes, at) + 0x1_0000 * GetUint16(bytes, at + 2)
  }

  function HeaderBytes(h: Header): (bytes: seq<byte>)
    requires Encodable(h)
    ensures |bytes| == HEADER_LEN
  {
    [MAGIC_K, MAGIC_I, PROTOCOL_VERSION, h.kind]
    + PutUint16(h.flags) + PutUint16(h.channel) + PutUint32(h.corr) + PutUint32(h.len)
  }

  function EncodeHeader(h: Header): Result<seq<byte>> {
    if Encodable(h) then Ok(HeaderBytes(h)) else Err(Codec003)
  }

  function DecodeHeader(bytes: seq<byte>): Result<Header> {
    if |bytes| < HEADER_LEN then Err(Header002)
    else if bytes[0] != MAGIC_K || bytes[1] != MAGIC_I then Err(Header002)
    else if bytes[2] != PROTOCOL_VERSION then Err(Header002)
    else if !KnownKind(bytes[3]) then Err(Header002)
    else Ok(Header(bytes[3], GetUint16(bytes, 4), GetUint16(bytes, 6), GetUint32(bytes, 8), GetUint32(bytes, 12)))
  }

  // Encoding succeeds exactly on in-range fields, and decoding gives the fields back,
  // whatever bytes follow the header.
  lemma HeaderRoundTrip(h: Header, rest: seq<byte>)
    ensures EncodeHeader(h).Ok? <==> Encodable(h)
    ensures Encodable(h) ==> DecodeHeader(EncodeHeader(h).value + rest) == Ok(h)
  {
    if Encodable(h) {
      var b := HeaderBytes(h) + rest;
      assert b[4..6] == PutUint16(h.flags) && b[6..8] == PutUint16(h.channel);
      assert b[8..12] == PutUint32(h.corr) && b[12..16] == PutUint32(h.len);
      assert GetUint32(b, 8) == GetUint32(b[8..12], 0) && GetUint32(b, 12) == GetUint32(b[12..16], 0);
      assert GetUint16(b, 4) == GetUint16(b[4..6], 0) && GetUint16(b, 6) == GetUint16(b[6..8], 0);
    }
  }

  // A header is read exactly from 16 bytes with the magic, version 2 and a declared kind;
  // everything else is KELD-IPC-002.
  lemma HeaderIsReadable(bytes: seq<byte>)
    ensures DecodeHeader(bytes).Ok? <==>
            |bytes| >= 16 && bytes[0] == 0x4b && bytes[1] == 0x49 && bytes[2] == 2 && bytes[3] <= 10
    ensures DecodeHeader(bytes).Err? ==> DecodeHeader(bytes) == Err(Header002)
  {
  }

  function LittleEndian(bytes: seq<byte>): nat {
    if bytes == [] then 0 else bytes[0] + 256 * LittleEndian(bytes[1..])
  }

  // Where the fields are on the wire: magic, version and kind, then flags, channel,
  // correlation and length, each little-endian.
  lemma HeaderLayout(h: Header)
    requires Encodable(h)
    ensures var bytes := HeaderBytes(h);
      && bytes[..4] == [0x4b, 0x49, 2, h.kind]
      && LittleEndian(bytes[4..6]) == h.flags
      && LittleEndian(bytes[6..8]) == h.channel
      && LittleEndian(bytes[8..12]) == h.corr
      && LittleEndian(bytes[12..16]) == h.len
  {
    hide LittleEndian, PutUint16, PutUint32, HeaderBytes;
    HeaderSlices(h);
    LittleEndian16(h.flags);
    LittleEndian16(h.channel);
    LittleEndian32(h.corr);
    LittleEndian32(h.len);
  }

  lemma HeaderSlices(h: Header)
    requires Encodable(h)
    ensures var bytes := HeaderBytes(h);
      && bytes[..4] == [0x4b, 0x49, 2, h.kind]
      && bytes[4..6] == PutUint16(h.flags)
      && bytes[6..8] == PutUint16(h.channel)
      && bytes[8..12] == PutUint32(h.corr)
      && bytes[12..16] == PutUint32(h.len)
  {
  }

  lemma LittleEndian16(n: int)
    requires 0 <= n <= 0xffff
    ensures LittleEndian(PutUint16(n)) == n
  {
    var bytes := PutUint16(n);
    assert bytes[1..] == [n / 256] && bytes[1..][1..] == [];
    assert LittleEndian(bytes[1..]) == n / 256;
  }

  lemma LittleEndian32(n: int)
    requires 0 <= n <= 0xffff_ffff
    ensures LittleEndian(PutUint32(n)) == n
  {
    var lo, hi := PutUint16(n % 0x1_0000), PutUint16(n / 0x1_0000);
    var bytes := PutUint32(n);
    LittleEndian16(n % 0x1_0000);
    LittleEndian16(n / 0x1_0000);
    assert bytes[1..][1..] == hi;
    assert lo[1..] == [lo[1]] && lo[1..][1..] == [] && bytes[1..][0] == lo[1];
    assert LittleEndian(bytes) == lo[0] + 256 * (lo[1] + 256 * LittleEndian(hi));
  }

  // Every byte of the header carries information: a decoded header encodes back to
  // exactly the 16 bytes it was read from.
  lemma HeaderDecodeRoundTrip(bytes: seq<byte>)
    requires DecodeHeader(bytes).Ok?
    ensures Encodable(DecodeHeader(bytes).value)
    ensures HeaderBytes(DecodeHeader(bytes).value) == bytes[..HEADER_LEN]
  {
    hide GetUint16, GetUint32, PutUint16, PutUint32;
    var h := DecodeHeader(bytes).value;
    Uint16Bytes(bytes, 4);
    Uint16Bytes(bytes, 6);
    Uint32Bytes(bytes, 8);
    Uint32Bytes(bytes, 12);
    assert bytes[..4] == [MAGIC_K, MAGIC_I, PROTOCOL_VERSION, h.kind];
    HeaderParts(bytes);
  }

  lemma HeaderParts(bytes: seq<byte>)
    requires |bytes| >= HEADER_LEN
    ensures bytes[..HEADER_LEN] == bytes[..4] + bytes[4..6] + bytes[6..8] + bytes[8..12] + bytes[12..16]
  {
  }

  lemma Uint16Bytes(bytes: seq<byte>, at: nat)
    requires at + 2 <= |bytes|
    ensures 0 <= GetUint16(bytes, at) <= 0xffff
    ensures PutUint16(GetUint16(bytes, at)) == bytes[at..at + 2]
  {
  }

  lemma Uint32Bytes(bytes: seq<byte>, at: nat)
    requires at + 4 <= |bytes|
    ensures 0 <= GetUint32(bytes, at) <= 0xffff_ffff
    ensures PutUint32(GetUint32(bytes, at)) == bytes[at..at + 4]
  {
    var lo, hi := GetUint16(bytes, at), GetUint16(bytes, at + 2);
    assert GetUint32(bytes, at) % 0x1_0000 == lo && GetUint32(bytes, at) / 0x1_0000 == hi;
    assert PutUint16(lo) == bytes[at..at + 2] && PutUint16(hi) == bytes[at + 2..at + 4];
  }

  // A frame that can travel: encodable header, declared length equal to the payload's
  // and within the control-plane cap.
  predicate ValidFrame(f: Frame) {
    Encodable(f.header) && f.header.len == |f.payload| <= MAX_FRAME_LEN
  }

  function Size(f: Frame): nat
    requires ValidFrame(f)
  {
    HEADER_LEN + |f.payload|
  }

  function Wire(f: Frame): (bytes: seq<byte>)
    requires ValidFrame(f)
    ensures |bytes| == Size(f)
  {
    HeaderBytes(f.header) + f.payload
  }

  predicate AllValid(fs: seq<Frame>) {
    forall i :: 0 <= i < |fs| ==> ValidFrame(fs[i])
  }

  function WireAll(fs: seq<Frame>): seq<byte>
    requires AllValid(fs)
  {
    if fs == [] then [] else WireAll(fs[..|fs| - 1]) + Wire(fs[|fs| - 1])
  }

  lemma WireAllOneMore(fs: seq<Frame>, f: Frame)
    requires AllValid(fs) && ValidFrame(f)
    ensures WireAll(fs + [f]) == WireAll(fs) + Wire(f)
  {
    assert (fs + [f])[..|fs|] == fs;
  }

  // What a byte stream starts with.
  datatype Head = Incomplete | Broken(code: ErrorCode) | Got(frame: Frame)

  function HeadOf(bytes: seq<byte>): Head {
    if |bytes| < HEADER_LEN then Incomplete
    else match DecodeHeader(bytes)
      case Err(code) => Broken(code)
      case Ok(h) =>
        if h.len > MAX_FRAME_LEN then Broken(TooLarge004)
        else if |bytes| < HEADER_LEN + h.len then Incomplete
        else Got(Frame(h, bytes[HEADER_LEN..HEADER_LEN + h.len]))
  }

  lemma HeadIsWire(bytes: seq<byte>)
    requires HeadOf(bytes).Got?
    ensures ValidFrame(HeadOf(bytes).frame)
    ensures Size(HeadOf(bytes).frame) <= |bytes|
    ensures bytes[..Size(HeadOf(bytes).frame)] == Wire(HeadOf(bytes).frame)
  {
    HeaderDecodeRoundTrip(bytes);
    var f := HeadOf(bytes).frame;
    assert bytes[..Size(f)] == bytes[..HEADER_LEN] + bytes[HEADER_LEN..Size(f)];
  }

  lemma WireHasHead(f: Frame, rest: seq<byte>)
    requires ValidFrame(f)
    ensures HeadOf(Wire(f) + rest) == Got(f)
  {
    HeaderRoundTrip(f.header, f.payload + rest);
    assert Wire(f) + rest == HeaderBytes(f.header) + (f.payload + rest);
    assert (Wire(f) + rest)[HEADER_LEN..Size(f)] == f.payload;
  }

  // What a stream starts with never changes as more bytes arrive, once it is decided.
  lemma HeadIsStable(bytes: seq<byte>, rest: seq<byte>)
    requires !HeadOf(bytes).Incomplete?
    ensures HeadOf(bytes + rest) == HeadOf(bytes)
  {
    if |bytes| >= HEADER_LEN {
      DecodeDependsOnHeader(bytes, rest);
      match DecodeHeader(bytes)
      case Err(_) =>
      case Ok(h) =>
        if 0 <= h.len && HEADER_LEN + h.len <= |bytes| {
          assert (bytes + rest)[HEADER_LEN..HEADER_LEN + h.len] == bytes[HEADER_LEN..HEADER_LEN + h.len];
        }
    }
  }

  lemma DecodeDependsOnHeader(bytes: seq<byte>, rest: seq<byte>)
    requires |bytes| >= HEADER_LEN
    ensures DecodeHeader(bytes + rest) == DecodeHeader(bytes)
  {
    assert forall i :: 0 <= i < HEADER_LEN ==> (bytes + rest)[i] == bytes[i];
  }

  // The frames a byte stream carries: as many as can be read off its front.
  function Parse(bytes: seq<byte>): seq<Frame>
    decreases |bytes|
  {
    match HeadOf(bytes)
    case Got(f) =>
      HeadIsWire(bytes);
      [f] + Parse(bytes[Size(f)..])
    case _ => []
  }

  lemma {:induction false} WireAllConcat(fs: seq<Frame>, gs: seq<Frame>)
    requires AllValid(fs) && AllValid(gs)
    ensures WireAll(fs + gs) == WireAll(fs) + WireAll(gs)
  {
    hide Wire;
    if gs == [] {
      assert fs + gs == fs;
    } else {
      var n, both := |gs| - 1, fs + gs;
      WireAllConcat(fs, gs[..n]);
      assert both[..|both| - 1] == fs + gs[..n] && both[|both| - 1] == gs[n];
      calc {
        WireAll(both);
        WireAll(fs + gs[..n]) + Wire(gs[n]);
        WireAll(fs) + WireAll(gs[..n]) + Wire(gs[n]);
        WireAll(fs) + (WireAll(gs[..n]) + Wire(gs[n]));
        WireAll(fs) + WireAll(gs);
      }
    }
  }

  lemma WireAllFront(f: Frame, fs: seq<Frame>)
    requires ValidFrame(f) && AllValid(fs)
    ensures WireAll([f] + fs) == Wire(f) + WireAll(fs)
  {
    WireAllConcat([f], fs);
    assert [f][..0] == [];
    assert WireAll([f]) == Wire(f);
  }

  // Parsing undoes the wire encoding of any sequence of frames and leaves what follows
  // them, so no other sequence of frames has the same bytes.
  lemma {:induction false} ParseWireAll(fs: seq<Frame>, rest: seq<byte>)
    requires AllValid(fs)
    ensures Parse(WireAll(fs) + rest) == fs + Parse(rest)
    decreases |fs|
  {
    hide HeaderBytes, DecodeHeader;
    if fs == [] {
      assert WireAll(fs) + rest == rest;
    } else {
      var f, tail := fs[0], fs[1..];
      assert fs == [f] + tail;
      WireAllFront(f, tail);
      var bytes := WireAll(fs) + rest;
      assert bytes == Wire(f) + (WireAll(tail) + rest);
      WireHasHead(f, WireAll(tail) + rest);
      assert bytes[Size(f)..] == WireAll(tail) + rest;
      ParseWireAll(tail, rest);
    }
  }

  // Unique decodability: if one stream starts with the encodings of two frame
  // sequences, the shorter sequence is a prefix of the longer one.
  lemma WireIsPrefixFree(fs: seq<Frame>, r: seq<byte>, gs: seq<Frame>, s: seq<byte>)
    requires AllValid(fs) && AllValid(gs)
    requires WireAll(fs) + r == WireAll(gs) + s
    requires |fs| <= |gs|
    ensures fs <= gs
  {
    ParseWireAll(fs, r);
    ParseWireAll(gs, s);
    assert fs == (fs + Parse(r))[..|fs|] == (gs + Parse(s))[..|fs|];
  }

  lemma FramesAreDone(fs: seq<Frame>, done: seq<Frame>, tail: seq<byte>)
    requires AllValid(fs) && AllValid(done) && WireAll(fs) == WireAll(done) + tail
    ensures fs == done + Parse(tail)
  {
    hide WireAll, HeadOf;
    ParseWireAll(fs, []);
    ParseWireAll(done, tail);
    NothingParses();
    assert WireAll(fs) + [] == WireAll(fs) && fs + [] == fs;
  }

  lemma NothingParses()
    ensures Parse([]) == [] && WireAll([]) == []
  {
  }

  // Where whole frames of a stream end, the rest of it is whole frames again.
  lemma RestIsFrames(fs: seq<Frame>, done: seq<Frame>, tail: seq<byte>) returns (rest: seq<Frame>)
    requires AllValid(fs) && AllValid(done) && WireAll(fs) == WireAll(done) + tail
    ensures fs == done + rest && AllValid(rest) && WireAll(rest) == tail
  {
    hide WireAll, Wire, HeadOf, Parse, AllValid;
    FramesAreDone(fs, done, tail);
    rest := Parse(tail);
    AllValidSplits(done, rest);
    WireAllConcat(done, rest);
    SameTail(WireAll(done), WireAll(rest), tail);
  }

  lemma AllValidSplits(a: seq<Frame>, b: seq<Frame>)
    requires AllValid(a + b)
    ensures AllValid(a) && AllValid(b)
  {
    hide ValidFrame;
    assert forall i :: 0 <= i < |b| ==> b[i] == (a + b)[|a| + i];
    assert forall i :: 0 <= i < |a| ==> a[i] == (a + b)[i];
  }

  lemma SameTail(a: seq<byte>, x: seq<byte>, y: seq<byte>)
    requires a + x == a + y
    ensures x == y
  {
    assert (a + x)[|a|..] == x && (a + y)[|a|..] == y;
  }

  lemma FirstFrame(fs: seq<Frame>)
    requires AllValid(fs) && fs != []
    ensures Wire(fs[0]) <= WireAll(fs)
  {
    hide WireAll, Wire;
    assert fs == [fs[0]] + fs[1..];
    WireAllFront(fs[0], fs[1..]);
  }
}
