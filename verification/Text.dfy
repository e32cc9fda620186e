// Strings on the wire: JavaScript's UTF-16 code units, Unicode scalar values, UTF-8
// bytes and postcard strings, and the echo payloads built from them.
module Text {
  import opened Basics
  import opened Varint

  type unit = x: int | 0 <= x <= 0xffff
  type scalar = x: int | 0 <= x < 0xd800 || 0xe000 <= x <= 0x10ffff

  predicate High(u: int) {
    0xd800 <= u <= 0xdbff
  }

  predicate Low(u: int) {
    0xdc00 <= u <= 0xdfff
  }

  function Utf16One(c: scalar): seq<unit> {
    if c < 0x1_0000 then [c]
    else [0xd800 + (c - 0x1_0000) / 0x400, 0xdc00 + (c - 0x1_0000) % 0x400]
  }

  // The UTF-16 encoding of RFC 2781, section 2.1.
  function Utf16(cs: seq<scalar>): seq<unit> {
    if cs == [] then [] else Utf16One(cs[0]) + Utf16(cs[1..])
  }

  // Every surrogate is half of a pair.
  predicate Paired(s: seq<unit>) {
    if s == [] then true
    else if High(s[0]) then |s| > 1 && Low(s[1]) && Paired(s[2..])
    else !Low(s[0]) && Paired(s[1..])
  }

  // The scalar values of a paired string.
  function Scalars(s: seq<unit>): seq<scalar>
    requires Paired(s)
  {
    if s == [] then []
    else if High(s[0]) then [0x1_0000 + (s[0] - 0xd800) * 0x400 + (s[1] - 0xdc00)] + Scalars(s[2..])
    else [s[0]] + Scalars(s[1..])
  }

  function Utf8One(c: scalar): (bytes: seq<byte>)
    ensures |bytes| > 0
  {
    if c < 0x80 then [c]
    else if c < 0x800 then [0xc0 + c / 64, 0x80 + c % 64]
    else if c < 0x1_0000 then [0xe0 + c / 64 / 64, 0x80 + c / 64 % 64, 0x80 + c % 64]
    else [0xf0 + c / 64 / 64 / 64, 0x80 + c / 64 / 64 % 64, 0x80 + c / 64 % 64, 0x80 + c % 64]
  }

  function Utf8(cs: seq<scalar>): seq<byte> {
    if cs == [] then [] else Utf8One(cs[0]) + Utf8(cs[1..])
  }

  predicate Continues(bytes: seq<byte>, n: nat) {
    |bytes| > n && forall i :: 1 <= i <= n ==> 0x80 <= bytes[i] < 0xc0
  }

  // The number written by the first byte's payload and n continuation bytes.
  function Assembled(lead: int, bytes: seq<byte>, n: nat): int
    requires |bytes| > n
  {
    if n == 0 then lead else Assembled(lead, bytes, n - 1) * 64 + (bytes[n] as int - 0x80)
  }

  // A strict UTF-8 decoder's first scalar value and its length: no truncated, overlong,
  // surrogate or out-of-range sequence is accepted.
  function FirstScalar(bytes: seq<byte>): (r: Option<(scalar, nat)>)
    requires bytes != []
    ensures r.Some? ==> 0 < r.value.1 <= |bytes|
  {
    var b: int := bytes[0];
    if b < 0x80 then Some((b, 1))
    else if 0xc0 <= b < 0xe0 && Continues(bytes, 1) then
      var c := Assembled(b - 0xc0, bytes, 1);
      if 0x80 <= c < 0x800 then Some((c, 2)) else None
    else if 0xe0 <= b < 0xf0 && Continues(bytes, 2) then
      var c := Assembled(b - 0xe0, bytes, 2);
      if 0x800 <= c < 0xd800 || 0xe000 <= c < 0x1_0000 then Some((c, 3)) else None
    else if 0xf0 <= b < 0xf8 && Continues(bytes, 3) then
      var c := Assembled(b - 0xf0, bytes, 3);
      if 0x1_0000 <= c <= 0x10_ffff then Some((c, 4)) else None
    else None
  }

  function FromUtf8(bytes: seq<byte>): Option<seq<scalar>>
    decreases |bytes|
  {
    if bytes == [] then Some([])
    else match FirstScalar(bytes)
      case None => None
      case Some((c, n)) =>
        match FromUtf8(bytes[n..])
        case None => None
        case Some(cs) => Some([c] + cs)
  }

  // A postcard string: its length in bytes as a varint, then UTF-8.
  function EncodedString(s: seq<unit>): Result<seq<byte>> {
    if !Paired(s) then Err(Codec003)
    else
      var utf8 := Utf8(Scalars(s));
      match Encoded(|utf8|)
      case Err(code) => Err(code)
      case Ok(lenPrefix) => Ok(lenPrefix + utf8)
  }

  method EncodeString(s: seq<unit>) returns (r: Result<seq<byte>>)
    ensures r == EncodedString(s)
  {
    var i := 0;
    while i < |s|
      invariant 0 <= i <= |s|
      invariant Paired(s) <==> Paired(s[i..])
    {
      var u := s[i];
      if High(u) {
        if !(i + 1 < |s| && Low(s[i + 1])) {
          return Err(Codec003);
        }
        assert s[i..][2..] == s[i + 2..];
        i := i + 1;
      } else if Low(u) {
        return Err(Codec003);
      } else {
        assert s[i..][1..] == s[i + 1..];
      }
      i := i + 1;
    }
    var utf8 := Utf8(Scalars(s));
    var lenPrefix :- EncodeVarint(|utf8|);
    r := Ok(lenPrefix + utf8);
  }

  function DecodedStringAt(bytes: seq<byte>, offset: int): Result<(seq<unit>, nat)> {
    match Decoded(bytes, offset)
    case Err(code) => Err(code)
    case Ok((len, afterLen)) =>
      if len < 0 || afterLen + len > |bytes| then Err(Codec003)
      else match FromUtf8(bytes[afterLen..afterLen + len])
        case None => Err(Codec003)
        case Some(cs) => Ok((Utf16(cs), afterLen + len))
  }

  // Message and count of an echo request, and of its response.
  function EncodedEcho(message: seq<unit>, count: int): Result<seq<byte>> {
    match EncodedString(message)
    case Err(code) => Err(code)
    case Ok(text) =>
      match Encoded(count)
      case Err(code) => Err(code)
      case Ok(number) => Ok(text + number)
  }

  function DecodedEcho(bytes: seq<byte>): Result<(seq<unit>, int)> {
    match DecodedStringAt(bytes, 0)
    case Err(code) => Err(code)
    case Ok((message, afterMessage)) =>
      match Decoded(bytes, afterMessage)
      case Err(code) => Err(code)
      case Ok((count, afterCount)) =>
        if afterCount != |bytes| then Err(Codec003) else Ok((message, count))
  }

  // Whatever cannot be encoded or decoded is KELD-IPC-003.
  lemma CodecErrors(message: seq<unit>, count: int, bytes: seq<byte>)
    ensures EncodedString(message).Err? ==> EncodedString(message) == Err(Codec003)
    ensures EncodedEcho(message, count).Err? ==> EncodedEcho(message, count) == Err(Codec003)
    ensures DecodedEcho(bytes).Err? ==> DecodedEcho(bytes) == Err(Codec003)
  {
    hide FromUtf8, Scan;
    forall offset: nat
      ensures Decoded(bytes, offset).Err? ==> Decoded(bytes, offset) == Err(Codec003)
    {
      ScanIsPositional(bytes, offset, 0);
    }
  }

  // ---- UTF-16 ----

  // encodeString accepts exactly the UTF-16 encodings of scalar values.
  lemma {:induction false} PairedIsUtf16(s: seq<unit>)
    requires Paired(s)
    ensures Utf16(Scalars(s)) == s
    decreases |s|
  {
    if s != [] {
      var cs := Scalars(s);
      if High(s[0]) {
        PairedIsUtf16(s[2..]);
        assert cs[1..] == Scalars(s[2..]);
        assert Utf16One(cs[0]) == [s[0], s[1]];
        assert s == [s[0], s[1]] + s[2..];
      } else {
        PairedIsUtf16(s[1..]);
        assert cs[1..] == Scalars(s[1..]);
        assert s == [s[0]] + s[1..];
      }
    }
  }

  lemma {:induction false} Utf16IsPaired(cs: seq<scalar>)
    ensures Paired(Utf16(cs)) && Scalars(Utf16(cs)) == cs
    decreases |cs|
  {
    if cs != [] {
      var one, rest := Utf16One(cs[0]), Utf16(cs[1..]);
      Utf16IsPaired(cs[1..]);
      assert (one + rest)[|one|..] == rest;
      assert cs == [cs[0]] + cs[1..];
    }
  }

  lemma AcceptedStrings(s: seq<unit>)
    ensures Paired(s) <==> exists cs: seq<scalar> :: Utf16(cs) == s
  {
    if Paired(s) {
      PairedIsUtf16(s);
    }
    if cs: seq<scalar> :| Utf16(cs) == s {
      Utf16IsPaired(cs);
    }
  }

  // ---- UTF-8 ----

  lemma FirstOfUtf8(c: scalar, rest: seq<byte>)
    ensures FirstScalar(Utf8One(c) + rest) == Some((c, |Utf8One(c)|))
  {
    var one := Utf8One(c);
    var bytes := one + rest;
    assert forall i :: 0 <= i < |one| ==> bytes[i] == one[i];
    if c < 0x80 {
    } else if c < 0x800 {
      assert Assembled(c / 64, bytes, 1) == c;
    } else if c < 0x1_0000 {
      assert Assembled(c / 64 / 64, bytes, 1) == c / 64;
      assert Assembled(c / 64 / 64, bytes, 2) == c;
    } else {
      assert Assembled(c / 64 / 64 / 64, bytes, 1) == c / 64 / 64;
      assert Assembled(c / 64 / 64 / 64, bytes, 2) == c / 64;
      assert Assembled(c / 64 / 64 / 64, bytes, 3) == c;
    }
  }

  lemma {:induction false} Utf8RoundTrip(cs: seq<scalar>)
    ensures FromUtf8(Utf8(cs)) == Some(cs)
    decreases |cs|
  {
    hide FirstScalar, Utf8One;
    if cs != [] {
      var one, rest := Utf8One(cs[0]), Utf8(cs[1..]);
      FirstOfUtf8(cs[0], rest);
      Utf8RoundTrip(cs[1..]);
      assert (one + rest)[|one|..] == rest;
      assert cs == [cs[0]] + cs[1..];
    }
  }

  lemma FirstIsUtf8(bytes: seq<byte>)
    requires bytes != [] && FirstScalar(bytes).Some?
    ensures var (c, n) := FirstScalar(bytes).value; Utf8One(c) == bytes[..n]
  {
    hide Assembled;
    var b: int := bytes[0];
    if 0xc0 <= b < 0xe0 {
      Disassemble(b - 0xc0, bytes, 1);
    } else if 0xe0 <= b < 0xf0 {
      Disassemble(b - 0xe0, bytes, 1);
      Disassemble(b - 0xe0, bytes, 2);
    } else if 0xf0 <= b {
      Disassemble(b - 0xf0, bytes, 1);
      Disassemble(b - 0xf0, bytes, 2);
      Disassemble(b - 0xf0, bytes, 3);
    }
  }

  lemma Disassemble(lead: int, bytes: seq<byte>, n: nat)
    requires 0 < n && Continues(bytes, n)
    ensures Assembled(lead, bytes, 0) == lead
    ensures Assembled(lead, bytes, n) / 64 == Assembled(lead, bytes, n - 1)
    ensures 0x80 + Assembled(lead, bytes, n) % 64 == bytes[n]
  {
  }

  // The decoder is strict: what it accepts is the one encoding of what it returns.
  lemma {:induction false} Utf8IsStrict(bytes: seq<byte>)
    requires FromUtf8(bytes).Some?
    ensures Utf8(FromUtf8(bytes).value) == bytes
    decreases |bytes|
  {
    hide FirstScalar, Utf8One;
    if bytes != [] {
      var n := FirstScalar(bytes).value.1;
      FirstIsUtf8(bytes);
      Utf8IsStrict(bytes[n..]);
      assert bytes == bytes[..n] + bytes[n..];
      assert FromUtf8(bytes).value[1..] == FromUtf8(bytes[n..]).value;
    }
  }

  // ---- payloads ----

  lemma StringRoundTrip(before: seq<byte>, s: seq<unit>, rest: seq<byte>)
    requires EncodedString(s).Ok?
    ensures var e := EncodedString(s).value;
      DecodedStringAt(before + e + rest, |before|) == Ok((s, |before| + |e|))
  {
    hide Scan, Leb, FromUtf8, Utf8, Scalars, Utf16;
    var utf8 := Utf8(Scalars(s));
    var lenPrefix := Encoded(|utf8|).value;
    var bytes := before + EncodedString(s).value + rest;
    VarintRoundTrip(before, |utf8|, utf8 + rest);
    assert bytes == before + lenPrefix + (utf8 + rest);
    var start := |before| + |lenPrefix|;
    assert bytes[start..start + |utf8|] == utf8;
    Utf8RoundTrip(Scalars(s));
    PairedIsUtf16(s);
  }

  // An echo payload decodes to the message and count it was built from. It can be built
  // exactly for well-formed UTF-16 of at most 2^32 - 1 UTF-8 bytes and a u32 count.
  lemma EchoRoundTrip(message: seq<unit>, count: int)
    ensures EncodedEcho(message, count).Ok? <==>
            Paired(message) && |Utf8(Scalars(message))| <= MAX_U32 && 0 <= count <= MAX_U32
    ensures EncodedEcho(message, count).Ok? ==>
              DecodedEcho(EncodedEcho(message, count).value) == Ok((message, count))
  {
    hide Scan, Leb, FromUtf8, Utf8, Scalars, Utf16, Paired, DecodedStringAt;
    if EncodedEcho(message, count).Ok? {
      var text, number := EncodedString(message).value, Encoded(count).value;
      var bytes := text + number;
      StringRoundTrip([], message, number);
      assert [] + text + number == bytes;
      VarintRoundTrip(text, count, []);
      assert text + number + [] == bytes;
    }
  }

  // Conversely, a payload that decodes is an encoding of what it decodes to, except that
  // its two varints may be longer than the shortest form.
  lemma EchoDecodesFaithfully(bytes: seq<byte>)
    requires DecodedEcho(bytes).Ok?
    ensures var (message, count) := DecodedEcho(bytes).value;
      && EncodedEcho(message, count).Ok?
      && |EncodedEcho(message, count).value| <= |bytes|
      && (|EncodedEcho(message, count).value| == |bytes| ==> EncodedEcho(message, count).value == bytes)
  {
    hide Scan, Leb, FromUtf8, Utf8, Scalars, Utf16, Paired;
    var (len, afterLen) := Decoded(bytes, 0).value;
    ScanBounds(bytes, 0, 0);
    var end := afterLen + len;
    var text := bytes[afterLen..end];
    var cs := FromUtf8(text).value;
    Utf8IsStrict(text);
    Utf16IsPaired(cs);
    ScanBounds(bytes, end, 0);
    var (count, next) := Decoded(bytes, end).value;
    assert bytes == bytes[..afterLen] + text + bytes[end..];
    assert bytes[0..afterLen] == bytes[..afterLen] && bytes[end..next] == bytes[end..];
  }
}
