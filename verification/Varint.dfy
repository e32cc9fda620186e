// Unsigned LEB128 varints limited to 32 bits.
module Varint {
  import opened Basics

  const MAX_U32 := 0xffff_ffff

  // The shortest encoding of n.
  function Leb(n: nat): (bytes: seq<byte>)
    ensures |bytes| > 0
  {
    if n < 128 then [n] else [128 + n % 128] + Leb(n / 128)
  }

  method EncodeVarint(n: int) returns (r: Result<seq<byte>>)
    ensures r == Encoded(n)
    ensures r.Ok? <==> 0 <= n < 0x1_0000_0000
    ensures r.Err? ==> r.code == Codec003
  {
    if n < 0 || n > MAX_U32 {
      return Err(Codec003);
    }
    var bytes: seq<byte> := [];
    var v: nat := n;
    while true
      invariant bytes + Leb(v) == Leb(n)
      decreases v
    {
      var byte := v % 128;
      v := v / 128;
      if v == 0 {
        return Ok(bytes + [byte]);
      }
      bytes := bytes + [byte + 128];
    }
  }

  function Encoded(n: int): Result<seq<byte>> {
    if 0 <= n <= MAX_U32 then Ok(Leb(n)) else Err(Codec003)
  }

  // The value of an encoding, shortest or not, and the position after it.
  function Scan(bytes: seq<byte>, pos: nat, index: nat): (r: Result<(int, nat)>)
    requires index <= 5
    decreases 5 - index
  {
    if index == 5 || pos >= |bytes| then Err(Codec003)
    else if index == 4 && bytes[pos] > 0x0f then Err(Codec003)
    else if bytes[pos] < 128 then Ok((bytes[pos] as int, pos + 1))
    else match Scan(bytes, pos + 1, index + 1)
      case Err(code) => Err(code)
      case Ok((v, next)) => Ok((bytes[pos] - 128 + 128 * v, next))
  }

  function Decoded(bytes: seq<byte>, offset: int): Result<(int, nat)> {
    if offset < 0 || offset > |bytes| then Err(Codec003) else Scan(bytes, offset, 0)
  }

  // r with every value scaled and shifted, as the accumulating loop sees it.
  function Shifted(r: Result<(int, nat)>, base: int, place: int): Result<(int, nat)> {
    match r
    case Err(code) => Err(code)
    case Ok((v, next)) => Ok((base + place * v, next))
  }

  method DecodeVarint(bytes: seq<byte>, offset: int) returns (r: Result<(int, nat)>)
    ensures r == Decoded(bytes, offset)
    ensures r.Ok? <==> offset >= 0 && exists n :: Stops(bytes, offset, 0, n)
    ensures r.Ok? ==>
              var (v, next) := r.value;
              offset < next && Stops(bytes, offset, 0, next - offset) && v == Positional(bytes[offset..next])
    ensures r.Err? ==> r.code == Codec003
  {
    if offset >= 0 {
      ScanIsPositional(bytes, offset, 0);
    }
    if offset < 0 || offset > |bytes| {
      return Err(Codec003);
    }
    hide Scan, Shifted;
    var result: int, placeValue: int, pos: nat := 0, 1, offset;
    ShiftNothing(Scan(bytes, offset, 0));
    for byteIndex := 0 to 5
      invariant pos == offset + byteIndex
      invariant Decoded(bytes, offset) == Shifted(Scan(bytes, pos, byteIndex), result, placeValue)
    {
      ShiftOne(bytes, pos, byteIndex, result, placeValue);
      if pos >= |bytes| {
        return Err(Codec003);
      }
      var byte: int := bytes[pos];
      pos := pos + 1;
      if byteIndex == 4 && byte > 0x0f {
        return Err(Codec003);
      }
      result := result + (byte % 128) * placeValue;
      if byte < 128 {
        return Ok((result, pos));
      }
      placeValue := placeValue * 128;
    }
    ShiftOne(bytes, pos, 5, result, placeValue);
    r := Err(Codec003);
  }

  lemma ShiftNothing(r: Result<(int, nat)>)
    ensures Shifted(r, 0, 1) == r
  {
  }

  lemma ShiftOne(bytes: seq<byte>, pos: nat, index: nat, base: int, place: int)
    requires index <= 5
    ensures Shifted(Scan(bytes, pos, index), base, place) ==
            if index == 5 || pos >= |bytes| || (index == 4 && bytes[pos] > 0x0f) then Err(Codec003)
            else
              var digit := bytes[pos] % 128;
              if bytes[pos] < 128 then Ok((base + digit * place, pos + 1))
              else Shifted(Scan(bytes, pos + 1, index + 1), base + digit * place, place * 128)
  {
    if index < 5 && pos < |bytes| && bytes[pos] >= 128 && Scan(bytes, pos + 1, index + 1).Ok? {
      assert bytes[pos] % 128 == bytes[pos] - 128;
      Distribute(base, place, bytes[pos] % 128, Scan(bytes, pos + 1, index + 1).value.0);
    }
  }

  lemma Distribute(base: int, place: int, digit: int, v: int)
    ensures base + place * (digit + 128 * v) == base + digit * place + place * 128 * v
  {
  }

  // n bytes from pos, all but the last with their high bit set, and no bits beyond the 32nd.
  predicate Stops(bytes: seq<byte>, pos: nat, index: nat, n: int) {
    && 1 <= n <= 5 - index && pos + n <= |bytes|
    && (forall i :: pos <= i < pos + n - 1 ==> bytes[i] >= 0x80)
    && bytes[pos + n - 1] < 0x80 && (n == 5 - index ==> bytes[pos + n - 1] <= 0x0f)
  }

  // Seven bits of each byte, the first byte's least significant.
  function Positional(bytes: seq<byte>): nat {
    if bytes == [] then 0 else bytes[0] as int % 128 + 128 * Positional(bytes[1..])
  }

  lemma StopsLater(bytes: seq<byte>, pos: nat, index: nat)
    requires pos < |bytes| && bytes[pos] >= 0x80
    ensures forall n :: Stops(bytes, pos, index, n) <==> Stops(bytes, pos + 1, index + 1, n - 1)
  {
  }

  // What decodes, to which value, and the only error.
  lemma {:induction false} ScanIsPositional(bytes: seq<byte>, pos: nat, index: nat)
    requires index <= 4
    ensures var r := Scan(bytes, pos, index);
      && (r.Ok? <==> exists n :: Stops(bytes, pos, index, n))
      && (r.Ok? ==>
            var (v, next) := r.value;
            pos < next && Stops(bytes, pos, index, next - pos) && v == Positional(bytes[pos..next]))
      && (r.Err? ==> r.code == Codec003)
    decreases 5 - index
  {
    if pos < |bytes| {
      if bytes[pos] < 0x80 {
        assert bytes[pos..pos + 1] == [bytes[pos]] && [bytes[pos]][1..] == [];
        assert (index == 4 && bytes[pos] > 0x0f) || Stops(bytes, pos, index, 1);
      } else if index < 4 {
        ScanIsPositional(bytes, pos + 1, index + 1);
        StopsLater(bytes, pos, index);
        var r := Scan(bytes, pos + 1, index + 1);
        hide Stops;
        if r.Ok? {
          var next := r.value.1;
          assert Stops(bytes, pos + 1, index + 1, next - pos - 1);
          assert Stops(bytes, pos, index, next - pos);
          assert bytes[pos..next] == [bytes[pos]] + bytes[pos + 1..next];
        }
      }
    }
  }

  // A decoded value is a u32 from at most five bytes, and its shortest encoding is no
  // longer than what was read; equally long exactly when what was read is the shortest.
  lemma {:induction false} ScanBounds(bytes: seq<byte>, pos: nat, index: nat)
    requires index <= 5 && Scan(bytes, pos, index).Ok?
    ensures var (v, next) := Scan(bytes, pos, index).value;
      && pos < next <= |bytes| && next - pos <= 5 - index
      && 0 <= v && (index == 4 ==> v < 16) && (index == 3 ==> v < 0x800) && (index == 2 ==> v < 0x4_0000)
      && (index == 1 ==> v < 0x200_0000) && (index == 0 ==> v <= MAX_U32)
      && |Leb(v)| <= next - pos
      && (|Leb(v)| == next - pos <==> Leb(v) == bytes[pos..next])
    decreases 5 - index
  {
    if bytes[pos] >= 128 {
      ScanBounds(bytes, pos + 1, index + 1);
      var (v, next) := Scan(bytes, pos + 1, index + 1).value;
      var w := bytes[pos] - 128 + 128 * v;
      assert w % 128 == bytes[pos] - 128 && w / 128 == v;
      assert bytes[pos..next] == [bytes[pos]] + bytes[pos + 1..next];
      if w >= 128 {
        assert Leb(w) == [bytes[pos]] + Leb(v);
        assert Leb(w)[1..] == Leb(v) && bytes[pos..next][1..] == bytes[pos + 1..next];
      }
    } else {
      assert bytes[pos..pos + 1] == [bytes[pos]];
    }
  }

  // Decoding reads an encoding back wherever it stands, whatever follows it.
  lemma {:induction false} ScanLeb(before: seq<byte>, n: nat, rest: seq<byte>, index: nat)
    requires index < 5
    requires index == 4 ==> n < 16
    requires index == 3 ==> n < 0x800
    requires index == 2 ==> n < 0x4_0000
    requires index == 1 ==> n < 0x200_0000
    requires index == 0 ==> n <= MAX_U32
    ensures Scan(before + Leb(n) + rest, |before|, index) == Ok((n as int, |before| + |Leb(n)|))
    decreases 5 - index
  {
    var bytes := before + Leb(n) + rest;
    if n >= 128 {
      var first := [128 + n % 128];
      assert bytes == (before + first) + Leb(n / 128) + rest;
      ScanLeb(before + first, n / 128, rest, index + 1);
    }
  }

  lemma VarintRoundTrip(before: seq<byte>, n: int, rest: seq<byte>)
    ensures Encoded(n).Ok? <==> 0 <= n <= MAX_U32
    ensures Encoded(n).Ok? ==>
              Decoded(before + Encoded(n).value + rest, |before|) == Ok((n, |before| + |Encoded(n).value|))
  {
    if 0 <= n <= MAX_U32 {
      ScanLeb(before, n, rest, 0);
    }
  }
}
