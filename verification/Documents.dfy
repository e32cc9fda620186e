// Result documents of the block-corpus campaigns, as far as the semantic checks read
// them, after JSON-schema validation.
module Documents {
  import opened Basics
  import opened Sorting

  // A raw sidecar receipt, as a campaign records it.
  datatype RawFile = RawFile(path: string, sha256: string, bytes: int, block: int, tier: string, arm: string)

  datatype Receipt = Receipt(path: string, sha256: string)

  datatype Block = Block(block: int, valid: bool, observations: int, raw: Option<Receipt>)

  datatype Corpus = Corpus(blockUnit: string, blocks: seq<Block>, digestChain: string)

  // Counts, and the names of the numeric statistics and confidence intervals present.
  datatype Statistics = Statistics(validSamples: int, observations: int, numeric: set<string>, intervals: set<string>)

  datatype Arm = Arm(armId: string, corpus: Corpus, statistics: Statistics, artifactRoles: seq<string>)

  datatype Comparison = Comparison(baselineArm: string, candidateArm: string)

  datatype Document = Document(
    metricId: string,
    payloadTier: string,
    payloadBytes: int,
    handshakeIncluded: bool,
    requestedSamples: int,
    harness: Receipt,
    modules: seq<Receipt>,
    arms: seq<Arm>,
    comparisons: seq<Comparison>,
    policyVersion: int,
    eligible: bool,
    reasonCodes: seq<string>)

  // A SHA-256 digest as hexdigest writes it. Hashing itself is any function.
  type Digest = s: string | IsDigest(s) witness seq(64, _ => '0')

  predicate IsDigest(s: string) {
    |s| == 64 && forall i :: 0 <= i < |s| ==> HexDigit(s[i])
  }

  type Hash = seq<byte> -> Digest

  predicate HexDigit(c: char) {
    '0' <= c <= '9' || 'a' <= c <= 'f' || 'A' <= c <= 'F'
  }

  function HexValue(c: char): (v: int)
    requires HexDigit(c)
    ensures 0 <= v < 16
  {
    if c <= '9' then c as int - '0' as int
    else if c <= 'F' then c as int - 'A' as int + 10
    else c as int - 'a' as int + 10
  }

  predicate Space(c: char) {
    c as int in {9, 10, 11, 12, 13, 32}
  }

  // bytes.fromhex: two digits a byte, with white space allowed between bytes.
  function FromHex(s: string): Option<seq<byte>>
    decreases |s|
  {
    if s == [] then Some([])
    else if Space(s[0]) then FromHex(s[1..])
    else if |s| < 2 || !HexDigit(s[0]) || !HexDigit(s[1]) then None
    else match FromHex(s[2..])
      case None => None
      case Some(bytes) => Some([HexValue(s[0]) * 16 + HexValue(s[1])] + bytes)
  }

  const LOWER := "0123456789abcdef"
  const UPPER := "0123456789ABCDEF"
  const BLANKS := " \t\n\r\U{0b}\U{0c}"

  predicate IsDigit(c: char, v: int) {
    0 <= v < 16 && (c == LOWER[v] || c == UPPER[v])
  }

  // The string spells the bytes, two digits each, with blanks before, between and after.
  ghost predicate Spells(s: string, bytes: seq<byte>)
    decreases |s|
  {
    if s == [] then bytes == []
    else
      || (s[0] in BLANKS && Spells(s[1..], bytes))
      || (|s| >= 2 && bytes != [] && IsDigit(s[0], bytes[0] / 16) && IsDigit(s[1], bytes[0] % 16)
          && Spells(s[2..], bytes[1..]))
  }

  lemma HexDigitIsExact(c: char, v: int)
    ensures HexDigit(c) ==> IsDigit(c, HexValue(c))
    ensures IsDigit(c, v) ==> HexDigit(c) && v == HexValue(c)
    ensures Space(c) <==> c in BLANKS
    ensures HexDigit(c) ==> c !in BLANKS
  {
  }

  // Decoding succeeds exactly on such strings, with the bytes they spell.
  lemma {:induction false} FromHexIsExact(s: string, bytes: seq<byte>)
    ensures FromHex(s) == Some(bytes) <==> Spells(s, bytes)
    decreases |s|
  {
    hide HexDigit, HexValue, Space, IsDigit;
    if s != [] {
      HexDigitIsExact(s[0], if bytes == [] then 0 else bytes[0] / 16);
      FromHexIsExact(s[1..], bytes);
      if |s| >= 2 {
        HexDigitIsExact(s[1], if bytes == [] then 0 else bytes[0] % 16);
        if bytes != [] {
          FromHexIsExact(s[2..], bytes[1..]);
          assert bytes == [bytes[0]] + bytes[1..];
        }
      }
    }
  }

  lemma {:induction false} HexDecodes(s: string)
    requires |s| % 2 == 0 && forall i :: 0 <= i < |s| ==> HexDigit(s[i])
    ensures FromHex(s).Some? && |FromHex(s).value| == |s| / 2
    decreases |s|
  {
    if s != [] {
      HexDecodes(s[2..]);
    }
  }

  lemma DigestDecodes(d: Digest)
    ensures FromHex(d).Some? && |FromHex(d).value| == 32
  {
    HexDecodes(d);
  }

  function BlockBefore(a: Block, b: Block): bool {
    a.block < b.block
  }

  // sorted(blocks, key=block)
  function SortBlocks(blocks: seq<Block>): seq<Block> {
    Sort(blocks, BlockBefore)
  }

  function BlockId(b: Block): int {
    b.block
  }

  function Ids(blocks: seq<Block>): (ids: seq<int>)
    ensures |ids| == |blocks| && forall i :: 0 <= i < |ids| ==> ids[i] == blocks[i].block
  {
    Map(BlockId, blocks)
  }

  // range(1, n + 1)
  function OneTo(n: int): (ids: seq<int>)
    ensures |ids| == Max(n, 0) && forall i :: 0 <= i < |ids| ==> ids[i] == i + 1
  {
    if n <= 0 then [] else seq(n, i => i + 1)
  }

  // Sorting ids and comparing with 1..n says that each of 1..n occurs exactly once and
  // nothing else does, in whatever order.
  lemma SortedIdsAreOneTo(ids: seq<int>, n: int)
    ensures Sort(ids, Less) == OneTo(n) <==> multiset(ids) == multiset(OneTo(n))
  {
    SortPermutes(ids, Less);
    SortSorts(ids, Less);
    if multiset(ids) == multiset(OneTo(n)) {
      AscendingIsUnique(Sort(ids, Less), OneTo(n));
    }
  }

  // Blocks already carrying 1..n in order stay as they are.
  lemma {:induction false} InOrderIsSorted(blocks: seq<Block>)
    requires forall i :: 0 <= i < |blocks| ==> blocks[i].block == i + 1
    ensures SortBlocks(blocks) == blocks
    decreases |blocks|
  {
    if blocks != [] {
      var n := |blocks| - 1;
      InOrderIsSorted(blocks[..n]);
      InsertLast(blocks[n], blocks[..n]);
      assert blocks == blocks[..n] + [blocks[n]];
    }
  }

  lemma {:induction false} InsertLast(b: Block, sorted: seq<Block>)
    requires forall i :: 0 <= i < |sorted| ==> sorted[i].block <= b.block
    ensures Insert(b, sorted, BlockBefore) == sorted + [b]
    decreases |sorted|
  {
    if sorted != [] {
      InsertLast(b, sorted[1..]);
    }
  }

  function ValidBlocks(blocks: seq<Block>): (valid: seq<Block>)
    ensures forall b :: b in valid ==> b in blocks && b.valid
  {
    if blocks == [] then []
    else
      var last := blocks[|blocks| - 1];
      ValidBlocks(blocks[..|blocks| - 1]) + if last.valid then [last] else []
  }

  function Observations(blocks: seq<Block>): int {
    if blocks == [] then 0 else Observations(blocks[..|blocks| - 1]) + blocks[|blocks| - 1].observations
  }

  function Paths(blocks: seq<Block>): seq<string> {
    if blocks == [] then []
    else
      var raw := blocks[|blocks| - 1].raw;
      Paths(blocks[..|blocks| - 1]) + if raw.Some? then [raw.value.path] else []
  }

  lemma {:induction false} PathsConcat(a: seq<Block>, b: seq<Block>)
    ensures Paths(a + b) == Paths(a) + Paths(b)
    decreases |b|
  {
    if b == [] {
      assert a + b == a;
    } else {
      assert (a + b)[..|a + b| - 1] == a + b[..|b| - 1];
      PathsConcat(a, b[..|b| - 1]);
    }
  }

  lemma {:induction false} PathsInsert(b: Block, sorted: seq<Block>)
    ensures multiset(Paths(Insert(b, sorted, BlockBefore))) == multiset(Paths(sorted)) + multiset(Paths([b]))
    decreases |sorted|
  {
    hide Paths;
    if sorted == [] || BlockBefore(b, sorted[0]) {
      PathsConcat([b], sorted);
    } else {
      PathsInsert(b, sorted[1..]);
      PathsConcat([sorted[0]], Insert(b, sorted[1..], BlockBefore));
      PathsConcat([sorted[0]], sorted[1..]);
      assert sorted == [sorted[0]] + sorted[1..];
    }
  }

  // Sorting blocks reorders their raw paths.
  lemma {:induction false} PathsOfSorted(blocks: seq<Block>)
    ensures multiset(Paths(SortBlocks(blocks))) == multiset(Paths(blocks))
    decreases |blocks|
  {
    hide Paths;
    if blocks != [] {
      var n := |blocks| - 1;
      PathsOfSorted(blocks[..n]);
      PathsInsert(blocks[n], SortBlocks(blocks[..n]));
      PathsConcat(blocks[..n], [blocks[n]]);
      assert blocks == blocks[..n] + [blocks[n]];
    }
  }

  // The valid blocks are all of them, as often as they occur.
  lemma {:induction false} ValidBlocksAreAll(blocks: seq<Block>, b: Block)
    ensures multiset(ValidBlocks(blocks))[b] == if b.valid then multiset(blocks)[b] else 0
    decreases |blocks|
  {
    if blocks != [] {
      ValidBlocksAreAll(blocks[..|blocks| - 1], b);
      assert blocks == blocks[..|blocks| - 1] + [blocks[|blocks| - 1]];
    }
  }

  // The bytes the digest chain covers, unless some block has no usable hash.
  function Chained(blocks: seq<Block>): Option<seq<byte>> {
    if blocks == [] then Some([])
    else
      var before, raw := Chained(blocks[..|blocks| - 1]), blocks[|blocks| - 1].raw;
      if before.None? || raw.None? then None
      else match FromHex(raw.value.sha256)
        case None => None
        case Some(bytes) => Some(before.value + bytes)
  }
}
