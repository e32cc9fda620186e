// The block-corpus builder of linux/bench/block_result.py. What it builds always satisfies
// the semantic checker.
module BlockResult {
  import opened Basics
  import opened Sorting
  import opened Documents
  import opened ResultContract

  predicate Matches(f: RawFile, tier: string, arm: Option<string>) {
    f.tier == tier && (arm.None? || f.arm == arm.value)
  }

  function Selected(rawFiles: seq<RawFile>, tier: string, arm: Option<string>): seq<RawFile> {
    if rawFiles == [] then []
    else
      var f := rawFiles[|rawFiles| - 1];
      Selected(rawFiles[..|rawFiles| - 1], tier, arm) + if Matches(f, tier, arm) then [f] else []
  }

  // The selection keeps exactly the matching receipts, each as often as it occurs.
  lemma {:induction false} SelectedAreMatching(rawFiles: seq<RawFile>, tier: string, arm: Option<string>, f: RawFile)
    ensures multiset(Selected(rawFiles, tier, arm))[f] == if Matches(f, tier, arm) then multiset(rawFiles)[f] else 0
    decreases |rawFiles|
  {
    if rawFiles != [] {
      SelectedAreMatching(rawFiles[..|rawFiles| - 1], tier, arm, f);
      assert rawFiles == rawFiles[..|rawFiles| - 1] + [rawFiles[|rawFiles| - 1]];
    }
  }

  // It does not depend on the order of the receipts.
  lemma SelectedPermutes(a: seq<RawFile>, b: seq<RawFile>, tier: string, arm: Option<string>)
    requires multiset(a) == multiset(b)
    ensures multiset(Selected(a, tier, arm)) == multiset(Selected(b, tier, arm))
    ensures |Selected(a, tier, arm)| == |Selected(b, tier, arm)|
  {
    hide Selected;
    forall f: RawFile
      ensures multiset(Selected(a, tier, arm))[f] == multiset(Selected(b, tier, arm))[f]
    {
      SelectedAreMatching(a, tier, arm, f);
      SelectedAreMatching(b, tier, arm, f);
    }
    assert multiset(Selected(a, tier, arm)) == multiset(Selected(b, tier, arm));
    assert |multiset(Selected(a, tier, arm))| == |multiset(Selected(b, tier, arm))|;
  }

  function FileBefore(a: RawFile, b: RawFile): bool {
    a.block < b.block
  }

  // selected.sort(key=block)
  function SortFiles(files: seq<RawFile>): seq<RawFile> {
    Sort(files, FileBefore)
  }

  function FileId(f: RawFile): int {
    f.block
  }

  function FilePath(f: RawFile): string {
    f.path
  }

  function FileIds(files: seq<RawFile>): (ids: seq<int>)
    ensures |ids| == |files| && forall i :: 0 <= i < |ids| ==> ids[i] == files[i].block
  {
    Map(FileId, files)
  }

  function FilePaths(files: seq<RawFile>): (paths: seq<string>)
    ensures |paths| == |files| && forall i :: 0 <= i < |paths| ==> paths[i] == files[i].path
  {
    Map(FilePath, files)
  }

  function BlockOf(f: RawFile, observations: int): Block {
    Block(f.block, true, observations, Some(Receipt(f.path, f.sha256)))
  }

  function BlocksOf(files: seq<RawFile>, observations: int): (blocks: seq<Block>)
    ensures |blocks| == |files| && forall i :: 0 <= i < |blocks| ==> blocks[i] == BlockOf(files[i], observations)
  {
    seq(|files|, i requires 0 <= i < |files| => BlockOf(files[i], observations))
  }

  predicate ReceiptFits(f: RawFile) {
    |f.sha256| == 64 && FromHex(f.sha256).Some? && f.bytes >= 1
  }

  // A ledger can be built from these receipts, in whatever order they come: their ids are
  // 1..n, each once, their paths are distinct, and every hash and size is usable.
  ghost predicate Fit(files: seq<RawFile>) {
    && files != []
    && multiset(FileIds(files)) == multiset(OneTo(|files|))
    && Distinct(FilePaths(files))
    && forall f :: f in files ==> ReceiptFits(f)
  }

  ghost predicate Buildable(rawFiles: seq<RawFile>, tier: string, arm: Option<string>, observations: int) {
    observations >= 1 && Fit(Selected(rawFiles, tier, arm))
  }

  lemma FitPermutes(a: seq<RawFile>, b: seq<RawFile>)
    requires multiset(a) == multiset(b)
    ensures Fit(a) <==> Fit(b)
  {
    hide ReceiptFits;
    assert |a| == |multiset(a)| == |multiset(b)| == |b|;
    MapPermutes(FileId, a, b);
    MapPermutes(FilePath, a, b);
    DistinctPermutes(FilePaths(a), FilePaths(b));
    assert forall f :: f in a <==> f in multiset(a);
    assert forall f :: f in b <==> f in multiset(b);
  }

  // In order of their ids, fitting receipts carry exactly 1..n.
  lemma SortedFilesFit(files: seq<RawFile>)
    ensures multiset(SortFiles(files)) == multiset(files) && |SortFiles(files)| == |files|
    ensures FileIds(SortFiles(files)) == OneTo(|files|) <==> multiset(FileIds(files)) == multiset(OneTo(|files|))
  {
    var sorted := SortFiles(files);
    SortPermutes(files, FileBefore);
    SortSorts(files, FileBefore);
    MapPermutes(FileId, sorted, files);
    assert Sorted(FileIds(sorted), Less) by {
      forall i, j | 0 <= i < j < |sorted|
        ensures !Less(FileIds(sorted)[j], FileIds(sorted)[i])
      {
        assert !FileBefore(sorted[j], sorted[i]);
      }
    }
    if multiset(FileIds(sorted)) == multiset(OneTo(|files|)) {
      AscendingIsUnique(FileIds(sorted), OneTo(|files|));
    }
  }

  // The builder's ledger: the selected receipts in block order, all valid, chained. It is
  // built exactly when they fit.
  method BlockCorpus(
    rawFiles: seq<RawFile>, tier: string, arm: Option<string>, blockUnit: string, observations: int, hash: Hash)
    returns (r: Result<Corpus>)
    ensures r.Ok? <==> Buildable(rawFiles, tier, arm, observations)
    ensures r.Ok? ==> IsLedger(r.value, Selected(rawFiles, tier, arm), blockUnit, observations, hash)
    ensures r.Err? ==> r.code == Codec003
  {
    hide Selected, SortFiles, Distinct, Chained, Fit, FileIds, OneTo;
    var selected := SortFiles(Selected(rawFiles, tier, arm));
    FitSorted(Selected(rawFiles, tier, arm));
    if |selected| == 0 || FileIds(selected) != OneTo(|selected|) || observations < 1 {
      return Err(Codec003);
    }
    var blocks, digest, seenPaths := [], [], {};
    EmptyLedger();
    assert FilePaths(selected[..0]) == [];
    for i := 0 to |selected|
      invariant blocks == BlocksOf(selected[..i], observations)
      invariant Chained(blocks) == Some(digest)
      invariant forall p :: p in seenPaths <==> p in FilePaths(selected[..i])
      invariant Distinct(FilePaths(selected[..i]))
      invariant forall j :: 0 <= j < i ==> ReceiptFits(selected[j])
    {
      var item := selected[i];
      if item.path in seenPaths {
        RepeatedPath(selected, i);
        return Err(Codec003);
      }
      var bytes := FromHex(item.sha256);
      if |item.sha256| != 64 || bytes.None? || item.bytes < 1 {
        assert !ReceiptFits(selected[i]);
        return Err(Codec003);
      }
      NextReceipt(selected, i);
      ChainNext(blocks, BlockOf(item, observations));
      seenPaths := seenPaths + {item.path};
      digest := digest + bytes.value;
      blocks := blocks + [BlockOf(item, observations)];
    }
    assert selected[..|selected|] == selected;
    r := Ok(Corpus(blockUnit, blocks, hash(digest)));
  }

  // The same rule on the receipts in block order, as the builder checks it.
  lemma FitSorted(files: seq<RawFile>)
    ensures var sorted := SortFiles(files);
      Fit(files) <==>
      && sorted != [] && FileIds(sorted) == OneTo(|sorted|) && Distinct(FilePaths(sorted))
      && forall i :: 0 <= i < |sorted| ==> ReceiptFits(sorted[i])
  {
    hide ReceiptFits, SortFiles, Distinct;
    SortedFilesFit(files);
    FitPermutes(SortFiles(files), files);
  }

  ghost predicate IsLedger(c: Corpus, selected: seq<RawFile>, blockUnit: string, observations: int, hash: Hash) {
    var files := SortFiles(selected);
    && c.blockUnit == blockUnit
    && files != [] && FileIds(files) == OneTo(|files|) && Distinct(FilePaths(files))
    && c.blocks == BlocksOf(files, observations)
    && Chained(c.blocks).Some?
    && c.digestChain == hash(Chained(c.blocks).value)
  }

  lemma RepeatedPath(files: seq<RawFile>, i: nat)
    requires i < |files| && files[i].path in FilePaths(files[..i])
    ensures !Distinct(FilePaths(files))
  {
    var j :| 0 <= j < i && FilePaths(files[..i])[j] == files[i].path;
    assert FilePaths(files)[j] == FilePaths(files)[i];
  }

  lemma NextReceipt(files: seq<RawFile>, i: nat)
    requires i < |files| && files[i].path !in FilePaths(files[..i]) && Distinct(FilePaths(files[..i]))
    ensures FilePaths(files[..i + 1]) == FilePaths(files[..i]) + [files[i].path]
    ensures Distinct(FilePaths(files[..i + 1]))
  {
  }

  lemma EmptyLedger()
    ensures Chained([]) == Some([]) && Distinct<string>([])
  {
  }

  lemma ChainNext(blocks: seq<Block>, b: Block)
    requires Chained(blocks).Some? && b.raw.Some? && FromHex(b.raw.value.sha256).Some?
    ensures Chained(blocks + [b]) == Some(Chained(blocks).value + FromHex(b.raw.value.sha256).value)
  {
    assert (blocks + [b])[..|blocks|] == blocks;
  }

  // ---- the ledger satisfies the checker ----

  lemma BlocksSplit(files: seq<RawFile>, observations: int)
    requires files != []
    ensures var n, blocks := |files| - 1, BlocksOf(files, observations);
      && blocks[..n] == BlocksOf(files[..n], observations)
      && blocks == BlocksOf(files[..n], observations) + [BlockOf(files[n], observations)]
      && FilePaths(files) == FilePaths(files[..n]) + [files[n].path]
  {
  }

  lemma {:induction false} AllBlocksValid(files: seq<RawFile>, observations: int)
    ensures ValidBlocks(BlocksOf(files, observations)) == BlocksOf(files, observations)
    ensures Observations(BlocksOf(files, observations)) == |files| * observations
    ensures Paths(BlocksOf(files, observations)) == FilePaths(files)
    decreases |files|
  {
    hide BlocksOf, FilePaths;
    if files != [] {
      AllBlocksValid(files[..|files| - 1], observations);
      BlocksSplit(files, observations);
      assert |files| * observations == (|files| - 1) * observations + observations;
    }
  }

  lemma OrderedIdsAreDistinct(n: int)
    ensures Distinct(OneTo(n))
  {
  }

  lemma LedgerSatisfiesChecker(arm: Arm, selected: seq<RawFile>, blockUnit: string, observations: int, hash: Hash)
    requires IsLedger(arm.corpus, selected, blockUnit, observations, hash)
    requires arm.statistics.validSamples == |selected| && arm.statistics.observations == |selected| * observations
    ensures ArmOk(arm, |selected|, hash)
  {
    hide SortBlocks, ValidBlocks, Observations, Paths, Chained, SortFiles, Distinct;
    var files := SortFiles(selected);
    SortedFilesFit(selected);
    AllBlocksValid(files, observations);
    InOrderIsSorted(arm.corpus.blocks);
    OrderedIdsAreDistinct(|files|);
    assert Ids(arm.corpus.blocks) == OneTo(|files|);
  }

  // One loaded raw file: its receipt and how many deltas load_raw found in it.
  datatype Loaded = Loaded(receipt: RawFile, deltas: nat)

  function PooledCalls(sessions: seq<Loaded>): nat {
    if sessions == [] then 0 else PooledCalls(sessions[..|sessions| - 1]) + sessions[|sessions| - 1].deltas
  }

  lemma {:induction false} PooledIsProduct(sessions: seq<Loaded>, calls: nat)
    requires forall i :: 0 <= i < |sessions| ==> sessions[i].deltas == calls
    ensures PooledCalls(sessions) == |sessions| * calls
    decreases |sessions|
  {
    if sessions != [] {
      PooledIsProduct(sessions[..|sessions| - 1], calls);
      assert |sessions| * calls == (|sessions| - 1) * calls + calls;
    }
  }

  const NUMERIC := {"median", "p90", "p99", "max"}
  const INTERVALS := {"median", "p99"}

  // tier_statistics and ipc_statistics_us, as far as the checker reads them.
  function StatisticsOf(sessions: seq<Loaded>): Statistics {
    Statistics(|sessions|, PooledCalls(sessions), NUMERIC, INTERVALS)
  }

  // What a campaign passes for one arm: its sessions, and measured artifacts.
  datatype ArmInput = ArmInput(armId: string, rawArm: Option<string>, sessions: seq<Loaded>, artifactRoles: seq<string>)

  // The receipts selected for the arm are those of its sessions, each with the required
  // number of calls, and the artifacts have distinct roles.
  predicate ArmInputFits(input: ArmInput, rawFiles: seq<RawFile>, tier: string, calls: nat) {
    && |Selected(rawFiles, tier, input.rawArm)| == |input.sessions|
    && (forall i :: 0 <= i < |input.sessions| ==> input.sessions[i].deltas == calls)
    && input.artifactRoles != [] && Distinct(input.artifactRoles)
  }

  // ipc_arm
  method IpcArm(input: ArmInput, rawFiles: seq<RawFile>, tier: string, blockUnit: string, calls: nat, hash: Hash)
    returns (r: Result<Arm>)
    ensures r.Ok? ==> IsArm(r.value, input, rawFiles, tier, blockUnit, calls, hash)
    ensures r.Ok? <==> input.artifactRoles != [] && Buildable(rawFiles, tier, input.rawArm, calls)
    ensures r.Err? ==> r.code == Codec003
  {
    hide Selected, SortFiles, Fit;
    if |input.artifactRoles| == 0 {
      return Err(Codec003);
    }
    var corpus :- BlockCorpus(rawFiles, tier, input.rawArm, blockUnit, calls, hash);
    r := Ok(Arm(input.armId, corpus, StatisticsOf(input.sessions), input.artifactRoles));
  }

  ghost predicate IsArm(
      arm: Arm, input: ArmInput, rawFiles: seq<RawFile>, tier: string, blockUnit: string, calls: nat, hash: Hash)
  {
    && arm.armId == input.armId && arm.artifactRoles == input.artifactRoles
    && arm.statistics == StatisticsOf(input.sessions)
    && IsLedger(arm.corpus, Selected(rawFiles, tier, input.rawArm), blockUnit, calls, hash)
  }

  // The parts of a campaign's documents that do not depend on its arms.
  datatype Settings = Settings(
    tier: string, payloadBytes: int, requested: int, harness: Receipt, modules: seq<Receipt>, reasons: seq<string>)

  // Both campaigns list their own harness among its modules.
  predicate SettingsFit(s: Settings) {
    s.tier != "" && s.payloadBytes >= 1 && s.harness.path != "" && s.harness.sha256 != "" && s.harness in s.modules
  }

  // ipc_result_document
  function ResultDocument(s: Settings, arms: seq<Arm>, comparisons: seq<Comparison>): Document {
    Document(IPC_RTT, s.tier, s.payloadBytes, false, s.requested, s.harness, s.modules, arms, comparisons,
             3, s.reasons == [], s.reasons)
  }

  // An eligible result must also be as large as the registry asks.
  predicate MeetsRegistry(s: Settings, registry: Registry, blockUnit: string, calls: nat) {
    s.reasons == [] && IPC_RTT in registry ==>
      var p := registry[IPC_RTT];
      && p.sessionsMin <= s.requested && p.callsPerSession <= calls && blockUnit in p.allowedUnits
      && p.requiredStatistics <= NUMERIC && p.requiredIntervals <= INTERVALS
  }

  // Arms built from matching inputs, compared only when paired.
  ghost predicate Assembled(
      s: Settings, inputs: seq<ArmInput>, arms: seq<Arm>, comparisons: seq<Comparison>, rawFiles: seq<RawFile>,
      blockUnit: string, calls: nat, hash: Hash)
  {
    && inputs != [] && |arms| == |inputs|
    && (forall i :: 0 <= i < |inputs| ==>
          ArmInputFits(inputs[i], rawFiles, s.tier, calls) && |inputs[i].sessions| == s.requested
          && IsArm(arms[i], inputs[i], rawFiles, s.tier, blockUnit, calls, hash))
    && (comparisons != [] ==> blockUnit == PAIRED)
    && (forall i :: 0 <= i < |comparisons| ==> Names(arms, comparisons[i]))
  }

  // Both sides of the comparison are arms of the document.
  ghost predicate Names(arms: seq<Arm>, c: Comparison) {
    exists j, k :: 0 <= j < |arms| && 0 <= k < |arms|
      && arms[j].armId == c.baselineArm && arms[k].armId == c.candidateArm
  }

  // Whatever raw files were loaded, a document assembled from matching inputs has no
  // problems, unless it claims to be eligible and the registry asks for more.
  lemma AssembledSatisfiesChecker(
      s: Settings, inputs: seq<ArmInput>, arms: seq<Arm>, comparisons: seq<Comparison>, rawFiles: seq<RawFile>,
      blockUnit: string, calls: nat, registry: Registry, hash: Hash)
    ensures SettingsFit(s) && MeetsRegistry(s, registry, blockUnit, calls)
            && Assembled(s, inputs, arms, comparisons, rawFiles, blockUnit, calls, hash) ==>
              Consistent(ResultDocument(s, arms, comparisons), registry, hash)
  {
    hide Selected, SortFiles, ValidBlocks, IsArm, ArmInputFits, ArmOk, Distinct, Fits, ComparisonOk, MetricOk;
    hide PolicyOk, Names;
    if SettingsFit(s) && MeetsRegistry(s, registry, blockUnit, calls)
      && Assembled(s, inputs, arms, comparisons, rawFiles, blockUnit, calls, hash) {
      forall i | 0 <= i < |arms|
        ensures ArmOk(arms[i], s.requested, hash) && Fits(arms[i], s, blockUnit, calls)
      {
        BuiltArmFits(s, arms[i], inputs[i], rawFiles, blockUnit, calls, hash);
      }
      forall i | 0 <= i < |comparisons|
        ensures ComparisonOk(comparisons[i], CorpusArms(arms))
      {
        ArmsCompare(s, arms, comparisons[i], blockUnit, calls);
      }
      ArmsMeetPolicy(s, arms, comparisons, blockUnit, calls, registry);
    }
  }

  lemma ArmsCompare(s: Settings, arms: seq<Arm>, c: Comparison, blockUnit: string, calls: nat)
    ensures blockUnit == PAIRED && Names(arms, c) && (forall arm :: arm in arms ==> Fits(arm, s, blockUnit, calls)) ==>
              ComparisonOk(c, CorpusArms(arms))
  {
    hide ValidBlocks, Distinct;
    var named := CorpusArms(arms);
    NamedAreListed(arms);
    if blockUnit == PAIRED && Names(arms, c) && forall arm :: arm in arms ==> Fits(arm, s, blockUnit, calls) {
      SameIds(named[c.baselineArm], named[c.candidateArm], s, blockUnit, calls);
    }
  }

  lemma ArmsMeetPolicy(
      s: Settings, arms: seq<Arm>, comparisons: seq<Comparison>, blockUnit: string, calls: nat, registry: Registry)
    requires SettingsFit(s) && arms != [] && MeetsRegistry(s, registry, blockUnit, calls)
    requires forall i :: 0 <= i < |arms| ==> Fits(arms[i], s, blockUnit, calls)
    ensures var d, named := ResultDocument(s, arms, comparisons), CorpusArms(arms);
      MetricOk(d, named) && PolicyOk(d, named, registry)
  {
    hide ValidBlocks, Distinct, CorpusArms, Fits, ArmMeets, MeetsRegistry;
    var named := CorpusArms(arms);
    NamedAreListed(arms);
    assert arms[0].armId in named;
    forall id | id in named
      ensures Distinct(named[id].artifactRoles) && named[id].artifactRoles != []
      ensures IPC_RTT in registry && s.reasons == [] ==> ArmMeets(named[id], registry[IPC_RTT])
    {
      ArmMeetsPolicy(s, named[id], blockUnit, calls, registry);
    }
    MetricAndPolicy(s, arms, comparisons, named, registry);
  }

  lemma MetricAndPolicy(
      s: Settings, arms: seq<Arm>, comparisons: seq<Comparison>, named: map<string, Arm>, registry: Registry)
    requires SettingsFit(s) && |named| > 0
    requires forall id :: id in named ==> Distinct(named[id].artifactRoles) && named[id].artifactRoles != []
    requires IPC_RTT in registry && s.reasons == [] ==>
               forall id :: id in named ==> ArmMeets(named[id], registry[IPC_RTT])
    ensures var d := ResultDocument(s, arms, comparisons); MetricOk(d, named) && PolicyOk(d, named, registry)
  {
    hide ArmMeets, Distinct;
  }

  lemma ArmMeetsPolicy(s: Settings, arm: Arm, blockUnit: string, calls: nat, registry: Registry)
    requires MeetsRegistry(s, registry, blockUnit, calls) && Fits(arm, s, blockUnit, calls)
    ensures Distinct(arm.artifactRoles) && arm.artifactRoles != []
    ensures IPC_RTT in registry && s.reasons == [] ==> ArmMeets(arm, registry[IPC_RTT])
  {
    hide ValidBlocks, Distinct;
  }

  // What the cross-arm checks need of each arm.
  predicate Fits(arm: Arm, s: Settings, blockUnit: string, calls: nat) {
    && arm.corpus.blockUnit == blockUnit && |arm.corpus.blocks| == s.requested
    && Ids(arm.corpus.blocks) == OneTo(s.requested)
    && (forall b :: b in arm.corpus.blocks ==> b.valid && b.observations == calls)
    && ValidBlocks(arm.corpus.blocks) == arm.corpus.blocks
    && arm.statistics.numeric == NUMERIC && arm.statistics.intervals == INTERVALS
    && arm.artifactRoles != [] && Distinct(arm.artifactRoles)
  }

  lemma BuiltArmFits(
      s: Settings, arm: Arm, input: ArmInput, rawFiles: seq<RawFile>, blockUnit: string, calls: nat, hash: Hash)
    requires ArmInputFits(input, rawFiles, s.tier, calls) && |input.sessions| == s.requested
    requires IsArm(arm, input, rawFiles, s.tier, blockUnit, calls, hash)
    ensures ArmOk(arm, s.requested, hash) && Fits(arm, s, blockUnit, calls)
  {
    hide Selected, SortFiles, ValidBlocks, ArmOk, Observations, Paths, Chained, Distinct;
    var selected := Selected(rawFiles, s.tier, input.rawArm);
    SortedFilesFit(selected);
    PooledIsProduct(input.sessions, calls);
    LedgerSatisfiesChecker(arm, selected, blockUnit, calls, hash);
    AllBlocksValid(SortFiles(selected), calls);
    assert Ids(arm.corpus.blocks) == FileIds(SortFiles(selected));
  }

  lemma {:induction false} NamedAreListed(arms: seq<Arm>)
    ensures forall id :: id in CorpusArms(arms) ==> CorpusArms(arms)[id] in arms
    decreases |arms|
  {
    if arms != [] {
      NamedAreListed(arms[..|arms| - 1]);
    }
  }

  lemma SameIds(a: Arm, b: Arm, s: Settings, blockUnit: string, calls: nat)
    requires Fits(a, s, blockUnit, calls) && Fits(b, s, blockUnit, calls)
    ensures Ids(a.corpus.blocks) == Ids(b.corpus.blocks)
    ensures forall x :: x in a.corpus.blocks + b.corpus.blocks ==> x.valid
  {
  }

  // ---- what the checker catches ----

  // The valid blocks of an arm in block order, as the checker feeds them to the digest.
  function Fed(arm: Arm): seq<Block> {
    SortBlocks(ValidBlocks(arm.corpus.blocks))
  }

  // Every block's raw file has a full digest.
  predicate Sealed(blocks: seq<Block>) {
    forall i :: 0 <= i < |blocks| ==> blocks[i].raw.Some? && IsDigest(blocks[i].raw.value.sha256)
  }

  lemma {:induction false} ChainLength(blocks: seq<Block>)
    requires Sealed(blocks)
    ensures Chained(blocks).Some? && |Chained(blocks).value| == |blocks| * 32
    decreases |blocks|
  {
    if blocks != [] {
      var n := |blocks| - 1;
      ChainLength(blocks[..n]);
      DigestDecodes(blocks[n].raw.value.sha256);
    }
  }

  lemma {:induction false} ChainIsInjective(a: seq<Block>, b: seq<Block>)
    requires Sealed(a) && Sealed(b) && Chained(a) == Chained(b)
    ensures |a| == |b|
    ensures forall i :: 0 <= i < |a| ==> FromHex(a[i].raw.value.sha256) == FromHex(b[i].raw.value.sha256)
    decreases |a|
  {
    hide FromHex, IsDigest, Chained;
    ChainLength(a);
    ChainLength(b);
    assert |a| * 32 == |b| * 32;
    if a != [] {
      var n := |a| - 1;
      LastLink(a);
      LastLink(b);
      ChainIsInjective(a[..n], b[..n]);
    }
  }

  // The last 32 bytes of the chain are the last block's digest.
  lemma LastLink(blocks: seq<Block>)
    requires Sealed(blocks) && blocks != []
    ensures var n := |blocks| - 1;
      && Chained(blocks).Some? && |Chained(blocks).value| == n * 32 + 32
      && Chained(blocks[..n]) == Some(Chained(blocks).value[..n * 32])
      && FromHex(blocks[n].raw.value.sha256) == Some(Chained(blocks).value[n * 32..])
  {
    hide FromHex, IsDigest;
    ChainLength(blocks[..|blocks| - 1]);
    DigestDecodes(blocks[|blocks| - 1].raw.value.sha256);
  }

  // A document whose digest chain was made for other raw files is reported: if two arms
  // pass with the same chain, and hashing does not collide on the bytes they chain, then
  // they have as many valid blocks and, block by block, the same raw digests.
  lemma DigestChainBindsRawFiles(a: Arm, b: Arm, requested: int, hash: Hash)
    ensures ArmOk(a, requested, hash) && ArmOk(b, requested, hash) && Sealed(Fed(a)) && Sealed(Fed(b))
            && (hash(Bytes(a)) == hash(Bytes(b)) ==> Bytes(a) == Bytes(b))
            && a.corpus.digestChain == b.corpus.digestChain ==>
              |Fed(a)| == |Fed(b)|
              && forall i :: 0 <= i < |Fed(a)| ==>
                FromHex(Fed(a)[i].raw.value.sha256) == FromHex(Fed(b)[i].raw.value.sha256)
  {
    hide SortBlocks, ValidBlocks, Chained;
    if Sealed(Fed(a)) && Sealed(Fed(b)) {
      ChainLength(Fed(a));
      ChainLength(Fed(b));
      if Bytes(a) == Bytes(b) {
        ChainIsInjective(Fed(a), Fed(b));
      }
    }
  }

  // The bytes an arm's digest covers, none when some block has no usable hash.
  function Bytes(arm: Arm): seq<byte> {
    var chained := Chained(Fed(arm));
    if chained.Some? then chained.value else []
  }
}
