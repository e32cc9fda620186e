// The semantic checker of schema/result_contract.py: it collects problems arm by arm,
// comparison by comparison, and reports none exactly for consistent documents.
module ResultContract {
  import opened Basics
  import opened Documents
  import opened Sorting

  datatype Problem =
    | BlockCount | BlockIds | DuplicateIds | ValidSamples | ObservationSum | DuplicatePaths | DigestChain
    | ComparisonArms | ComparisonUnit | ComparisonIds | ComparisonRejected
    | PayloadTier | PayloadBytes | Handshake | ArtifactRoles | NoArtifacts
    | PolicyVersion | NoCorpus | TooFewBlocks | TooFewObservations | UnitNotAllowed | MissingStatistic | MissingInterval
    | HarnessEligible | HarnessUnproven

  // The registry's block-corpus sample policy for a metric.
  datatype SamplePolicy = SamplePolicy(
    sessionsMin: int, callsPerSession: int, allowedUnits: set<string>,
    requiredStatistics: set<string>, requiredIntervals: set<string>)

  type Registry = map<string, SamplePolicy>

  const PAIRED := "paired-session-round"
  const IPC_RTT := "IPC-RTT"
  const UNPROVEN := "HARNESS_MODULES_UNPROVEN"

  function When(bad: bool, p: Problem): seq<Problem> {
    if bad then [p] else []
  }

  // ---- one arm ----

  ghost predicate ArmOk(arm: Arm, requested: int, hash: Hash) {
    var blocks := arm.corpus.blocks;
    var valid := ValidBlocks(blocks);
    && |blocks| == requested
    && multiset(Ids(blocks)) == multiset(OneTo(requested))
    && Distinct(Ids(blocks))
    && arm.statistics.validSamples == |valid|
    && arm.statistics.observations == Observations(valid)
    && Distinct(Paths(valid))
    && var chained := Chained(SortBlocks(valid));
    (chained.Some? ==> arm.corpus.digestChain == hash(chained.value))
  }

  method ArmProblems(arm: Arm, requested: int, hash: Hash) returns (problems: seq<Problem>)
    ensures problems == [] <==> ArmOk(arm, requested, hash)
  {
    hide SortBlocks, Observations, ValidBlocks, Paths, Chained, Sort, Distinct;
    var blocks := arm.corpus.blocks;
    problems := When(|blocks| != requested, BlockCount);
    SortedIdsAreOneTo(Ids(blocks), requested);
    problems := problems + When(Sort(Ids(blocks), Less) != OneTo(requested), BlockIds);
    problems := problems + When(!Distinct(Ids(blocks)), DuplicateIds);
    var valid, observations := Tally(blocks);
    problems := problems + When(arm.statistics.validSamples != |valid|, ValidSamples);
    problems := problems + When(arm.statistics.observations != observations, ObservationSum);
    var rawPaths, chained := WalkReceipts(SortBlocks(valid));
    PathsOfSorted(valid);
    DistinctPermutes(rawPaths, Paths(valid));
    problems := problems + When(!Distinct(rawPaths), DuplicatePaths);
    problems := problems + When(chained.Some? && arm.corpus.digestChain != hash(chained.value), DigestChain);
  }

  method Tally(blocks: seq<Block>) returns (valid: seq<Block>, observations: int)
    ensures valid == ValidBlocks(blocks) && observations == Observations(valid)
  {
    valid, observations := [], 0;
    for i := 0 to |blocks|
      invariant valid == ValidBlocks(blocks[..i]) && observations == Observations(valid)
    {
      assert blocks[..i + 1][..i] == blocks[..i];
      if blocks[i].valid {
        assert (valid + [blocks[i]])[..|valid|] == valid;
        valid := valid + [blocks[i]];
        observations := observations + blocks[i].observations;
      }
    }
    assert blocks[..|blocks|] == blocks;
  }

  // Collects raw paths and feeds the running digest, in block order.
  method WalkReceipts(blocks: seq<Block>) returns (rawPaths: seq<string>, chained: Option<seq<byte>>)
    ensures rawPaths == Paths(blocks) && chained == Chained(blocks)
  {
    rawPaths, chained := [], Some([]);
    for i := 0 to |blocks|
      invariant rawPaths == Paths(blocks[..i]) && chained == Chained(blocks[..i])
    {
      assert blocks[..i + 1][..i] == blocks[..i];
      var raw := blocks[i].raw;
      if raw.None? {
        chained := None;
      } else {
        rawPaths := rawPaths + [raw.value.path];
        var bytes := FromHex(raw.value.sha256);
        chained := if chained.None? || bytes.None? then None else Some(chained.value + bytes.value);
      }
    }
    assert blocks[..|blocks|] == blocks;
  }

  // ---- comparisons ----

  // The corpus arms by name; a repeated name keeps the last.
  function CorpusArms(arms: seq<Arm>): (named: map<string, Arm>)
    ensures forall id :: id in named <==> exists i :: 0 <= i < |arms| && arms[i].armId == id
  {
    if arms == [] then map[]
    else CorpusArms(arms[..|arms| - 1])[arms[|arms| - 1].armId := arms[|arms| - 1]]
  }

  predicate ComparisonOk(c: Comparison, named: map<string, Arm>) {
    if c.baselineArm !in named && c.candidateArm !in named then true
    else if c.baselineArm !in named || c.candidateArm !in named then false
    else
      var a, b := named[c.baselineArm].corpus, named[c.candidateArm].corpus;
      && a.blockUnit == PAIRED && b.blockUnit == PAIRED
      && Ids(a.blocks) == Ids(b.blocks)
      && forall x :: x in a.blocks + b.blocks ==> x.valid
  }

  method ComparisonProblems(c: Comparison, named: map<string, Arm>) returns (problems: seq<Problem>)
    ensures problems == [] <==> ComparisonOk(c, named)
  {
    if c.baselineArm !in named && c.candidateArm !in named {
      return [];
    }
    if c.baselineArm !in named || c.candidateArm !in named {
      return [ComparisonArms];
    }
    var a, b := named[c.baselineArm].corpus, named[c.candidateArm].corpus;
    problems := When(a.blockUnit != PAIRED || b.blockUnit != PAIRED, ComparisonUnit);
    problems := problems + When(Ids(a.blocks) != Ids(b.blocks), ComparisonIds);
    problems := problems + When(exists x :: x in a.blocks + b.blocks && !x.valid, ComparisonRejected);
  }

  // ---- metric and publication policy ----

  predicate MetricOk(d: Document, named: map<string, Arm>) {
    d.metricId == IPC_RTT && |named| > 0 ==>
      && d.payloadTier != "" && d.payloadBytes >= 1 && !d.handshakeIncluded
      && forall id :: id in named ==>
           Distinct(named[id].artifactRoles) && (d.eligible ==> named[id].artifactRoles != [])
  }

  predicate ArmMeets(arm: Arm, p: SamplePolicy) {
    var valid := ValidBlocks(arm.corpus.blocks);
    && |valid| >= p.sessionsMin
    && (forall b :: b in valid ==> b.observations >= p.callsPerSession)
    && arm.corpus.blockUnit in p.allowedUnits
    && p.requiredStatistics <= arm.statistics.numeric
    && p.requiredIntervals <= arm.statistics.intervals
  }

  // Only an eligible result is held to the registry's policy.
  predicate PolicyOk(d: Document, named: map<string, Arm>, registry: Registry) {
    d.metricId in registry && d.eligible ==>
      && d.policyVersion >= 3
      && |named| > 0
      && forall id :: id in named ==> ArmMeets(named[id], registry[d.metricId])
  }

  method MetricProblems(d: Document, named: map<string, Arm>) returns (problems: seq<Problem>)
    ensures problems == [] <==> MetricOk(d, named)
  {
    if d.metricId != IPC_RTT || |named| == 0 {
      return [];
    }
    problems := When(d.payloadTier == "", PayloadTier);
    problems := problems + When(d.payloadBytes < 1, PayloadBytes);
    problems := problems + When(d.handshakeIncluded, Handshake);
    problems := problems + When(exists id :: id in named && !Distinct(named[id].artifactRoles), ArtifactRoles);
    problems := problems + When(d.eligible && exists id :: id in named && named[id].artifactRoles == [], NoArtifacts);
  }

  method PolicyProblems(d: Document, named: map<string, Arm>, registry: Registry) returns (problems: seq<Problem>)
    ensures problems == [] <==> PolicyOk(d, named, registry)
  {
    problems := [];
    if d.metricId !in registry || !d.eligible {
      return;
    }
    var p := registry[d.metricId];
    problems := When(d.policyVersion < 3, PolicyVersion);
    problems := problems + When(|named| == 0, NoCorpus);
    var left := named.Keys;
    while left != {}
      invariant left <= named.Keys
      invariant problems == [] <==>
        d.policyVersion >= 3 && |named| > 0 && forall id :: id in named && id !in left ==> ArmMeets(named[id], p)
      decreases |left|
    {
      var id :| id in left;
      var more := EligibleArmProblems(named[id], p);
      problems := problems + more;
      left := left - {id};
    }
  }

  method EligibleArmProblems(arm: Arm, p: SamplePolicy) returns (problems: seq<Problem>)
    ensures problems == [] <==> ArmMeets(arm, p)
  {
    var valid := ValidBlocks(arm.corpus.blocks);
    problems := When(|valid| < p.sessionsMin, TooFewBlocks);
    problems := problems + When(exists b :: b in valid && b.observations < p.callsPerSession, TooFewObservations);
    problems := problems + When(arm.corpus.blockUnit !in p.allowedUnits, UnitNotAllowed);
    problems := problems + When(!(p.requiredStatistics <= arm.statistics.numeric), MissingStatistic);
    problems := problems + When(!(p.requiredIntervals <= arm.statistics.intervals), MissingInterval);
  }

  predicate HarnessOk(d: Document) {
    (d.harness.path != "" && d.harness.sha256 != "" && d.harness in d.modules)
    || (!d.eligible && UNPROVEN in d.reasonCodes)
  }

  // A document with nothing to report. Policies before version 2 are not checked.
  ghost predicate Consistent(d: Document, registry: Registry, hash: Hash) {
    d.policyVersion >= 2 ==>
      var named := CorpusArms(d.arms);
      && HarnessOk(d)
      && (forall i :: 0 <= i < |d.arms| ==> ArmOk(d.arms[i], d.requestedSamples, hash))
      && (forall i :: 0 <= i < |d.comparisons| ==> ComparisonOk(d.comparisons[i], named))
      && MetricOk(d, named)
      && PolicyOk(d, named, registry)
  }

  // semantic_problems on a version 3 document.
  method SemanticProblems(d: Document, registry: Registry, hash: Hash) returns (problems: seq<Problem>)
    ensures problems == [] <==> Consistent(d, registry, hash)
  {
    hide ArmOk, ComparisonOk, MetricOk, PolicyOk;
    problems := [];
    if d.policyVersion < 2 {
      return;
    }
    var complete := d.harness.path != "" && d.harness.sha256 != "" && |d.modules| > 0 && d.harness in d.modules;
    if !complete {
      problems := When(d.eligible, HarnessEligible) + When(UNPROVEN !in d.reasonCodes, HarnessUnproven);
    }
    assert problems == [] <==> HarnessOk(d);
    for i := 0 to |d.arms|
      invariant problems == [] <==>
        (HarnessOk(d) && forall j :: 0 <= j < i ==> ArmOk(d.arms[j], d.requestedSamples, hash))
    {
      var more := ArmProblems(d.arms[i], d.requestedSamples, hash);
      problems := problems + more;
    }
    var named := CorpusArms(d.arms);
    for i := 0 to |d.comparisons|
      invariant problems == [] <==>
        (HarnessOk(d) && (forall j :: 0 <= j < |d.arms| ==> ArmOk(d.arms[j], d.requestedSamples, hash))
         && forall j :: 0 <= j < i ==> ComparisonOk(d.comparisons[j], named))
    {
      var more := ComparisonProblems(d.comparisons[i], named);
      problems := problems + more;
    }
    var metric := MetricProblems(d, named);
    var policy := PolicyProblems(d, named, registry);
    problems := problems + metric + policy;
  }
}
