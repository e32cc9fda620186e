// The two IPC campaigns from the output files of their benchmark processes to the result
// documents: whatever was measured, every document they assemble passes the checker.
module Campaigns {
  import opened Basics
  import opened Sorting
  import opened Documents
  import opened ResultContract
  import opened BlockResult
  import opened TierStatistics
  import Bootstrap

  const SESSIONS := 20
  const CALLS := 100_000
  const RUST := "rust"
  const BUN := "bun"
  const RUST_ARM := "rust-library-floor"
  const BUN_ARM := "bun-product-client"
  const INDEPENDENT := "independent-session"
  const RUST_ROLES := ["rust-client", "rust-server"]
  const BUN_ROLES := ["host-runner", "bun-runtime"]

  datatype Tier = Small | Representative {
    function Name(): string {
      if Small? then "small" else "representative"
    }

    function PayloadBytes(): int {
      if Small? then 6 else 1024
    }
  }

  // One benchmark process's output file: its contents, the round-trip times it lists, and
  // whether all the checks on its other fields pass.
  datatype Output = Output(content: seq<byte>, deltas: seq<int>, sound: bool)

  predicate Loadable(o: Output) {
    o.content != [] && o.sound && |o.deltas| == CALLS
  }

  predicate AllLoadable(outputs: seq<Output>) {
    forall i :: 0 <= i < |outputs| ==> Loadable(outputs[i])
  }

  // Only load_raw, of the product campaign, looks at the times themselves.
  predicate NoneNegative(o: Output) {
    forall k :: 0 <= k < |o.deltas| ==> o.deltas[k] >= 0
  }

  predicate AllPlausible(outputs: seq<Output>) {
    && AllLoadable(outputs)
    && forall i, k :: 0 <= i < |outputs| && 0 <= k < |outputs[i].deltas| ==> outputs[i].deltas[k] >= 0
  }

  function Times(outputs: seq<Output>): (deltas: seq<seq<int>>)
    ensures |deltas| == |outputs| && forall i :: 0 <= i < |outputs| ==> deltas[i] == outputs[i].deltas
  {
    seq(|outputs|, i requires 0 <= i < |outputs| => outputs[i].deltas)
  }

  lemma TimesFit(outputs: seq<Output>)
    requires outputs != [] && AllLoadable(outputs)
    ensures Measured(Times(outputs), CALLS)
    ensures AllPlausible(outputs) ==> NonNegative(Times(outputs))
  {
  }

  // What a campaign publishes: one document and one set of statistics for each tier.
  datatype Results<T> = Results(documents: seq<Document>, tiers: seq<T>)

  // What a campaign run fixes for all its documents: the parts of its file names, the
  // measured thermal state, its own source and those of its other modules.
  datatype Setup = Setup(date: string, cacheState: string, thermal: string, harness: seq<byte>, modules: seq<Receipt>)

  // thermal_publication_reason
  function ThermalReasons(state: string): seq<string> {
    if state == "nominal" then []
    else if state == "throttled" then ["THERMAL_THROTTLED"]
    else ["THERMAL_STATE_UNVERIFIED"]
  }

  // publication_reasons_for_thermal
  function Reasons(state: string, paired: bool): seq<string> {
    ThermalReasons(state)
    + [if paired then "PRODUCT_CLIENT_VS_LIBRARY_FLOOR_DIAGNOSTIC" else "NO_SAME_SESSION_PAIRED_RUST_ARM"]
  }

  function HarnessPath(paired: bool): string {
    "linux/keld/kipc-bun-echo/" + if paired then "paired_campaign.py" else "campaign.py"
  }

  function SettingsOf(setup: Setup, tier: Tier, paired: bool, hash: Hash): Settings {
    var own := Receipt(HarnessPath(paired), hash(setup.harness));
    Settings(tier.Name(), tier.PayloadBytes(), SESSIONS, own, [own] + setup.modules, Reasons(setup.thermal, paired))
  }

  // What either campaign's settings say of a tier, its payload and its own source.
  lemma SettingsSay(setup: Setup, tier: Tier, paired: bool, hash: Hash)
    ensures var s := SettingsOf(setup, tier, paired, hash);
      && s.tier == (if tier == Small then "small" else "representative")
      && s.payloadBytes == (if tier == Small then 6 else 1024)
      && s.requested == 20
      && s.harness == Receipt(HarnessPath(paired), hash(setup.harness)) && s.modules == [s.harness] + setup.modules
      && s.reasons == Reasons(setup.thermal, paired)
  {
    hide Reasons, HarnessPath;
  }

  lemma HarnessPathsSay()
    ensures HarnessPath(true) == "linux/keld/kipc-bun-echo/paired_campaign.py"
    ensures HarnessPath(false) == "linux/keld/kipc-bun-echo/campaign.py"
  {
  }

  // Why its results are not published.
  lemma ReasonsSay(thermal: string, paired: bool)
    ensures var own :=
        if paired then "PRODUCT_CLIENT_VS_LIBRARY_FLOOR_DIAGNOSTIC" else "NO_SAME_SESSION_PAIRED_RUST_ARM";
      Reasons(thermal, paired) ==
      if thermal == "nominal" then [own]
      else [if thermal == "throttled" then "THERMAL_THROTTLED" else "THERMAL_STATE_UNVERIFIED", own]
  {
  }

  // The settings of either campaign are in order, and no document claims to be eligible.
  lemma SettingsAlwaysFit(setup: Setup, tier: Tier, paired: bool, hash: Hash)
    ensures SettingsFit(SettingsOf(setup, tier, paired, hash))
    ensures SettingsOf(setup, tier, paired, hash).reasons != []
  {
    assert |SettingsOf(setup, tier, paired, hash).harness.sha256| == 64;
  }

  // Whatever raw files were loaded, a document either campaign assembles from matching
  // inputs has no problems.
  lemma CampaignSatisfiesChecker(
      setup: Setup, tier: Tier, paired: bool, inputs: seq<ArmInput>, arms: seq<Arm>, comparisons: seq<Comparison>,
      rawFiles: seq<RawFile>, blockUnit: string, registry: Registry, hash: Hash)
    ensures var s := SettingsOf(setup, tier, paired, hash);
      Assembled(s, inputs, arms, comparisons, rawFiles, blockUnit, CALLS, hash) ==>
        Consistent(ResultDocument(s, arms, comparisons), registry, hash)
  {
    hide Assembled, Consistent, SettingsFit, SettingsOf;
    var s := SettingsOf(setup, tier, paired, hash);
    SettingsAlwaysFit(setup, tier, paired, hash);
    AssembledSatisfiesChecker(s, inputs, arms, comparisons, rawFiles, blockUnit, CALLS, registry, hash);
  }

  // ---- raw files ----

  function Digit(d: int): char
    requires 0 <= d < 10
  {
    ('0' as int + d) as char
  }

  // {n:02d}
  function TwoDigits(n: int): string
    requires 0 <= n < 100
  {
    [Digit(n / 10), Digit(n % 10)]
  }

  function Path(stem: string, n: int): string
    requires 0 <= n < 100
  {
    stem + TwoDigits(n) + ".raw.json"
  }

  lemma PathsDiffer(stem: string, m: int, n: int)
    requires 0 <= m < 100 && 0 <= n < 100 && m != n
    ensures Path(stem, m) != Path(stem, n)
  {
    var a, b, k := Path(stem, m), Path(stem, n), |stem|;
    assert a[k] == Digit(m / 10) && a[k + 1] == Digit(m % 10);
    assert b[k] == Digit(n / 10) && b[k + 1] == Digit(n % 10);
    assert m == m / 10 * 10 + m % 10 && n == n / 10 * 10 + n % 10;
  }

  function Stem(setup: Setup, arm: string, tier: Tier): string {
    "linux/bench/results/ipc-rtt/" + setup.date
    + (if arm == "" then ".kel90-linux-bun-100k-" else ".kel90-linux-paired-" + arm + "-100k-")
    + tier.Name() + "." + setup.cacheState + if arm == "" then ".s" else ".r"
  }

  // How raw files are called: date, campaign and arm, tier, cache state, and the number of
  // the session or round in two digits.
  lemma PathsSay(setup: Setup, arm: string, tier: Tier, n: int)
    requires 1 <= n <= 20
    ensures Path(Stem(setup, arm, tier), n) ==
            Stem(setup, arm, tier) + [('0' as int + n / 10) as char, ('0' as int + n % 10) as char] + ".raw.json"
    ensures Stem(setup, "", tier) ==
            "linux/bench/results/ipc-rtt/" + setup.date + ".kel90-linux-bun-100k-"
            + (if tier == Small then "small" else "representative") + "." + setup.cacheState + ".s"
    ensures arm != "" ==>
              Stem(setup, arm, tier) ==
              "linux/bench/results/ipc-rtt/" + setup.date + (".kel90-linux-paired-" + arm + "-100k-")
              + (if tier == Small then "small" else "representative") + "." + setup.cacheState + ".r"
  {
  }

  // The receipt of one output; the product campaign names no arm.
  function FileOf(setup: Setup, arm: string, tier: Tier, n: int, o: Output, hash: Hash): RawFile
    requires 0 <= n < 100
  {
    RawFile(Path(Stem(setup, arm, tier), n), hash(o.content), |o.content|, n, tier.Name(), arm)
  }

  function FilesOf(setup: Setup, arm: string, tier: Tier, outputs: seq<Output>, hash: Hash): (files: seq<RawFile>)
    requires |outputs| < 100
    ensures |files| == |outputs|
    ensures forall i :: 0 <= i < |files| ==> files[i] == FileOf(setup, arm, tier, i + 1, outputs[i], hash)
  {
    seq(|outputs|, i requires 0 <= i < |outputs| => FileOf(setup, arm, tier, i + 1, outputs[i], hash))
  }

  lemma FilesFit(setup: Setup, arm: string, tier: Tier, outputs: seq<Output>, hash: Hash)
    requires 0 < |outputs| < 100 && AllLoadable(outputs)
    ensures Fit(FilesOf(setup, arm, tier, outputs, hash))
  {
    hide Path, Stem;
    var files := FilesOf(setup, arm, tier, outputs, hash);
    assert FileIds(files) == OneTo(|files|);
    forall i, j | 0 <= i < j < |files|
      ensures FilePaths(files)[i] != FilePaths(files)[j]
    {
      PathsDiffer(Stem(setup, arm, tier), i + 1, j + 1);
    }
    forall f | f in files
      ensures ReceiptFits(f)
    {
      var i :| 0 <= i < |files| && files[i] == f;
      DigestDecodes(hash(outputs[i].content));
    }
  }

  // One more receipt of the same kind.
  lemma FilesGrow(setup: Setup, arm: string, tier: Tier, outputs: seq<Output>, i: nat, hash: Hash)
    requires i < |outputs| < 100
    ensures FilesOf(setup, arm, tier, outputs[..i + 1], hash)
         == FilesOf(setup, arm, tier, outputs[..i], hash) + [FileOf(setup, arm, tier, i + 1, outputs[i], hash)]
  {
    hide FileOf;
  }

  lemma {:induction false} SelectedConcat(a: seq<RawFile>, b: seq<RawFile>, tier: string, arm: Option<string>)
    ensures Selected(a + b, tier, arm) == Selected(a, tier, arm) + Selected(b, tier, arm)
    decreases |b|
  {
    if b == [] {
      assert a + b == a;
    } else {
      assert (a + b)[..|a + b| - 1] == a + b[..|b| - 1];
      SelectedConcat(a, b[..|b| - 1], tier, arm);
    }
  }

  lemma SelectedOne(f: RawFile, tier: string, arm: Option<string>)
    ensures Selected([f], tier, arm) == if Matches(f, tier, arm) then [f] else []
  {
    assert [f][..0] == [];
  }

  // raw_files.sort(key=path)
  function PathBefore(a: RawFile, b: RawFile): bool {
    StringBefore(a.path, b.path)
  }

  function StringBefore(a: string, b: string): bool {
    if b == [] then false
    else if a == [] then true
    else a[0] < b[0] || (a[0] == b[0] && StringBefore(a[1..], b[1..]))
  }

  // The order of strings: at their first difference, or by length if there is none.
  lemma {:induction false} StringsCompare(a: string, b: string)
    ensures StringBefore(a, b) <==>
            exists k :: 0 <= k <= |a| && k < |b| && a[..k] == b[..k] && (k == |a| || a[k] < b[k])
    decreases |a|
  {
    if a != [] && b != [] {
      StringsCompare(a[1..], b[1..]);
      if a[0] < b[0] {
        assert a[..0] == b[..0];
      } else if a[0] == b[0] {
        if StringBefore(a[1..], b[1..]) {
          var k :| 0 <= k <= |a[1..]| && k < |b[1..]| && a[1..][..k] == b[1..][..k]
            && (k == |a[1..]| || a[1..][k] < b[1..][k]);
          assert a[..k + 1] == [a[0]] + a[1..][..k] && b[..k + 1] == [b[0]] + b[1..][..k];
        }
        forall k | 1 <= k <= |a| && k < |b| && a[..k] == b[..k] && (k == |a| || a[k] < b[k])
          ensures StringBefore(a[1..], b[1..])
        {
          assert a[1..][..k - 1] == a[..k][1..] && b[1..][..k - 1] == b[..k][1..];
        }
      }
    } else if b != [] {
      assert a[..0] == b[..0];
    }
  }

  // Receipts in block order are determined by the receipts.
  lemma InOrderIsUnique(a: seq<RawFile>, b: seq<RawFile>)
    requires multiset(a) == multiset(b) && FileIds(a) == OneTo(|a|) && FileIds(b) == OneTo(|b|)
    ensures a == b
  {
    assert |a| == |multiset(a)| == |multiset(b)| == |b|;
    forall i | 0 <= i < |a|
      ensures a[i] == b[i]
    {
      assert a[i] in multiset(b);
      var j :| 0 <= j < |b| && b[j] == a[i];
      assert FileIds(a)[i] == i + 1 && FileIds(b)[j] == j + 1;
    }
  }

  // After sorting all receipts by path, those of one kind still make a ledger, whose
  // blocks are the outputs in the order they were measured.
  lemma StillBuildable(
      rawFiles: seq<RawFile>, setup: Setup, arm: string, tier: Tier, select: Option<string>, outputs: seq<Output>,
      hash: Hash)
    requires 0 < |outputs| < 100 && AllLoadable(outputs)
    requires Selected(rawFiles, tier.Name(), select) == FilesOf(setup, arm, tier, outputs, hash)
    ensures var sorted := Sort(rawFiles, PathBefore);
      && Buildable(sorted, tier.Name(), select, CALLS)
      && |Selected(sorted, tier.Name(), select)| == |outputs|
      && SortFiles(Selected(sorted, tier.Name(), select)) == FilesOf(setup, arm, tier, outputs, hash)
  {
    hide Selected, Sort, Fit, FileOf, SortFiles;
    var sorted, files := Sort(rawFiles, PathBefore), FilesOf(setup, arm, tier, outputs, hash);
    SortPermutes(rawFiles, PathBefore);
    SelectedPermutes(rawFiles, sorted, tier.Name(), select);
    FilesFit(setup, arm, tier, outputs, hash);
    FitPermutes(Selected(sorted, tier.Name(), select), files);
    FilesIds(setup, arm, tier, outputs, hash);
    SortedFilesFit(Selected(sorted, tier.Name(), select));
    MapPermutes(FileId, Selected(sorted, tier.Name(), select), files);
    InOrderIsUnique(SortFiles(Selected(sorted, tier.Name(), select)), files);
  }

  lemma FilesIds(setup: Setup, arm: string, tier: Tier, outputs: seq<Output>, hash: Hash)
    requires |outputs| < 100
    ensures FileIds(FilesOf(setup, arm, tier, outputs, hash)) == OneTo(|outputs|)
  {
  }

  function SessionsOf(files: seq<RawFile>, outputs: seq<Output>): (sessions: seq<Loaded>)
    requires |files| == |outputs|
    ensures |sessions| == |outputs| && forall i :: 0 <= i < |sessions| ==> sessions[i].deltas == |outputs[i].deltas|
  {
    seq(|outputs|, i requires 0 <= i < |outputs| => Loaded(files[i], |outputs[i].deltas|))
  }

  // Arm k of the document has the outputs as its blocks, in the order they were measured.
  ghost predicate Records(
      d: Document, k: nat, setup: Setup, arm: string, tier: Tier, outputs: seq<Output>, hash: Hash)
    requires |outputs| < 100
  {
    k < |d.arms| && d.arms[k].corpus.blocks == BlocksOf(FilesOf(setup, arm, tier, outputs, hash), CALLS)
  }

  // The document says what the settings of its tier say.
  predicate Carries(d: Document, setup: Setup, tier: Tier, paired: bool, hash: Hash) {
    d == ResultDocument(SettingsOf(setup, tier, paired, hash), d.arms, d.comparisons)
  }

  // Whatever was measured, it is an IPC-RTT document without the handshake that no policy
  // may publish.
  lemma DocumentsSay(d: Document, setup: Setup, tier: Tier, paired: bool, hash: Hash)
    requires Carries(d, setup, tier, paired, hash)
    ensures d.metricId == "IPC-RTT" && !d.handshakeIncluded && !d.eligible && d.policyVersion == 3
    ensures d.payloadTier == tier.Name() && d.payloadBytes == tier.PayloadBytes() && d.requestedSamples == 20
    ensures d.reasonCodes == Reasons(setup.thermal, paired)
    ensures d.harness == Receipt(HarnessPath(paired), hash(setup.harness)) && d.harness in d.modules
  {
    hide HarnessPath;
  }

  lemma InputFits(
      rawFiles: seq<RawFile>, setup: Setup, arm: string, tier: Tier, input: ArmInput, outputs: seq<Output>, hash: Hash)
    requires |outputs| == SESSIONS && AllLoadable(outputs)
    requires Selected(rawFiles, tier.Name(), input.rawArm) == FilesOf(setup, arm, tier, outputs, hash)
    requires input.sessions == SessionsOf(FilesOf(setup, arm, tier, outputs, hash), outputs)
    requires input.artifactRoles in {RUST_ROLES, BUN_ROLES}
    ensures var sorted := Sort(rawFiles, PathBefore);
      && Buildable(sorted, tier.Name(), input.rawArm, CALLS)
      && SortFiles(Selected(sorted, tier.Name(), input.rawArm)) == FilesOf(setup, arm, tier, outputs, hash)
      && ArmInputFits(input, sorted, tier.Name(), CALLS) && |input.sessions| == SESSIONS
      && input.artifactRoles != []
  {
    hide Selected, Sort, Fit, FileOf, SortFiles;
    StillBuildable(rawFiles, setup, arm, tier, input.rawArm, outputs, hash);
    assert RUST_ROLES[0][5] == 'c' && RUST_ROLES[1][5] == 's';
    assert BUN_ROLES[0][0] == 'h' && BUN_ROLES[1][0] == 'b';
  }

  // ipc_arm on the receipts of one kind, which cannot fail.
  method MeasuredArm(
      rawFiles: seq<RawFile>, setup: Setup, arm: string, tier: Tier, input: ArmInput, outputs: seq<Output>,
      blockUnit: string, hash: Hash)
    returns (r: Result<Arm>)
    requires |outputs| == SESSIONS && AllLoadable(outputs)
    requires Selected(rawFiles, tier.Name(), input.rawArm) == FilesOf(setup, arm, tier, outputs, hash)
    requires input.sessions == SessionsOf(FilesOf(setup, arm, tier, outputs, hash), outputs)
    requires input.artifactRoles in {RUST_ROLES, BUN_ROLES}
    ensures var sorted := Sort(rawFiles, PathBefore);
      && r.Ok? && IsArm(r.value, input, sorted, tier.Name(), blockUnit, CALLS, hash)
      && ArmInputFits(input, sorted, tier.Name(), CALLS) && |input.sessions| == SESSIONS
      && r.value.armId == input.armId && r.value.artifactRoles == input.artifactRoles
      && r.value.corpus.blocks == BlocksOf(FilesOf(setup, arm, tier, outputs, hash), CALLS)
  {
    hide Selected, Sort, SortFiles, Fit, FilesOf, ArmInputFits, BlocksOf, SessionsOf, Buildable, AllLoadable;
    InputFits(rawFiles, setup, arm, tier, input, outputs, hash);
    r := IpcArm(input, Sort(rawFiles, PathBefore), tier.Name(), blockUnit, CALLS, hash);
  }

  // ---- the product campaign ----

  // The settings of the tier, and its one arm session by session.
  ghost predicate ReportsSessions(d: Document, setup: Setup, tier: Tier, outputs: seq<Output>, hash: Hash)
    requires |outputs| == SESSIONS
  {
    && Carries(d, setup, tier, false, hash) && |d.arms| == 1 && d.comparisons == []
    && Records(d, 0, setup, "", tier, outputs, hash)
    && d.arms[0].armId == "bun-product-client" && d.arms[0].artifactRoles == ["host-runner", "bun-runtime"]
  }

  method ProductDocument(
      setup: Setup, tier: Tier, rawFiles: seq<RawFile>, outputs: seq<Output>, registry: Registry, hash: Hash)
    returns (r: Result<Document>)
    requires |outputs| == SESSIONS && AllLoadable(outputs)
    requires Selected(rawFiles, tier.Name(), None) == FilesOf(setup, "", tier, outputs, hash)
    ensures r.Ok? && ReportsSessions(r.value, setup, tier, outputs, hash) && Consistent(r.value, registry, hash)
  {
    hide Selected, Sort, SortFiles, Fit, FilesOf, Consistent, ArmInputFits, SettingsFit, BlocksOf, SessionsOf;
    hide Buildable, AllLoadable, IsArm;
    var files := FilesOf(setup, "", tier, outputs, hash);
    var input := ArmInput(BUN_ARM, None, SessionsOf(files, outputs), BUN_ROLES);
    var sorted := Sort(rawFiles, PathBefore);
    var arm := MeasuredArm(rawFiles, setup, "", tier, input, outputs, INDEPENDENT, hash);
    var s := SettingsOf(setup, tier, false, hash);
    var d := ResultDocument(s, [arm.value], []);
    CampaignSatisfiesChecker(setup, tier, false, [input], [arm.value], [], sorted, INDEPENDENT, registry, hash);
    var problems := SemanticProblems(d, registry, hash);
    if |problems| > 0 {
      return Err(Codec003);
    }
    r := Ok(d);
  }

  // The outputs of both tiers, session by session, loaded as they are written.
  method LoadSessions(setup: Setup, small: seq<Output>, representative: seq<Output>, hash: Hash)
    returns (r: Result<seq<RawFile>>)
    requires |small| == |representative| == SESSIONS
    ensures r.Ok? <==> AllPlausible(small) && AllPlausible(representative)
    ensures r.Ok? ==>
              && Selected(r.value, Small.Name(), None) == FilesOf(setup, "", Small, small, hash)
              && Selected(r.value, Representative.Name(), None) ==
                 FilesOf(setup, "", Representative, representative, hash)
    ensures r.Err? ==> r.code == Codec003
  {
    hide Selected, FilesOf, FileOf, Loadable;
    var rawFiles: seq<RawFile> := [];
    NothingSelected(setup, hash);
    for i := 0 to SESSIONS
      invariant AllPlausible(small[..i]) && AllPlausible(representative[..i])
      invariant Selected(rawFiles, Small.Name(), None) == FilesOf(setup, "", Small, small[..i], hash)
      invariant Selected(rawFiles, Representative.Name(), None) ==
                FilesOf(setup, "", Representative, representative[..i], hash)
    {
      if !Loadable(small[i]) || !NoneNegative(small[i]) {
        return Err(Codec003);
      }
      if !Loadable(representative[i]) || !NoneNegative(representative[i]) {
        return Err(Codec003);
      }
      var first := FileOf(setup, "", Small, i + 1, small[i], hash);
      var second := FileOf(setup, "", Representative, i + 1, representative[i], hash);
      TwoMore(rawFiles, first, second, setup, small, representative, i, hash);
      rawFiles := rawFiles + [first, second];
    }
    assert small[..SESSIONS] == small && representative[..SESSIONS] == representative;
    r := Ok(rawFiles);
  }

  // campaign.main after its pilots, and write_v3_results. environment says that the
  // environment receipt could be taken; draws are the random choices, the same for every
  // bootstrap since each starts from the same seed. Beyond that only an output that does
  // not load and a p99 interval that ends at zero stop it: the checker never objects.
  method RunProductCampaign(
      setup: Setup, small: seq<Output>, representative: seq<Output>, draws: seq<seq<nat>>, environment: bool,
      registry: Registry, hash: Hash)
    returns (r: Result<Results<(TierStats, real)>>)
    requires |small| == |representative| == SESSIONS && Bootstrap.Draws(draws, SESSIONS)
    ensures r.Ok? <==>
            && AllPlausible(small) && AllPlausible(representative) && environment
            && !NoHeadroom(Times(small), draws) && !NoHeadroom(Times(representative), draws)
    ensures r.Ok? ==>
              && |r.value.documents| == |r.value.tiers| == 2
              && ReportsSessions(r.value.documents[0], setup, Small, small, hash)
              && ReportsSessions(r.value.documents[1], setup, Representative, representative, hash)
              && (forall i :: 0 <= i < 2 ==> Consistent(r.value.documents[i], registry, hash))
              && Describes(r.value.tiers[0].0, Times(small), CALLS, draws)
              && Describes(r.value.tiers[1].0, Times(representative), CALLS, draws)
    ensures r.Err? ==> r.code == Codec003
  {
    hide Selected, FilesOf, Consistent, ReportsSessions, NoHeadroom, Describes, Measured, NonNegative;
    hide Bootstrap.Draws;
    var rawFiles :- LoadSessions(setup, small, representative, hash);
    TimesFit(small);
    TimesFit(representative);
    var first := TierStatistics.TierStatistics(Times(small), CALLS, draws);
    if first.None? {
      return Err(Codec003);
    }
    var second := TierStatistics.TierStatistics(Times(representative), CALLS, draws);
    if second.None? || !environment {
      return Err(Codec003);
    }
    var one := ProductDocument(setup, Small, rawFiles, small, registry, hash);
    var two := ProductDocument(setup, Representative, rawFiles, representative, registry, hash);
    r := Ok(Results([one.value, two.value], [first.value, second.value]));
  }

  lemma NothingSelected(setup: Setup, hash: Hash)
    ensures forall tier: Tier, arm: string, select: Option<string> ::
              Selected([], tier.Name(), select) == FilesOf(setup, arm, tier, [], hash)
  {
  }

  lemma TwoMore(
      rawFiles: seq<RawFile>, first: RawFile, second: RawFile, setup: Setup,
      small: seq<Output>, representative: seq<Output>, i: nat, hash: Hash)
    requires i < |small| < 100 && i < |representative| < 100
    requires first == FileOf(setup, "", Small, i + 1, small[i], hash)
    requires second == FileOf(setup, "", Representative, i + 1, representative[i], hash)
    requires Selected(rawFiles, Small.Name(), None) == FilesOf(setup, "", Small, small[..i], hash)
    requires Selected(rawFiles, Representative.Name(), None) ==
             FilesOf(setup, "", Representative, representative[..i], hash)
    ensures var longer := rawFiles + [first, second];
      && Selected(longer, Small.Name(), None) == FilesOf(setup, "", Small, small[..i + 1], hash)
      && Selected(longer, Representative.Name(), None) ==
         FilesOf(setup, "", Representative, representative[..i + 1], hash)
  {
    hide Selected, FilesOf, Path, Stem;
    assert rawFiles + [first, second] == rawFiles + [first] + [second];
    assert first.tier != second.tier by { assert |first.tier| != |second.tier|; }
    forall tier: Tier
      ensures Selected(rawFiles + [first, second], tier.Name(), None) ==
              Selected(rawFiles, tier.Name(), None)
              + Selected([first], tier.Name(), None) + Selected([second], tier.Name(), None)
    {
      SelectedConcat(rawFiles, [first], tier.Name(), None);
      SelectedConcat(rawFiles + [first], [second], tier.Name(), None);
    }
    SelectedOne(first, Small.Name(), None);
    SelectedOne(second, Small.Name(), None);
    SelectedOne(first, Representative.Name(), None);
    SelectedOne(second, Representative.Name(), None);
    FilesGrow(setup, "", Small, small, i, hash);
    FilesGrow(setup, "", Representative, representative, i, hash);
  }
}
