// The paired campaign: Rust and Bun measured in the same rounds, in an order that
// alternates from round to round, and compared.
module PairedCampaign {
  import opened Basics
  import opened Sorting
  import opened Documents
  import opened ResultContract
  import opened BlockResult
  import opened Campaigns
  import opened TierStatistics
  import Bootstrap

  // The outputs of both arms for one tier, round by round.
  datatype Rounds = Rounds(rust: seq<Output>, bun: seq<Output>) {
    predicate Complete() {
      |rust| == |bun| == SESSIONS
    }

    predicate Loaded() {
      AllLoadable(rust) && AllLoadable(bun)
    }
  }

  // The receipts of the first n rounds of a tier, arm by arm.
  ghost predicate Collected(rawFiles: seq<RawFile>, setup: Setup, tier: Tier, rounds: Rounds, n: nat, hash: Hash)
    requires rounds.Complete() && n <= SESSIONS
  {
    && Selected(rawFiles, tier.Name(), Some(RUST)) == FilesOf(setup, RUST, tier, rounds.rust[..n], hash)
    && Selected(rawFiles, tier.Name(), Some(BUN)) == FilesOf(setup, BUN, tier, rounds.bun[..n], hash)
  }

  lemma NothingCollected(setup: Setup, tier: Tier, rounds: Rounds, hash: Hash)
    requires rounds.Complete()
    ensures Collected([], setup, tier, rounds, 0, hash)
  {
  }

  // Both arms of one tier in one round; whichever runs first.
  method MeasureTier(
      rawFiles: seq<RawFile>, setup: Setup, tier: Tier, rounds: Rounds, i: nat, rustFirst: bool, hash: Hash)
    returns (longer: seq<RawFile>)
    requires rounds.Complete() && i < SESSIONS && Collected(rawFiles, setup, tier, rounds, i, hash)
    ensures Collected(longer, setup, tier, rounds, i + 1, hash)
    ensures forall other: Tier, rs: Rounds, n: nat :: other != tier && rs.Complete() && n <= SESSIONS ==>
              (Collected(longer, setup, other, rs, n, hash) <==> Collected(rawFiles, setup, other, rs, n, hash))
  {
    hide Selected, FilesOf, FileOf;
    var rust := FileOf(setup, RUST, tier, i + 1, rounds.rust[i], hash);
    var bun := FileOf(setup, BUN, tier, i + 1, rounds.bun[i], hash);
    longer := rawFiles + if rustFirst then [rust, bun] else [bun, rust];
    forall t: Tier, arm | arm == RUST || arm == BUN
      ensures Selected(longer, t.Name(), Some(arm)) ==
              Selected(rawFiles, t.Name(), Some(arm))
              + if t != tier then [] else if arm == RUST then [rust] else [bun]
    {
      PairSelected(rawFiles, setup, tier, i, rounds.rust[i], rounds.bun[i], rustFirst, t, arm, hash);
    }
    FilesGrow(setup, RUST, tier, rounds.rust, i, hash);
    FilesGrow(setup, BUN, tier, rounds.bun, i, hash);
    UnchangedElsewhere(rawFiles, longer, setup, tier, hash);
  }

  lemma UnchangedElsewhere(rawFiles: seq<RawFile>, longer: seq<RawFile>, setup: Setup, tier: Tier, hash: Hash)
    requires forall t: Tier, arm :: t != tier && (arm == RUST || arm == BUN) ==>
               Selected(longer, t.Name(), Some(arm)) == Selected(rawFiles, t.Name(), Some(arm))
    ensures forall other: Tier, rs: Rounds, n: nat :: other != tier && rs.Complete() && n <= SESSIONS ==>
              (Collected(longer, setup, other, rs, n, hash) <==> Collected(rawFiles, setup, other, rs, n, hash))
  {
    hide Selected, FilesOf;
  }

  lemma PairSelected(
      rawFiles: seq<RawFile>, setup: Setup, tier: Tier, i: nat, rustOutput: Output, bunOutput: Output, rustFirst: bool,
      t: Tier, arm: string, hash: Hash)
    requires i < SESSIONS && (arm == RUST || arm == BUN)
    ensures var rust := FileOf(setup, RUST, tier, i + 1, rustOutput, hash);
      var bun := FileOf(setup, BUN, tier, i + 1, bunOutput, hash);
      var longer := rawFiles + if rustFirst then [rust, bun] else [bun, rust];
      Selected(longer, t.Name(), Some(arm)) ==
      Selected(rawFiles, t.Name(), Some(arm)) + if t != tier then [] else if arm == RUST then [rust] else [bun]
  {
    hide Selected, Path, Stem;
    var rust := FileOf(setup, RUST, tier, i + 1, rustOutput, hash);
    var bun := FileOf(setup, BUN, tier, i + 1, bunOutput, hash);
    var (first, second) := if rustFirst then (rust, bun) else (bun, rust);
    assert rawFiles + [first, second] == rawFiles + [first] + [second];
    SelectedConcat(rawFiles, [first], t.Name(), Some(arm));
    SelectedConcat(rawFiles + [first], [second], t.Name(), Some(arm));
    SelectedOne(first, t.Name(), Some(arm));
    SelectedOne(second, t.Name(), Some(arm));
    assert |RUST| != |BUN| && (t.Name() == tier.Name() <==> t == tier) by {
      assert |Small.Name()| != |Representative.Name()|;
    }
  }

  // The settings of the tier, and both arms round by round.
  ghost predicate ReportsRounds(d: Document, setup: Setup, tier: Tier, rounds: Rounds, hash: Hash)
    requires rounds.Complete()
  {
    && Carries(d, setup, tier, true, hash) && |d.arms| == 2
    && Records(d, 0, setup, RUST, tier, rounds.rust, hash)
    && Records(d, 1, setup, BUN, tier, rounds.bun, hash)
    && d.arms[0].armId == "rust-library-floor" && d.arms[0].artifactRoles == ["rust-client", "rust-server"]
    && d.arms[1].armId == "bun-product-client" && d.arms[1].artifactRoles == ["host-runner", "bun-runtime"]
    && d.comparisons == seq(2, _ => Comparison("rust-library-floor", "bun-product-client"))
  }

  // One tier's document: both arms and the two comparisons between them.
  method PairedDocument(
      setup: Setup, tier: Tier, rawFiles: seq<RawFile>, rounds: Rounds, registry: Registry, hash: Hash)
    returns (r: Result<Document>)
    requires rounds.Complete() && rounds.Loaded() && Collected(rawFiles, setup, tier, rounds, SESSIONS, hash)
    ensures r.Ok? && Consistent(r.value, registry, hash) && ReportsRounds(r.value, setup, tier, rounds, hash)
  {
    hide Selected, Sort, SortFiles, Fit, FilesOf, Consistent, ArmInputFits, SettingsFit, BlocksOf, SessionsOf;
    hide Buildable, AllLoadable, IsArm;
    assert rounds.rust[..SESSIONS] == rounds.rust && rounds.bun[..SESSIONS] == rounds.bun;
    var rustFiles := FilesOf(setup, RUST, tier, rounds.rust, hash);
    var bunFiles := FilesOf(setup, BUN, tier, rounds.bun, hash);
    var rustInput := ArmInput(RUST_ARM, Some(RUST), SessionsOf(rustFiles, rounds.rust), RUST_ROLES);
    var bunInput := ArmInput(BUN_ARM, Some(BUN), SessionsOf(bunFiles, rounds.bun), BUN_ROLES);
    var sorted := Sort(rawFiles, PathBefore);
    var rustArm := MeasuredArm(rawFiles, setup, RUST, tier, rustInput, rounds.rust, PAIRED, hash);
    var bunArm := MeasuredArm(rawFiles, setup, BUN, tier, bunInput, rounds.bun, PAIRED, hash);
    var arms, diagnostic := [rustArm.value, bunArm.value], Comparison(RUST_ARM, BUN_ARM);
    var comparisons := [diagnostic, diagnostic];
    assert arms[0].armId == RUST_ARM && arms[1].armId == BUN_ARM;
    assert comparisons == seq(2, _ => diagnostic);
    var s := SettingsOf(setup, tier, true, hash);
    var d := ResultDocument(s, arms, comparisons);
    CampaignSatisfiesChecker(
      setup, tier, true, [rustInput, bunInput], arms, comparisons, sorted, PAIRED, registry, hash);
    var problems := SemanticProblems(d, registry, hash);
    if |problems| > 0 {
      return Err(Codec003);
    }
    r := Ok(d);
  }

  // Which arm of a tier was measured first in a round.
  datatype Slot = Slot(round: int, tier: Tier, rustFirst: bool)

  // The tiers take turns at being first, and whichever tier is first starts with Rust, the
  // other with Bun: over the rounds each arm runs first equally often in either tier.
  predicate Balanced(schedule: seq<Slot>) {
    forall i :: 0 <= i < |schedule| ==>
      var round := i / 2 + 1;
      var (first, second) := if round % 2 == 1 then (Small, Representative) else (Representative, Small);
      schedule[i] == Slot(round, if i % 2 == 0 then first else second, i % 2 == 0)
  }

  function RustFirst(schedule: seq<Slot>, tier: Tier): nat {
    if schedule == [] then 0
    else
      var last := schedule[|schedule| - 1];
      RustFirst(schedule[..|schedule| - 1], tier) + if last.tier == tier && last.rustFirst then 1 else 0
  }

  // After n pairs of rounds each arm was first n times in either tier.
  lemma {:induction false} EachArmIsFirstEquallyOften(schedule: seq<Slot>, n: nat)
    requires Balanced(schedule) && |schedule| == 4 * n
    ensures RustFirst(schedule, Small) == RustFirst(schedule, Representative) == n
    decreases n
  {
    if n > 0 {
      var k := 4 * n;
      EachArmIsFirstEquallyOften(schedule[..k - 4], n - 1);
      LastSlots(schedule, n);
      assert schedule[..k] == schedule;
      forall tier: Tier
        ensures RustFirst(schedule, tier) == RustFirst(schedule[..k - 4], tier) + 1
      {
        OneSlot(schedule, k, tier);
        OneSlot(schedule, k - 1, tier);
        OneSlot(schedule, k - 2, tier);
        OneSlot(schedule, k - 3, tier);
      }
    }
  }

  lemma OneSlot(schedule: seq<Slot>, k: nat, tier: Tier)
    requires 0 < k <= |schedule|
    ensures RustFirst(schedule[..k], tier) ==
            RustFirst(schedule[..k - 1], tier)
            + if schedule[k - 1].tier == tier && schedule[k - 1].rustFirst then 1 else 0
  {
    assert schedule[..k][..k - 1] == schedule[..k - 1];
  }

  lemma LastSlots(schedule: seq<Slot>, n: nat)
    requires Balanced(schedule) && |schedule| == 4 * n && n > 0
    ensures var k := 4 * n;
      && schedule[k - 4] == Slot(2 * n - 1, Small, true) && schedule[k - 3] == Slot(2 * n - 1, Representative, false)
      && schedule[k - 2] == Slot(2 * n, Representative, true) && schedule[k - 1] == Slot(2 * n, Small, false)
  {
  }

  // The outputs of all rounds, loaded as they are written, in alternating order.
  method LoadRounds(setup: Setup, small: Rounds, representative: Rounds, hash: Hash)
    returns (r: Result<seq<RawFile>>, schedule: seq<Slot>)
    requires small.Complete() && representative.Complete()
    ensures r.Ok? <==> small.Loaded() && representative.Loaded()
    ensures r.Ok? ==>
              && Collected(r.value, setup, Small, small, SESSIONS, hash)
              && Collected(r.value, setup, Representative, representative, SESSIONS, hash)
              && Balanced(schedule) && |schedule| == 2 * SESSIONS
    ensures r.Err? ==> r.code == Codec003
  {
    hide Collected, Loadable;
    var rawFiles: seq<RawFile> := [];
    schedule := [];
    NothingCollected(setup, Small, small, hash);
    NothingCollected(setup, Representative, representative, hash);
    for i := 0 to SESSIONS
      invariant Collected(rawFiles, setup, Small, small, i, hash)
      invariant Collected(rawFiles, setup, Representative, representative, i, hash)
      invariant Balanced(schedule) && |schedule| == 2 * i
      invariant forall j :: 0 <= j < i ==>
                  Loadable(small.rust[j]) && Loadable(small.bun[j])
                  && Loadable(representative.rust[j]) && Loadable(representative.bun[j])
    {
      if !Loadable(small.rust[i]) || !Loadable(small.bun[i])
        || !Loadable(representative.rust[i]) || !Loadable(representative.bun[i]) {
        return Err(Codec003), schedule;
      }
      var odd := (i + 1) % 2 == 1;
      if odd {
        schedule := schedule + [Slot(i + 1, Small, odd), Slot(i + 1, Representative, !odd)];
        rawFiles := MeasureTier(rawFiles, setup, Small, small, i, odd, hash);
        rawFiles := MeasureTier(rawFiles, setup, Representative, representative, i, !odd, hash);
      } else {
        schedule := schedule + [Slot(i + 1, Representative, !odd), Slot(i + 1, Small, odd)];
        rawFiles := MeasureTier(rawFiles, setup, Representative, representative, i, !odd, hash);
        rawFiles := MeasureTier(rawFiles, setup, Small, small, i, odd, hash);
      }
    }
    r := Ok(rawFiles);
  }

  // The statistics and the comparison of one tier.
  method CompareTier(rounds: Rounds, draws: seq<seq<nat>>) returns (r: Result<Comparisons>)
    requires rounds.Complete() && rounds.Loaded() && Bootstrap.Draws(draws, SESSIONS)
    ensures r.Ok? <==> !NoRatio(Times(rounds.rust), draws)
    ensures r.Ok? ==> Compares(r.value, rounds, draws)
    ensures r.Err? ==> r.code == Codec003
  {
    hide NoRatio, Describes, Measured, Bootstrap.Draws, IsCi;
    TimesFit(rounds.rust);
    TimesFit(rounds.bun);
    var c := CompareArms(Times(rounds.rust), Times(rounds.bun), CALLS, draws);
    if c.None? {
      return Err(Codec003);
    }
    r := Ok(c.value);
  }

  // Both arms are described, and both intervals come from draws of the same rounds.
  ghost predicate Compares(c: Comparisons, rounds: Rounds, draws: seq<seq<nat>>) {
    var rust, bun := Times(rounds.rust), Times(rounds.bun);
    var s, t := Sessions(rust), Sessions(bun);
    && Describes(c.rust, rust, CALLS, draws) && Describes(c.bun, bun, CALLS, draws)
    && (exists v :: Bootstrap.PairedValues(s, t, draws, 50, 100, v) && Bootstrap.Estimates(c.p50, v))
    && (exists v :: Bootstrap.PairedValues(s, t, draws, 99, 100, v) && Bootstrap.Estimates(c.p99, v))
  }

  // A document and a comparison for each tier.
  ghost predicate Publishes(
      results: Results<Comparisons>, setup: Setup, small: Rounds, representative: Rounds, draws: seq<seq<nat>>,
      hash: Hash)
    requires small.Complete() && representative.Complete()
  {
    && |results.documents| == |results.tiers| == 2
    && ReportsRounds(results.documents[0], setup, Small, small, hash)
    && ReportsRounds(results.documents[1], setup, Representative, representative, hash)
    && Compares(results.tiers[0], small, draws) && Compares(results.tiers[1], representative, draws)
  }

  // paired_campaign.main after its pilots, and write_v3_results. It loads the times
  // without looking at them, and stops where a Rust percentile it divides by is zero, or
  // in a draw negative; nothing the Bun arm measured can stop it.
  method RunPairedCampaign(
      setup: Setup, small: Rounds, representative: Rounds, draws: seq<seq<nat>>, environment: bool,
      registry: Registry, hash: Hash)
    returns (r: Result<Results<Comparisons>>, schedule: seq<Slot>)
    requires small.Complete() && representative.Complete() && Bootstrap.Draws(draws, SESSIONS)
    ensures r.Ok? <==>
            && small.Loaded() && representative.Loaded() && environment
            && !NoRatio(Times(small.rust), draws) && !NoRatio(Times(representative.rust), draws)
    ensures r.Ok? ==>
              && Publishes(r.value, setup, small, representative, draws, hash)
              && (forall d :: d in r.value.documents ==> Consistent(d, registry, hash))
              && Balanced(schedule) && RustFirst(schedule, Small) == RustFirst(schedule, Representative) == SESSIONS / 2
    ensures r.Err? ==> r.code == Codec003
  {
    hide Collected, Consistent, ReportsRounds, Loadable, NoRatio, Compares, Bootstrap.Draws, Balanced, RustFirst;
    var loaded;
    loaded, schedule := LoadRounds(setup, small, representative, hash);
    if loaded.Err? {
      return Err(loaded.code), schedule;
    }
    EachArmIsFirstEquallyOften(schedule, SESSIONS / 2);
    var rawFiles := loaded.value;
    var first := CompareTier(small, draws);
    var second := CompareTier(representative, draws);
    if first.Err? || second.Err? || !environment {
      return Err(Codec003), schedule;
    }
    var one := PairedDocument(setup, Small, rawFiles, small, registry, hash);
    var two := PairedDocument(setup, Representative, rawFiles, representative, registry, hash);
    r := Ok(Results([one.value, two.value], [first.value, second.value]));
  }
}
