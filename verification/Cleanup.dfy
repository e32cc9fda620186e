// Forced cleanup of captured generations while PIDs are reused: whom its signals reach,
// and exactly when it breaks off. The functions are the loops of the cleanup as the
// schedule of the other processes decides them; the methods compute them.
module Cleanup {
  import opened Basics
  import opened Generations

  function SignalOne(s: System, g: Generation, signal: Signal): (System, bool) {
    var s1 := Turn(s, Open(g.pid));
    match s1.table.Holder(g.pid)
    case None => (s1, true)
    case Some(fd) =>
      var s2 := Turn(s1, Check(g));
      if s2.table.Runner(g.pid) != Some(g) then (s2, true) else Sending(s2, fd, signal)
  }

  function SignalEach(s: System, gs: seq<Generation>, signal: Signal): (System, bool)
    decreases |gs|
  {
    if gs == [] then (s, true)
    else
      var (s1, done) := SignalOne(s, gs[0], signal);
      if !done then (s1, false) else SignalEach(s1, gs[1..], signal)
  }

  // Those found running, one question each.
  function Survivors(s: System, captured: seq<Generation>): (System, seq<Generation>)
    decreases |captured|
  {
    if captured == [] then (s, [])
    else
      var s1 := Turn(s, Check(captured[0]));
      var (s2, rest) := Survivors(s1, captured[1..]);
      (s2, (if s1.table.Running(captured[0]) then [captured[0]] else []) + rest)
  }

  // Asks until one is found running.
  function AnyAlive(s: System, captured: seq<Generation>): (System, bool)
    decreases |captured|
  {
    if captured == [] then (s, false)
    else
      var s1 := Turn(s, Check(captured[0]));
      if s1.table.Running(captured[0]) then (s1, true) else AnyAlive(s1, captured[1..])
  }

  function Polled(s: System, captured: seq<Generation>, polls: nat): System
    decreases polls
  {
    if polls == 0 then s
    else
      var (s1, alive) := AnyAlive(s, captured);
      if alive then Polled(s1, captured, polls - 1) else s1
  }

  datatype Phase = Idle | Finished | Broken

  // One signal to every survivor, then a second of polling.
  function Round(s: System, captured: seq<Generation>, signal: Signal, polls: nat): (System, Phase) {
    var (s1, survivors) := Survivors(s, captured);
    if survivors == [] then (s1, Idle)
    else
      var (s2, done) := SignalEach(s1, survivors, signal);
      if !done then (s2, Broken) else (Polled(s2, captured, polls), Finished)
  }

  // None when an unhandled ProcessLookupError leaves the cleanup.
  function Cleaned(s: System, captured: seq<Generation>, polls: nat): (System, Option<bool>) {
    var (s1, first) := Round(s, captured, Term, polls);
    if first.Broken? then (s1, None)
    else
      var (s2, second) := if first.Idle? then (s1, Idle) else Round(s1, captured, Kill, polls);
      if second.Broken? then (s2, None)
      else
        var (s3, alive) := AnyAlive(s2, captured);
        (s3, Some(!alive))
  }

  // ---- the methods ----

  method SignalSurvivor(kernel: Kernel, identity: Generation, signal: Signal) returns (done: bool)
    requires kernel.table.Valid()
    modifies kernel
    ensures (kernel.Now(), done) == SignalOne(old(kernel.Now()), identity, signal)
    ensures Evolves(old(kernel.table), kernel.table)
  {
    hide Turn, Evolves;
    var descriptor := kernel.PidfdOpen(identity.pid);
    if descriptor.None? {
      return true;
    }
    ghost var atOpen := kernel.table;
    ValidAfter(old(kernel.table), atOpen);
    var current := kernel.ProcIdentity(identity.pid, Check(identity));
    ghost var checked := kernel.table;
    EvolvesTransitively(old(kernel.table), atOpen, checked);
    if current.None? || current.value.ticks != identity.ticks {
      return true;
    }
    ValidAfter(atOpen, checked);
    done := kernel.PidfdSendSignal(descriptor.value, signal);
    EvolvesTransitively(old(kernel.table), checked, kernel.table);
  }

  method SignalSurvivors(kernel: Kernel, survivors: seq<Generation>, signal: Signal) returns (done: bool)
    requires kernel.table.Valid()
    modifies kernel
    ensures (kernel.Now(), done) == SignalEach(old(kernel.Now()), survivors, signal)
    ensures Evolves(old(kernel.table), kernel.table)
  {
    hide Evolves, SignalOne;
    EvolvesFrom(kernel.table);
    assert survivors[0..] == survivors;
    for i := 0 to |survivors|
      invariant Evolves(old(kernel.table), kernel.table)
      invariant SignalEach(kernel.Now(), survivors[i..], signal) == SignalEach(old(kernel.Now()), survivors, signal)
    {
      ghost var before := kernel.table;
      ValidAfter(old(kernel.table), before);
      done := SignalSurvivor(kernel, survivors[i], signal);
      EvolvesTransitively(old(kernel.table), before, kernel.table);
      assert survivors[i..][0] == survivors[i] && survivors[i..][1..] == survivors[i + 1..];
      if !done {
        return;
      }
    }
    done := true;
  }

  method GenerationAlive(kernel: Kernel, g: Generation) returns (alive: bool)
    requires kernel.table.Valid()
    modifies kernel
    ensures kernel.Now() == Turn(old(kernel.Now()), Check(g)) && Evolves(old(kernel.table), kernel.table)
    ensures alive == kernel.table.Running(g)
  {
    var current := kernel.ProcIdentity(g.pid, Check(g));
    alive := current.Some? && current.value.ticks == g.ticks;
  }

  method FindSurvivors(kernel: Kernel, captured: seq<Generation>) returns (survivors: seq<Generation>)
    requires kernel.table.Valid()
    modifies kernel
    ensures (kernel.Now(), survivors) == Survivors(old(kernel.Now()), captured)
    ensures Evolves(old(kernel.table), kernel.table)
  {
    hide Evolves, Turn;
    EvolvesFrom(kernel.table);
    survivors := [];
    assert captured[0..] == captured;
    assert [] + Survivors(kernel.Now(), captured).1 == Survivors(kernel.Now(), captured).1;
    for i := 0 to |captured|
      invariant Evolves(old(kernel.table), kernel.table)
      invariant var (s, rest) := Survivors(kernel.Now(), captured[i..]);
        Survivors(old(kernel.Now()), captured) == (s, survivors + rest)
    {
      ghost var before := kernel.table;
      ValidAfter(old(kernel.table), before);
      assert captured[i..][0] == captured[i] && captured[i..][1..] == captured[i + 1..];
      var alive := GenerationAlive(kernel, captured[i]);
      EvolvesTransitively(old(kernel.table), before, kernel.table);
      ghost var rest := Survivors(kernel.Now(), captured[i + 1..]).1;
      assert survivors + ([captured[i]] + rest) == survivors + [captured[i]] + rest;
      assert survivors + ([] + rest) == survivors + rest;
      if alive {
        survivors := survivors + [captured[i]];
      }
    }
    assert captured[|captured|..] == [] && survivors + [] == survivors;
  }

  method FindAlive(kernel: Kernel, captured: seq<Generation>) returns (alive: bool)
    requires kernel.table.Valid()
    modifies kernel
    ensures (kernel.Now(), alive) == AnyAlive(old(kernel.Now()), captured)
    ensures Evolves(old(kernel.table), kernel.table)
  {
    hide Evolves, Turn;
    EvolvesFrom(kernel.table);
    assert captured[0..] == captured;
    for i := 0 to |captured|
      invariant Evolves(old(kernel.table), kernel.table)
      invariant AnyAlive(kernel.Now(), captured[i..]) == AnyAlive(old(kernel.Now()), captured)
    {
      ghost var before := kernel.table;
      ValidAfter(old(kernel.table), before);
      assert captured[i..][0] == captured[i] && captured[i..][1..] == captured[i + 1..];
      alive := GenerationAlive(kernel, captured[i]);
      EvolvesTransitively(old(kernel.table), before, kernel.table);
      if alive {
        return;
      }
    }
    alive := false;
  }

  method CleanupRound(kernel: Kernel, captured: seq<Generation>, signal: Signal, polls: nat) returns (phase: Phase)
    requires kernel.table.Valid()
    modifies kernel
    ensures (kernel.Now(), phase) == Round(old(kernel.Now()), captured, signal, polls)
    ensures Evolves(old(kernel.table), kernel.table)
  {
    hide Evolves, Survivors, SignalEach, AnyAlive;
    var survivors := FindSurvivors(kernel, captured);
    ghost var asked := kernel.table;
    ValidAfter(old(kernel.table), asked);
    if |survivors| == 0 {
      return Idle;
    }
    var done := SignalSurvivors(kernel, survivors, signal);
    EvolvesTransitively(old(kernel.table), asked, kernel.table);
    if !done {
      return Broken;
    }
    ghost var signalled := kernel.Now();
    for i := 0 to polls
      invariant Evolves(old(kernel.table), kernel.table)
      invariant Polled(kernel.Now(), captured, polls - i) == Polled(signalled, captured, polls)
    {
      ghost var before := kernel.table;
      ValidAfter(old(kernel.table), before);
      var alive := FindAlive(kernel, captured);
      EvolvesTransitively(old(kernel.table), before, kernel.table);
      if !alive {
        return Finished;
      }
    }
    phase := Finished;
  }

  // The pidfd part of _product_force_cleanup. However PIDs are reused, every signal
  // reaches a captured generation, none is killed that was not first asked to terminate,
  // and success means that no captured generation runs any more. The cleanup breaks off
  // exactly when a generation vanishes between its check and its signal; otherwise every
  // captured generation that still runs was sent both signals.
  method ForceCleanup(kernel: Kernel, captured: seq<Generation>, polls: nat) returns (clean: Option<bool>)
    requires kernel.table.Valid() && AllKnown(kernel.table, captured)
    modifies kernel
    ensures (kernel.Now(), clean) == Cleaned(old(kernel.Now()), captured, polls)
    ensures Evolves(old(kernel.table), kernel.table)
    ensures OnlyTo(old(kernel.deliveries), kernel.deliveries, captured)
    ensures TermBeforeKill(kernel.deliveries, |old(kernel.deliveries)|)
    ensures KillsWait(kernel.log, |old(kernel.log)|, polls)
    ensures clean.None? <==> exists i :: |old(kernel.log)| <= i < |kernel.log| && Vanished(kernel.log, i)
    ensures clean.Some? ==>
              AllDealt(kernel.table, kernel.deliveries, |old(kernel.deliveries)|, captured, Term)
              && AllDealt(kernel.table, kernel.deliveries, |old(kernel.deliveries)|, captured, Kill)
    ensures clean == Some(true) ==> forall g :: g in captured ==> !kernel.table.Running(g)
    ensures clean == Some(false) ==> exists g :: g in captured && kernel.table.Running(g)
  {
    hide Evolves, Round, AnyAlive;
    ghost var s := kernel.Now();
    CleanedFacts(s, captured, polls);
    CleanedWaits(s, captured, polls);
    var phase := CleanupRound(kernel, captured, Term, polls);
    if phase.Broken? {
      return None;
    }
    if phase.Finished? {
      ghost var termed := kernel.table;
      ValidAfter(old(kernel.table), termed);
      phase := CleanupRound(kernel, captured, Kill, polls);
      EvolvesTransitively(old(kernel.table), termed, kernel.table);
      if phase.Broken? {
        return None;
      }
    }
    ghost var killed := kernel.table;
    ValidAfter(old(kernel.table), killed);
    var alive := FindAlive(kernel, captured);
    EvolvesTransitively(old(kernel.table), killed, kernel.table);
    clean := Some(!alive);
  }

  // ---- what the runs keep ----

  // Call i sends to a generation that ran when the call before it checked, and is gone.
  ghost predicate Vanished(log: seq<Entry>, i: nat) {
    && 0 < i < |log| && log[i].call.Send?
    && var g := log[i].call.to;
    && log[i - 1].call == Check(g) && log[i - 1].table.Running(g)
    && !log[i].table.Holds(g)
  }

  ghost predicate NoneVanished(log: seq<Entry>, from: nat) {
    forall i :: from <= i < |log| ==> !Vanished(log, i)
  }

  // Later calls: the table evolves, the log and the deliveries grow.
  ghost predicate Follows(s: System, s1: System) {
    Evolves(s.table, s1.table) && s.log <= s1.log && s.deliveries <= s1.deliveries
  }

  lemma FollowsTransitively(a: System, b: System, c: System)
    requires Follows(a, b) && Follows(b, c)
    ensures Follows(a, c)
  {
    EvolvesTransitively(a.table, b.table, c.table);
  }

  lemma FollowsFrom(s: System)
    requires s.table.Valid()
    ensures Follows(s, s)
  {
    EvolvesFrom(s.table);
  }

  lemma TurnFollows(s: System, call: Call)
    requires s.table.Valid()
    ensures var s1 := Turn(s, call);
      Follows(s, s1) && s1.deliveries == s.deliveries && s1.log == s.log + [Entry(call, s1.table)] && s1.table.Valid()
  {
    hide ApplyAll;
    EvolvesFrom(s.table);
    if s.future != [] {
      HistoryEvolves(s.table, s.future[0]);
    }
  }

  // What happened up to the middle and what happened after it.
  lemma NoneVanishedThrough(a: seq<Entry>, b: seq<Entry>, from: nat)
    requires a <= b && NoneVanished(a, from) && NoneVanished(b, |a|)
    ensures NoneVanished(b, from)
  {
    forall i | from <= i < |b|
      ensures !Vanished(b, i)
    {
      if i < |a| {
        assert !Vanished(a, i);
        assert a[i] == b[i] && (i > 0 ==> a[i - 1] == b[i - 1]);
      }
    }
  }

  // A question about a generation is no signal.
  lemma QuietEntry(log: seq<Entry>, e: Entry)
    requires !e.call.Send?
    ensures NoneVanished(log + [e], |log|)
  {
  }

  lemma SignalOneFacts(s: System, g: Generation, signal: Signal)
    requires s.table.Valid() && s.table.Known(g)
    ensures var (s1, done) := SignalOne(s, g, signal);
      && Follows(s, s1)
      && (s1.deliveries == s.deliveries || s1.deliveries == s.deliveries + [Delivery(g, signal)])
      && (done && s1.table.Running(g) ==> |s1.deliveries| > |s.deliveries|)
      && (done ==> NoneVanished(s1.log, |s.log|))
      && (!done ==> |s1.log| > |s.log| && Vanished(s1.log, |s1.log| - 1))
  {
    hide Evolves, Turn;
    var s1 := Turn(s, Open(g.pid));
    TurnFollows(s, Open(g.pid));
    QuietEntry(s.log, Entry(Open(g.pid), s1.table));
    if s1.table.Holder(g.pid).Some? {
      var fd, s2 := s1.table.Holder(g.pid).value, Turn(s1, Check(g));
      TurnFollows(s1, Check(g));
      FollowsTransitively(s, s1, s2);
      QuietEntry(s1.log, Entry(Check(g), s2.table));
      NoneVanishedThrough(s1.log, s2.log, |s.log|);
      if s2.table.Runner(g.pid) == Some(g) {
        KnownAfter(s, s1, g);
        CheckedDescriptor(g, fd, s1.table, s2.table);
        var s3 := Turn(s2, Send(g, signal));
        TurnFollows(s2, Send(g, signal));
        FollowsTransitively(s, s2, s3);
        assert s3.log[|s2.log| - 1] == s2.log[|s2.log| - 1];
        assert s3.table.Holds(g) ==> NoneVanished(s3.log, |s2.log|);
        if s3.table.Holds(g) {
          NoneVanishedThrough(s2.log, s3.log, |s.log|);
        }
      }
    }
  }

  lemma KnownAfter(s: System, s1: System, g: Generation)
    requires Follows(s, s1) && s.table.Known(g)
    ensures s1.table.Known(g) && s1.table.Valid()
  {
  }

  lemma {:induction false} SignalEachFacts(s: System, gs: seq<Generation>, signal: Signal, start: nat)
    requires s.table.Valid() && AllKnown(s.table, gs)
    requires start <= |s.deliveries| && TermBeforeKill(s.deliveries, start)
    requires signal == Kill ==> Termed(s.deliveries, start, gs)
    ensures var (s1, done) := SignalEach(s, gs, signal);
      && Follows(s, s1) && OnlyTo(s.deliveries, s1.deliveries, gs) && TermBeforeKill(s1.deliveries, start)
      && (done ==> AllDealt(s1.table, s1.deliveries, start, gs, signal) && NoneVanished(s1.log, |s.log|))
      && (!done ==> |s1.log| > |s.log| && Vanished(s1.log, |s1.log| - 1))
    decreases |gs|
  {
    hide Evolves, SignalOne, TermBeforeKill, Termed, AllDealt, Vanished;
    if gs == [] {
      FollowsFrom(s);
      NothingDealt(s.table, s.deliveries, start, gs, signal);
    } else {
      var g := gs[0];
      var (s1, done) := SignalOne(s, g, signal);
      SignalOneFacts(s, g, signal);
      if signal == Kill {
        TermedOne(s.deliveries, start, gs, g);
      }
      OneMore(s.deliveries, s1.deliveries, start, g, signal);
      if done {
        StillKnown(s.table, s1.table, gs);
        ValidAfter(s.table, s1.table);
        if signal == Kill {
          TermedStays(s.deliveries, s1.deliveries, start, gs);
          FewerTermed(s1.deliveries, start, gs);
        }
        SignalEachFacts(s1, gs[1..], signal, start);
        var s2 := SignalEach(s1, gs[1..], signal).0;
        FollowsTransitively(s, s1, s2);
        if SignalEach(s1, gs[1..], signal).1 {
          NoneVanishedThrough(s1.log, s2.log, |s.log|);
          FirstDealt(s, s1, s2, start, gs, signal);
        }
      }
    }
  }

  lemma FewerTermed(deliveries: seq<Delivery>, start: nat, gs: seq<Generation>)
    requires gs != [] && Termed(deliveries, start, gs)
    ensures Termed(deliveries, start, gs[1..])
  {
  }

  lemma FirstDealt(s: System, s1: System, s2: System, start: nat, gs: seq<Generation>, signal: Signal)
    requires gs != [] && start <= |s.deliveries| && AllKnown(s1.table, gs)
    requires Follows(s1, s2) && AllDealt(s2.table, s2.deliveries, start, gs[1..], signal)
    requires s1.deliveries == s.deliveries || s1.deliveries == s.deliveries + [Delivery(gs[0], signal)]
    requires s1.table.Running(gs[0]) ==> |s1.deliveries| > |s.deliveries|
    ensures AllDealt(s2.table, s2.deliveries, start, gs, signal)
  {
    if s2.table.Running(gs[0]) {
      assert s1.deliveries[|s.deliveries|] == Delivery(gs[0], signal);
      SentStays(s1.deliveries, s2.deliveries, start, gs[0], signal);
    }
    assert forall g :: g in gs ==> g == gs[0] || g in gs[1..];
  }

  // Asking delivers nothing and no generation asked about has vanished.
  ghost predicate OnlyAsked(s: System, s1: System) {
    Follows(s, s1) && s1.deliveries == s.deliveries && NoneVanished(s1.log, |s.log|)
  }

  lemma OnlyAskedTransitively(a: System, b: System, c: System)
    requires OnlyAsked(a, b) && OnlyAsked(b, c)
    ensures OnlyAsked(a, c)
  {
    FollowsTransitively(a, b, c);
    NoneVanishedThrough(b.log, c.log, |a.log|);
  }

  lemma AskOne(s: System, g: Generation)
    requires s.table.Valid()
    ensures OnlyAsked(s, Turn(s, Check(g))) && Turn(s, Check(g)).table.Valid()
  {
    hide Turn, Evolves;
    TurnFollows(s, Check(g));
    QuietEntry(s.log, Entry(Check(g), Turn(s, Check(g)).table));
  }

  lemma {:induction false} SurvivorsFacts(s: System, captured: seq<Generation>)
    requires s.table.Valid() && AllKnown(s.table, captured)
    ensures var (s1, survivors) := Survivors(s, captured);
      && OnlyAsked(s, s1)
      && (forall g :: g in survivors ==> g in captured && s.table.Running(g))
      && (forall g :: g in captured && g !in survivors ==> !s1.table.Running(g))
    decreases |captured|
  {
    hide Turn, Vanished;
    if captured == [] {
      FollowsFrom(s);
    } else {
      var s1 := Turn(s, Check(captured[0]));
      AskOne(s, captured[0]);
      StillKnown(s.table, s1.table, captured);
      SurvivorsFacts(s1, captured[1..]);
      var (s2, rest) := Survivors(s1, captured[1..]);
      OnlyAskedTransitively(s, s1, s2);
      StillKnown(s1.table, s2.table, captured);
    }
  }

  lemma {:induction false} AnyAliveFacts(s: System, captured: seq<Generation>)
    requires s.table.Valid() && AllKnown(s.table, captured)
    ensures var (s1, alive) := AnyAlive(s, captured);
      && OnlyAsked(s, s1)
      && (alive <==> exists g :: g in captured && s1.table.Running(g))
    decreases |captured|
  {
    hide Turn, Vanished;
    if captured == [] {
      FollowsFrom(s);
    } else {
      var s1 := Turn(s, Check(captured[0]));
      AskOne(s, captured[0]);
      StillKnown(s.table, s1.table, captured);
      if !s1.table.Running(captured[0]) {
        AnyAliveFacts(s1, captured[1..]);
        var s2 := AnyAlive(s1, captured[1..]).0;
        OnlyAskedTransitively(s, s1, s2);
        StillKnown(s1.table, s2.table, captured);
      }
    }
  }

  lemma {:induction false} PolledFacts(s: System, captured: seq<Generation>, polls: nat)
    requires s.table.Valid() && AllKnown(s.table, captured)
    ensures OnlyAsked(s, Polled(s, captured, polls))
    decreases polls
  {
    hide Evolves, AnyAlive, Vanished;
    if polls == 0 {
      FollowsFrom(s);
    } else {
      var (s1, alive) := AnyAlive(s, captured);
      AnyAliveFacts(s, captured);
      if alive {
        StillKnown(s.table, s1.table, captured);
        ValidAfter(s.table, s1.table);
        PolledFacts(s1, captured, polls - 1);
        OnlyAskedTransitively(s, s1, Polled(s1, captured, polls - 1));
      }
    }
  }

  lemma RoundFacts(s: System, captured: seq<Generation>, signal: Signal, polls: nat, start: nat)
    requires s.table.Valid() && AllKnown(s.table, captured)
    requires start <= |s.deliveries| && TermBeforeKill(s.deliveries, start)
    requires signal == Kill ==> AllDealt(s.table, s.deliveries, start, captured, Term)
    ensures var (s1, phase) := Round(s, captured, signal, polls);
      && Follows(s, s1) && OnlyTo(s.deliveries, s1.deliveries, captured) && TermBeforeKill(s1.deliveries, start)
      && (!phase.Broken? ==>
            AllDealt(s1.table, s1.deliveries, start, captured, signal) && NoneVanished(s1.log, |s.log|))
      && (phase.Idle? ==> forall g :: g in captured ==> !s1.table.Running(g))
      && (phase.Broken? ==> |s1.log| > |s.log| && Vanished(s1.log, |s1.log| - 1))
  {
    hide Evolves, Survivors, SignalEach, Polled, Vanished, TermBeforeKill, NoneVanished;
    var (s1, survivors) := Survivors(s, captured);
    SurvivorsFacts(s, captured);
    StillKnown(s.table, s1.table, captured);
    ValidAfter(s.table, s1.table);
    if survivors != [] {
      SignalEachFacts(s1, survivors, signal, start);
      var (s2, done) := SignalEach(s1, survivors, signal);
      FollowsTransitively(s, s1, s2);
      MoreTargets(s.deliveries, s2.deliveries, survivors, captured);
      if done {
        StillKnown(s1.table, s2.table, captured);
        ValidAfter(s1.table, s2.table);
        var s3 := Polled(s2, captured, polls);
        PolledFacts(s2, captured, polls);
        NoneVanishedThrough(s1.log, s2.log, |s.log|);
        NoneVanishedThrough(s2.log, s3.log, |s.log|);
        FollowsTransitively(s, s2, s3);
        DealtStays(s2.table, s3.table, s2.deliveries, s3.deliveries, start, captured, signal);
      }
    }
  }

  lemma CleanedFacts(s: System, captured: seq<Generation>, polls: nat)
    requires s.table.Valid() && AllKnown(s.table, captured)
    ensures var (s1, clean) := Cleaned(s, captured, polls); var start := |s.deliveries|;
      && Follows(s, s1) && OnlyTo(s.deliveries, s1.deliveries, captured) && TermBeforeKill(s1.deliveries, start)
      && (clean.None? <==> exists i :: |s.log| <= i < |s1.log| && Vanished(s1.log, i))
      && (clean.Some? ==>
            AllDealt(s1.table, s1.deliveries, start, captured, Term)
            && AllDealt(s1.table, s1.deliveries, start, captured, Kill))
      && (clean == Some(true) ==> forall g :: g in captured ==> !s1.table.Running(g))
      && (clean == Some(false) ==> exists g :: g in captured && s1.table.Running(g))
  {
    hide Evolves, Round, AnyAlive, Vanished, TermBeforeKill;
    var start := |s.deliveries|;
    NothingTermed(s.deliveries);
    var (s1, first) := Round(s, captured, Term, polls);
    RoundFacts(s, captured, Term, polls, start);
    if !first.Broken? {
      StillKnown(s.table, s1.table, captured);
      ValidAfter(s.table, s1.table);
      var (s2, second) := if first.Idle? then (s1, Idle) else Round(s1, captured, Kill, polls);
      if first.Finished? {
        RoundFacts(s1, captured, Kill, polls, start);
        FollowsTransitively(s, s1, s2);
      }
      if !second.Broken? {
        AfterRounds(s, s1, s2, captured, start);
        var s3 := AnyAlive(s2, captured).0;
      }
    }
  }

  // The last question after two finished rounds.
  lemma AfterRounds(s: System, s1: System, s2: System, captured: seq<Generation>, start: nat)
    requires s.table.Valid() && AllKnown(s.table, captured) && start == |s.deliveries|
    requires Follows(s, s1) && (s2 == s1 || Follows(s1, s2))
    requires OnlyTo(s.deliveries, s1.deliveries, captured)
    requires s2 == s1 || OnlyTo(s1.deliveries, s2.deliveries, captured)
    requires AllDealt(s1.table, s1.deliveries, start, captured, Term)
    requires AllDealt(s2.table, s2.deliveries, start, captured, Kill)
             || forall g :: g in captured ==> !s2.table.Running(g)
    requires NoneVanished(s1.log, |s.log|) && NoneVanished(s2.log, |s1.log|)
    ensures var (s3, alive) := AnyAlive(s2, captured);
      && Follows(s, s3) && s3.deliveries == s2.deliveries && OnlyTo(s.deliveries, s3.deliveries, captured)
      && NoneVanished(s3.log, |s.log|)
      && AllDealt(s3.table, s3.deliveries, start, captured, Term)
      && AllDealt(s3.table, s3.deliveries, start, captured, Kill)
      && (alive <==> exists g :: g in captured && s3.table.Running(g))
  {
    hide Evolves, AnyAlive, Vanished, NoneVanished;
    StillKnown(s.table, s1.table, captured);
    ValidAfter(s.table, s1.table);
    if s2 != s1 {
      FollowsTransitively(s, s1, s2);
      StillKnown(s1.table, s2.table, captured);
      ValidAfter(s1.table, s2.table);
      DealtStays(s1.table, s2.table, s1.deliveries, s2.deliveries, start, captured, Term);
    }
    var s3 := AnyAlive(s2, captured).0;
    AnyAliveFacts(s2, captured);
    FollowsTransitively(s, s2, s3);
    NoneVanishedThrough(s1.log, s2.log, |s.log|);
    NoneVanishedThrough(s2.log, s3.log, |s.log|);
    DealtStays(s2.table, s3.table, s2.deliveries, s3.deliveries, start, captured, Term);
    DealtStays(s2.table, s3.table, s2.deliveries, s3.deliveries, start, captured, Kill);
  }

  // ---- how long it waits ----

  // How many checks found their generation running.
  function FoundRunning(calls: seq<Entry>): (n: nat)
    ensures n <= |calls|
  {
    if calls == [] then 0
    else
      var e := calls[|calls| - 1];
      FoundRunning(calls[..|calls| - 1]) + if e.call.Check? && e.table.Running(e.call.g) then 1 else 0
  }

  lemma {:induction false} FoundConcat(a: seq<Entry>, b: seq<Entry>)
    ensures FoundRunning(a + b) == FoundRunning(a) + FoundRunning(b)
    decreases |b|
  {
    if b == [] {
      assert a + b == a;
    } else {
      assert (a + b)[..|a + b| - 1] == a + b[..|b| - 1];
      FoundConcat(a, b[..|b| - 1]);
    }
  }

  lemma FoundThrough(a: seq<Entry>, b: seq<Entry>, c: seq<Entry>)
    requires a <= b <= c
    ensures FoundRunning(c[|a|..]) == FoundRunning(b[|a|..]) + FoundRunning(c[|b|..])
  {
    FoundConcat(b[|a|..], c[|b|..]);
    assert c[|a|..] == b[|a|..] + c[|b|..];
  }

  // The log grows, and every signal sent meanwhile is this one.
  ghost predicate Sends(a: System, b: System, signal: Option<Signal>) {
    && a.log <= b.log
    && forall i :: |a.log| <= i < |b.log| && b.log[i].call.Send? ==> Some(b.log[i].call.signal) == signal
  }

  lemma SendsThrough(a: System, b: System, c: System, signal: Option<Signal>)
    requires Sends(a, b, signal) || Sends(a, b, None)
    requires Sends(b, c, signal) || Sends(b, c, None)
    ensures Sends(a, c, signal)
  {
    assert forall i :: 0 <= i < |b.log| ==> c.log[i] == b.log[i];
  }

  lemma TurnSends(s: System, call: Call)
    ensures Sends(s, Turn(s, call), if call.Send? then Some(call.signal) else None)
    ensures FoundRunning(Turn(s, call).log[|s.log|..]) ==
            if call.Check? && Turn(s, call).table.Running(call.g) then 1 else 0
  {
    var e := Entry(call, Turn(s, call).table);
    assert (s.log + [e])[|s.log|..] == [e] && [e][..0] == [];
  }

  lemma {:induction false} SignalEachSends(s: System, gs: seq<Generation>, signal: Signal)
    ensures Sends(s, SignalEach(s, gs, signal).0, Some(signal))
    decreases |gs|
  {
    hide SignalOne, Sends;
    if gs == [] {
      NothingSent(s, Some(signal));
    } else {
      var (s1, done) := SignalOne(s, gs[0], signal);
      SignalOneSends(s, gs[0], signal);
      if done {
        SignalEachSends(s1, gs[1..], signal);
        SendsThrough(s, s1, SignalEach(s1, gs[1..], signal).0, Some(signal));
      }
    }
  }

  lemma NothingSent(s: System, signal: Option<Signal>)
    ensures Sends(s, s, signal)
  {
  }

  lemma SignalOneSends(s: System, g: Generation, signal: Signal)
    ensures Sends(s, SignalOne(s, g, signal).0, Some(signal))
  {
    hide Turn, Sends;
    var s1 := Turn(s, Open(g.pid));
    TurnSends(s, Open(g.pid));
    NothingSent(s, None);
    SendsThrough(s, s, s1, Some(signal));
    if s1.table.Holder(g.pid).Some? {
      var fd, s2 := s1.table.Holder(g.pid).value, Turn(s1, Check(g));
      TurnSends(s1, Check(g));
      SendsThrough(s, s1, s2, Some(signal));
      TurnSends(s2, Send(fd, signal));
      SendLogs(s2, fd, signal);
      SendsThrough(s, s2, Sending(s2, fd, signal).0, Some(signal));
    }
  }

  lemma SendLogs(s: System, fd: Generation, signal: Signal)
    ensures Sends(s, Turn(s, Send(fd, signal)), Some(signal)) ==> Sends(s, Sending(s, fd, signal).0, Some(signal))
    ensures Sending(s, fd, signal).0.log == Turn(s, Send(fd, signal)).log
  {
  }

  lemma {:induction false} SurvivorsSend(s: System, captured: seq<Generation>)
    ensures Sends(s, Survivors(s, captured).0, None)
    decreases |captured|
  {
    hide Turn, Sends;
    if captured == [] {
      NothingSent(s, None);
    } else {
      var s1 := Turn(s, Check(captured[0]));
      TurnSends(s, Check(captured[0]));
      SurvivorsSend(s1, captured[1..]);
      SendsThrough(s, s1, Survivors(s1, captured[1..]).0, None);
    }
  }

  lemma {:induction false} AnyAliveSends(s: System, captured: seq<Generation>)
    ensures var (s1, alive) := AnyAlive(s, captured);
      && Sends(s, s1, None) && s.log <= s1.log
      && (alive ==> FoundRunning(s1.log[|s.log|..]) >= 1)
    decreases |captured|
  {
    hide Turn, Sends, FoundRunning;
    if captured == [] {
      NothingSent(s, None);
    } else {
      var s1 := Turn(s, Check(captured[0]));
      TurnSends(s, Check(captured[0]));
      SendsGrow(s, s1, None);
      if !s1.table.Running(captured[0]) {
        AnyAliveSends(s1, captured[1..]);
        var s2 := AnyAlive(s1, captured[1..]).0;
        SendsThrough(s, s1, s2, None);
        SendsGrow(s1, s2, None);
        FoundThrough(s.log, s1.log, s2.log);
      }
    }
  }

  lemma SendsGrow(a: System, b: System, signal: Option<Signal>)
    requires Sends(a, b, signal)
    ensures a.log <= b.log
  {
  }

  // Polling ends early only when nobody captured runs any more.
  lemma {:induction false} PolledWaits(s: System, captured: seq<Generation>, polls: nat)
    requires s.table.Valid() && AllKnown(s.table, captured)
    ensures var s1 := Polled(s, captured, polls);
      && Sends(s, s1, None) && s.log <= s1.log
      && (FoundRunning(s1.log[|s.log|..]) >= polls || forall g :: g in captured ==> !s1.table.Running(g))
    decreases polls
  {
    hide Evolves, AnyAlive, Vanished, Sends, FoundRunning;
    if polls == 0 {
      NothingSent(s, None);
    } else {
      var (s1, alive) := AnyAlive(s, captured);
      AnyAliveFacts(s, captured);
      AnyAliveSends(s, captured);
      if alive {
        StillKnown(s.table, s1.table, captured);
        ValidAfter(s.table, s1.table);
        PolledWaits(s1, captured, polls - 1);
        var s2 := Polled(s1, captured, polls - 1);
        SendsThrough(s, s1, s2, None);
        FoundThrough(s.log, s1.log, s2.log);
      }
    }
  }

  // Since the last SIGTERM, so many checks have found somebody running before call i.
  ghost predicate WaitedBefore(log: seq<Entry>, i: nat, polls: nat)
    requires i < |log|
  {
    exists a :: 0 <= a <= i && FoundRunning(log[a..i]) >= polls
      && forall k :: a <= k < |log| && log[k].call.Send? ==> log[k].call.signal != Term
  }

  ghost predicate KillsWait(log: seq<Entry>, from: nat, polls: nat) {
    forall i :: from <= i < |log| && log[i].call.Send? && log[i].call.signal == Kill ==> WaitedBefore(log, i, polls)
  }

  // No SIGKILL goes out before the second of polling after the SIGTERMs is over.
  lemma CleanedWaits(s: System, captured: seq<Generation>, polls: nat)
    requires s.table.Valid() && AllKnown(s.table, captured)
    ensures KillsWait(Cleaned(s, captured, polls).0.log, |s.log|, polls)
  {
    hide Evolves, Survivors, SignalEach, Polled, AnyAlive, Vanished, FoundRunning, WaitedBefore;
    var (s1, survivors) := Survivors(s, captured);
    SurvivorsFacts(s, captured);
    SurvivorsSend(s, captured);
    if survivors == [] {
      AnyAliveSends(s1, captured);
      SendsThrough(s, s1, AnyAlive(s1, captured).0, None);
    } else {
      var (s2, done) := SignalEach(s1, survivors, Term);
      SignalEachSends(s1, survivors, Term);
      SendsThrough(s, s1, s2, Some(Term));
      if done {
        StillKnown(s.table, s1.table, captured);
        ValidAfter(s.table, s1.table);
        TermRoundKeeps(s1, survivors, captured);
        PolledWaits(s2, captured, polls);
        PolledFacts(s2, captured, polls);
        var s3 := Polled(s2, captured, polls);
        StillKnown(s2.table, s3.table, captured);
        ValidAfter(s2.table, s3.table);
        SendsThrough(s, s2, s3, Some(Term));
        SecondRoundWaits(s, s2, s3, captured, polls);
      }
    }
  }

  lemma TermRoundKeeps(s: System, survivors: seq<Generation>, captured: seq<Generation>)
    requires s.table.Valid() && AllKnown(s.table, captured) && forall g :: g in survivors ==> g in captured
    ensures var s1 := SignalEach(s, survivors, Term).0; s1.table.Valid() && AllKnown(s1.table, captured)
  {
    hide Evolves, SignalEach, TermBeforeKill, Vanished;
    NothingTermed(s.deliveries);
    SignalEachFacts(s, survivors, Term, |s.deliveries|);
    var s1 := SignalEach(s, survivors, Term).0;
    StillKnown(s.table, s1.table, captured);
    ValidAfter(s.table, s1.table);
  }

  // The second round, after polling from s2 to s3.
  lemma SecondRoundWaits(s: System, s2: System, s3: System, captured: seq<Generation>, polls: nat)
    requires s3.table.Valid() && AllKnown(s3.table, captured)
    requires Sends(s, s3, Some(Term)) && Sends(s2, s3, None) && s.log <= s2.log <= s3.log
    requires FoundRunning(s3.log[|s2.log|..]) >= polls || forall g :: g in captured ==> !s3.table.Running(g)
    ensures var (s4, phase) := Round(s3, captured, Kill, polls);
      && KillsWait(s4.log, |s.log|, polls) && KillsWait(AnyAlive(s4, captured).0.log, |s.log|, polls)
  {
    hide Evolves, Survivors, SignalEach, Polled, AnyAlive, Vanished, FoundRunning, WaitedBefore;
    var (s4, survivors) := Survivors(s3, captured);
    SurvivorsFacts(s3, captured);
    SurvivorsSend(s3, captured);
    var s5 := Round(s3, captured, Kill, polls).0;
    if survivors != [] {
      var (s6, done) := SignalEach(s4, survivors, Kill);
      SignalEachSends(s4, survivors, Kill);
      SendsThrough(s3, s4, s6, Some(Kill));
      if done {
        PolledSends(s6, captured, polls);
        SendsThrough(s3, s6, s5, Some(Kill));
      }
    }
    AnyAliveSends(s5, captured);
    if survivors != [] {
      assert survivors[0] in captured && s3.table.Running(survivors[0]);
      SendsThrough(s3, s5, AnyAlive(s5, captured).0, Some(Kill));
      KillsComeLate(s, s2, s3, s5, polls);
      KillsComeLate(s, s2, s3, AnyAlive(s5, captured).0, polls);
    } else {
      SendsThrough(s3, s5, AnyAlive(s5, captured).0, None);
      SendsThrough(s, s3, s5, Some(Term));
      SendsThrough(s, s3, AnyAlive(s5, captured).0, Some(Term));
    }
  }

  lemma {:induction false} PolledSends(s: System, captured: seq<Generation>, polls: nat)
    ensures Sends(s, Polled(s, captured, polls), None)
    decreases polls
  {
    hide AnyAlive, Sends;
    if polls == 0 {
      NothingSent(s, None);
    } else {
      var (s1, alive) := AnyAlive(s, captured);
      AnyAliveSends(s, captured);
      if alive {
        PolledSends(s1, captured, polls - 1);
        SendsThrough(s, s1, Polled(s1, captured, polls - 1), None);
      }
    }
  }

  lemma KillsComeLate(s: System, s2: System, s3: System, end: System, polls: nat)
    requires Sends(s, s3, Some(Term)) && Sends(s2, s3, None) && s.log <= s2.log <= s3.log
    requires FoundRunning(s3.log[|s2.log|..]) >= polls && Sends(s3, end, Some(Kill))
    ensures KillsWait(end.log, |s.log|, polls)
  {
    hide FoundRunning;
    forall i | |s.log| <= i < |end.log| && end.log[i].call.Send? && end.log[i].call.signal == Kill
      ensures WaitedBefore(end.log, i, polls)
    {
      var a := |s2.log|;
      assert forall k :: 0 <= k < |s3.log| ==> end.log[k] == s3.log[k];
      FoundThrough(s2.log, s3.log, end.log[..i]);
      assert end.log[..i][a..] == end.log[a..i];
    }
  }

  // ---- when it breaks off ----

  function Quiet(n: nat): (gaps: seq<seq<OsEvent>>)
    ensures |gaps| == n && forall i :: 0 <= i < n ==> gaps[i] == []
  {
    seq(n, _ => [])
  }

  // While nothing else happens, everyone asked about answers as before.
  lemma {:induction false} QuietSurvivors(s: System, captured: seq<Generation>)
    requires |captured| <= |s.future| && forall i :: 0 <= i < |captured| ==> s.future[i] == []
    requires forall g :: g in captured ==> s.table.Running(g)
    ensures var (s1, survivors) := Survivors(s, captured);
      survivors == captured && s1.table == s.table && s1.deliveries == s.deliveries
      && s1.future == s.future[|captured|..]
    decreases |captured|
  {
    if captured != [] {
      QuietSurvivors(Turn(s, Check(captured[0])), captured[1..]);
    }
  }

  // The failing schedules: whatever other captured generations run, if the first one dies
  // and is reaped in the gap between its check and its signal, then the cleanup breaks off
  // having signalled nobody, and all the others go on running.
  lemma VanishingForsakesOthers(
      table: Table, first: Generation, others: seq<Generation>, later: seq<seq<OsEvent>>, polls: nat)
    requires table.Valid() && table.Running(first)
    requires forall g :: g in others ==> table.Running(g) && g.pid != first.pid
    ensures var gaps := Quiet(|others| + 3) + [[Die(first.pid), Reap(first.pid)]] + later;
      var (s1, clean) := Cleaned(System(table, gaps, [], []), [first] + others, polls);
      clean.None? && s1.deliveries == [] && forall g :: g in others ==> s1.table.Running(g)
  {
    hide Survivors, Polled, AnyAlive;
    var captured, n := [first] + others, |others|;
    var gaps := Quiet(n + 3) + [[Die(first.pid), Reap(first.pid)]] + later;
    var s := System(table, gaps, [], []);
    QuietSurvivors(s, captured);
    var s1 := Survivors(s, captured).0;
    assert s1.future[0] == gaps[n + 1] == [] && s1.future[1] == gaps[n + 2] == [];
    assert s1.future[2] == gaps[n + 3] == [Die(first.pid), Reap(first.pid)];
    BreaksOff(s1, first, others);
  }

  lemma BreaksOff(s: System, first: Generation, others: seq<Generation>)
    requires |s.future| >= 3 && s.future[0] == [] && s.future[1] == []
    requires s.future[2] == [Die(first.pid), Reap(first.pid)]
    requires s.table.Running(first)
    requires forall g :: g in others ==> s.table.Running(g) && g.pid != first.pid
    ensures var (s1, done) := SignalEach(s, [first] + others, Term);
      !done && s1.deliveries == s.deliveries && forall g :: g in others ==> s1.table.Running(g)
  {
    var events := [Die(first.pid), Reap(first.pid)];
    assert events[1..] == [Reap(first.pid)] && events[1..][1..] == [];
    var died := Apply(s.table, Die(first.pid));
    assert ApplyAll(s.table, events) == ApplyAll(died, events[1..]) == Apply(died, Reap(first.pid));
  }
}
