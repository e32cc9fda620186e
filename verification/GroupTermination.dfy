// OwnedProcess._terminate_remaining_members: what is left of a process group is asked to
// terminate, then killed, through descriptors checked against the captured members.
module GroupTermination {
  import opened Basics
  import opened Generations

  datatype Outcome =
    | NobodyLeft        // returns False
    | PidReused         // raises
    | MembersSurvived   // raises
    | Terminated        // returns True

  ghost predicate NoneTaken(log: seq<Entry>, from: nat) {
    forall i :: from <= i < |log| ==> !Taken(log[i])
  }

  ghost predicate SomeTaken(log: seq<Entry>, from: nat) {
    exists i :: from <= i < |log| && Taken(log[i])
  }

  // Some call found the generation running in the group.
  ghost predicate Seen(log: seq<Entry>, from: nat, g: Generation, group: int) {
    exists i :: from <= i < |log| && log[i].table.RunningIn(g, group)
  }

  lemma SeenStays(a: seq<Entry>, b: seq<Entry>, from: nat, gs: seq<Generation>, group: int)
    requires a <= b && forall g :: g in gs ==> Seen(a, from, g, group)
    ensures forall g :: g in gs ==> Seen(b, from, g, group)
  {
    forall g | g in gs
      ensures Seen(b, from, g, group)
    {
      var i :| from <= i < |a| && a[i].table.RunningIn(g, group);
      assert b[i] == a[i];
    }
  }

  lemma SeenSince(log: seq<Entry>, from: nat, later: nat, g: Generation, group: int)
    requires from <= later && Seen(log, later, g, group)
    ensures Seen(log, from, g, group)
  {
  }

  // The table evolves, and the log grows without a captured member's PID found taken.
  ghost predicate Calmly(s: System, s1: System) {
    Evolves(s.table, s1.table) && s.log <= s1.log && NoneTaken(s1.log, |s.log|)
  }

  lemma CalmFrom(s: System)
    requires s.table.Valid()
    ensures Calmly(s, s)
  {
    EvolvesFrom(s.table);
  }

  lemma CalmTransitively(a: System, b: System, c: System)
    requires Calmly(a, b) && Calmly(b, c)
    ensures Calmly(a, c)
  {
    EvolvesTransitively(a.table, b.table, c.table);
    forall i | |a.log| <= i < |c.log|
      ensures !Taken(c.log[i])
    {
      assert i < |b.log| ==> c.log[i] == b.log[i];
    }
  }

  lemma CalmTurn(s: System, call: Call)
    requires s.table.Valid() && !Taken(Entry(call, Turn(s, call).table))
    ensures Calmly(s, Turn(s, call))
  {
    hide ApplyAll;
    EvolvesFrom(s.table);
    if s.future != [] {
      HistoryEvolves(s.table, s.future[0]);
    }
  }

  lemma ValidLater(s: System, s1: System)
    requires Calmly(s, s1)
    ensures s1.table.Valid()
  {
  }

  lemma CalmEvolves(s: System, s1: System)
    requires Calmly(s, s1)
    ensures Evolves(s.table, s1.table) && s.log <= s1.log
  {
  }

  lemma KnownLater(s: System, s1: System, gs: seq<Generation>)
    requires Calmly(s, s1) && AllKnown(s.table, gs)
    ensures AllKnown(s1.table, gs)
    ensures forall g :: g in gs && !s.table.Running(g) ==> !s1.table.Running(g)
  {
  }

  // The log grows, and every SIGKILL sent meanwhile goes to one of the targets.
  ghost predicate KillsOnly(a: System, b: System, targets: seq<Generation>) {
    && a.log <= b.log
    && forall i :: |a.log| <= i < |b.log| && b.log[i].call.Send? && b.log[i].call.signal == Kill ==>
         b.log[i].call.to in targets
  }

  lemma KillsOnlyThrough(a: System, b: System, c: System, targets: seq<Generation>)
    requires a == b || KillsOnly(a, b, targets) || KillsOnly(a, b, [])
    requires KillsOnly(b, c, targets) || KillsOnly(b, c, [])
    ensures KillsOnly(a, c, targets)
  {
    assert forall i :: 0 <= i < |b.log| ==> c.log[i] == b.log[i];
  }

  lemma TurnKills(s: System, call: Call)
    ensures KillsOnly(s, Turn(s, call), if call.Send? && call.signal == Kill then [call.to] else [])
  {
  }

  lemma KillsNobody(s: System)
    ensures KillsOnly(s, s, [])
  {
  }

  // The wait for its exit met the generation running.
  ghost predicate Outlasted(log: seq<Entry>, from: nat, g: Generation) {
    exists i :: from <= i < |log| && log[i].call == WaitFor(g) && log[i].table.Running(g)
  }

  lemma OutlastedLater(a: seq<Entry>, b: seq<Entry>, from: nat, gs: seq<Generation>)
    requires a <= b && forall g :: g in gs ==> Outlasted(a, from, g)
    ensures forall g :: g in gs ==> Outlasted(b, from, g)
  {
    forall g | g in gs
      ensures Outlasted(b, from, g)
    {
      var i :| from <= i < |a| && a[i].call == WaitFor(g) && a[i].table.Running(g);
      assert b[i] == a[i];
    }
  }

  // Every SIGKILL sent since goes to a generation that outlasted the wait before it.
  ghost predicate KillsWait(log: seq<Entry>, from: nat) {
    forall i :: from <= i < |log| && log[i].call.Send? && log[i].call.signal == Kill ==>
      Outlasted(log[..i], from, log[i].call.to)
  }

  lemma KillsAfterWaiting(s: System, waited: System, end: System, left: seq<Generation>)
    requires KillsOnly(s, waited, []) && KillsOnly(waited, end, left)
    requires forall g :: g in left ==> Outlasted(waited.log, |s.log|, g)
    ensures KillsWait(end.log, |s.log|)
  {
    forall i | |s.log| <= i < |end.log| && end.log[i].call.Send? && end.log[i].call.signal == Kill
      ensures Outlasted(end.log[..i], |s.log|, end.log[i].call.to)
    {
      assert forall k :: 0 <= k < |waited.log| ==> end.log[k] == waited.log[k];
      assert i >= |waited.log| && waited.log <= end.log[..i];
      OutlastedLater(waited.log, end.log[..i], |s.log|, left);
    }
  }

  lemma KillsStayAfterWaiting(s: System, mid: System, end: System)
    requires KillsWait(mid.log, |s.log|) && KillsOnly(mid, end, []) && s.log <= mid.log
    ensures KillsWait(end.log, |s.log|)
  {
    forall i | |s.log| <= i < |end.log| && end.log[i].call.Send? && end.log[i].call.signal == Kill
      ensures Outlasted(end.log[..i], |s.log|, end.log[i].call.to)
    {
      assert i < |mid.log| && end.log[i] == mid.log[i] && end.log[..i] == mid.log[..i];
    }
  }

  // After a first stretch without SIGKILL.
  lemma KillsWaitSince(s: System, found: System, end: System)
    requires KillsOnly(s, found, []) && KillsWait(end.log, |found.log|) && found.log <= end.log
    ensures KillsWait(end.log, |s.log|)
  {
    assert forall i :: 0 <= i < |found.log| ==> end.log[i] == found.log[i];
  }

  // _process_group_members: one question per entry of /proc. It misses no member that was
  // there when it began and still runs when it ends.
  method GroupMembers(kernel: Kernel, group: int) returns (members: seq<Generation>)
    requires kernel.table.Valid()
    modifies kernel
    ensures Calmly(old(kernel.Now()), kernel.Now()) && kernel.deliveries == old(kernel.deliveries)
    ensures KillsOnly(old(kernel.Now()), kernel.Now(), [])
    ensures AllKnown(kernel.table, members)
    ensures forall g :: g in members ==> Seen(kernel.log, |old(kernel.log)|, g, group)
    ensures forall g :: old(kernel.table).Known(g) && kernel.table.RunningIn(g, group) ==> g in members
  {
    hide Calmly, Turn, Evolves, KillsOnly;
    ghost var s := kernel.Now();
    members := [];
    var pids := kernel.ListProc();
    CalmTurn(s, ListPids);
    TurnKills(s, ListPids);
    ghost var listed := kernel.table;
    StaysListed(old(kernel.table), listed);
    for i := 0 to |pids|
      invariant Calmly(s, kernel.Now()) && kernel.deliveries == old(kernel.deliveries)
      invariant KillsOnly(s, kernel.Now(), []) && AllKnown(kernel.table, members)
      invariant forall g :: g in members ==> Seen(kernel.log, |s.log|, g, group)
      invariant Missed(s.table, kernel.table, group, pids[i..], members)
    {
      ghost var before := kernel.Now();
      ValidLater(s, before);
      var g := kernel.ProcIdentity(pids[i], Look(pids[i]));
      ghost var after := kernel.Now();
      CalmTurn(before, Look(pids[i]));
      CalmTransitively(s, before, after);
      TurnKills(before, Look(pids[i]));
      KillsOnlyThrough(s, before, after, []);
      KnownLater(before, after, members);
      CalmEvolves(s, before);
      TurnLogs(before, Look(pids[i]));
      SeenStays(before.log, after.log, |s.log|, members, group);
      FewerMissed(s.table, before.table, after.table, group, pids, i, members);
      if g.Some? && kernel.table.live[pids[i]].group == group {
        NewMember(s, before, after, g.value, group, Look(pids[i]));
        members := members + [g.value];
      }
    }
    assert pids[|pids|..] == [];
  }

  // Whoever runs in the group now and was known before is a member or still to be asked.
  ghost predicate Missed(before: Table, now: Table, group: int, pids: seq<int>, members: seq<Generation>) {
    forall g: Generation {:trigger now.RunningIn(g, group)} ::
      before.Known(g) && now.RunningIn(g, group) ==> g in members || g.pid in pids
  }

  lemma StaysListed(before: Table, listed: Table)
    requires Evolves(before, listed)
    ensures listed.Valid()
  {
  }

  lemma FewerMissed(
      start: Table, before: Table, after: Table, group: int, pids: seq<int>, i: nat, members: seq<Generation>)
    requires Evolves(start, before) && Evolves(before, after) && i < |pids|
    requires Missed(start, before, group, pids[i..], members)
    ensures var g := after.Runner(pids[i]);
      Missed(start, after, group, pids[i + 1..],
             if g.Some? && after.live[pids[i]].group == group then members + [g.value] else members)
  {
    forall g: Generation | start.Known(g) && after.RunningIn(g, group)
      ensures g in members || g.pid in pids[i + 1..] || (g.pid == pids[i] && after.Runner(pids[i]) == Some(g))
    {
      assert before.Known(g) && before.Running(g) && before.RunningIn(g, group);
    }
  }

  lemma NewMember(s: System, before: System, after: System, g: Generation, group: int, call: Call)
    requires after == Turn(before, call) && |s.log| <= |before.log| && after.table.Valid()
    requires after.table.RunningIn(g, group)
    ensures Seen(after.log, |s.log|, g, group) && after.table.Known(g)
  {
    assert after.log[|before.log|].table == after.table;
  }

  // Opens a descriptor on a member and checks that it is the one captured.
  method OpenChecked(kernel: Kernel, member: Generation) returns (r: Census<Generation>)
    requires kernel.table.Valid() && kernel.table.Known(member)
    modifies kernel
    ensures Evolves(old(kernel.table), kernel.table) && old(kernel.log) <= kernel.log
    ensures kernel.deliveries == old(kernel.deliveries)
    ensures !r.Reused? ==> Calmly(old(kernel.Now()), kernel.Now())
    ensures r.Reused? ==> |kernel.log| > |old(kernel.log)| && Taken(kernel.log[|kernel.log| - 1])
    ensures r.Counted? ==> r.value == member
    ensures !r.Counted? ==> !kernel.table.Running(member)
    ensures KillsOnly(old(kernel.Now()), kernel.Now(), [])
  {
    hide Turn, KillsOnly;
    ghost var s := kernel.Now();
    TurnKills(s, Open(member.pid));
    var descriptor := kernel.PidfdOpen(member.pid);
    CalmTurn(s, Open(member.pid));
    if descriptor.None? {
      return Unavailable;
    }
    ghost var opening := kernel.Now();
    TurnLogs(s, Open(member.pid));
    var current := kernel.ProcIdentity(member.pid, Check(member));
    TurnLogs(opening, Check(member));
    TurnKills(opening, Check(member));
    KillsOnlyThrough(s, opening, kernel.Now(), []);
    EvolvesTransitively(s.table, opening.table, kernel.table);
    if current.Some? && current.value.ticks != member.ticks {
      return Reused;
    }
    CalmTurn(opening, Check(member));
    CalmTransitively(s, opening, kernel.Now());
    if current.None? {
      return Unavailable;
    }
    CheckedDescriptor(member, descriptor.value, opening.table, kernel.table);
    r := Counted(descriptor.value);
  }

  // The SIGTERM loop; it stops at a member whose PID another generation has taken.
  method TermMembers(kernel: Kernel, remaining: seq<Generation>) returns (ok: bool, registered: seq<Generation>)
    requires kernel.table.Valid() && AllKnown(kernel.table, remaining)
    modifies kernel
    ensures Evolves(old(kernel.table), kernel.table) && old(kernel.log) <= kernel.log
    ensures ok <==> NoneTaken(kernel.log, |old(kernel.log)|)
    ensures KillsOnly(old(kernel.Now()), kernel.Now(), [])
    ensures OnlyTo(old(kernel.deliveries), kernel.deliveries, remaining)
    ensures Termed(kernel.deliveries, |old(kernel.deliveries)|, registered)
    ensures forall g :: g in registered ==> g in remaining
    ensures TermBeforeKill(kernel.deliveries, |old(kernel.deliveries)|)
    ensures ok ==> forall g :: g in remaining && kernel.table.Running(g) ==> g in registered
  {
    hide Evolves, Termed, TermBeforeKill, Turn, Taken, KillsOnly;
    registered := [];
    ghost var s, start := kernel.Now(), |kernel.deliveries|;
    CalmFrom(s);
    KillsNobody(s);
    NothingTermed(kernel.deliveries);
    for i := 0 to |remaining|
      invariant Calmly(s, kernel.Now()) && AllKnown(kernel.table, remaining) && KillsOnly(s, kernel.Now(), [])
      invariant OnlyTo(old(kernel.deliveries), kernel.deliveries, remaining)
      invariant Termed(kernel.deliveries, start, registered)
      invariant forall g :: g in registered ==> g in remaining
      invariant TermBeforeKill(kernel.deliveries, start)
      invariant forall j :: 0 <= j < i && kernel.table.Running(remaining[j]) ==> remaining[j] in registered
    {
      ghost var before := kernel.Now();
      ValidLater(s, before);
      var checked := OpenChecked(kernel, remaining[i]);
      ghost var asked := kernel.Now();
      KillsOnlyThrough(s, before, asked, []);
      if checked.Reused? {
        EvolvesTransitively(s.table, before.table, asked.table);
        return false, registered;
      }
      CalmTransitively(s, before, asked);
      KnownLater(before, asked, remaining);
      if checked.Counted? {
        var descriptor := checked.value;
        ValidLater(before, asked);
        var sent := kernel.PidfdSendSignal(descriptor, Term);
        SendingIs(asked, descriptor, Term);
        KillsOnlyThrough(s, asked, kernel.Now(), []);
        CalmTransitively(s, asked, kernel.Now());
        KnownLater(asked, kernel.Now(), remaining);
        OneMore(before.deliveries, kernel.deliveries, start, descriptor, Term);
        TermedStays(before.deliveries, kernel.deliveries, start, registered);
        if sent {
          TermedAlso(kernel.deliveries, start, registered, descriptor);
          registered := registered + [descriptor];
        }
      }
    }
    ok := true;
  }

  // A send is one calm call, and a delivery or a proof that nobody is there.
  lemma SendingIs(s: System, fd: Generation, signal: Signal)
    requires s.table.Valid()
    ensures var (s1, sent) := Sending(s, fd, signal);
      && Calmly(s, s1)
      && s1.deliveries == (if sent then s.deliveries + [Delivery(fd, signal)] else s.deliveries)
      && (!sent ==> !s1.table.Running(fd))
      && KillsOnly(s, s1, if signal == Kill then [fd] else [])
  {
    hide Evolves;
    CalmTurn(s, Send(fd, signal));
  }

  // The descriptors still registered when the wait for exits ends.
  method StillRegistered(kernel: Kernel, registered: seq<Generation>) returns (left: seq<Generation>)
    requires kernel.table.Valid() && AllKnown(kernel.table, registered)
    modifies kernel
    ensures Calmly(old(kernel.Now()), kernel.Now()) && kernel.deliveries == old(kernel.deliveries)
    ensures forall g :: g in left ==> g in registered && Outlasted(kernel.log, |old(kernel.log)|, g)
    ensures KillsOnly(old(kernel.Now()), kernel.Now(), [])
    ensures forall g :: g in registered && g !in left ==> !kernel.table.Running(g)
  {
    hide Evolves, Turn, Taken, KillsOnly, Outlasted;
    left := [];
    ghost var s := kernel.Now();
    CalmFrom(s);
    KillsNobody(s);
    for i := 0 to |registered|
      invariant Calmly(s, kernel.Now()) && AllKnown(kernel.table, registered)
      invariant kernel.deliveries == old(kernel.deliveries)
      invariant forall g :: g in left ==> g in registered && Outlasted(kernel.log, |s.log|, g)
      invariant KillsOnly(s, kernel.Now(), [])
      invariant forall j :: 0 <= j < i && registered[j] !in left ==> !kernel.table.Running(registered[j])
    {
      ghost var before := kernel.Now();
      ValidLater(s, before);
      var exited := kernel.PidfdReadable(registered[i]);
      WaitingIsCalm(before, registered[i]);
      CalmTransitively(s, before, kernel.Now());
      TurnKills(before, WaitFor(registered[i]));
      KillsOnlyThrough(s, before, kernel.Now(), []);
      WaitingAnswers(s, before, registered[i], left);
      KnownLater(before, kernel.Now(), registered);
      if !exited {
        left := left + [registered[i]];
      }
    }
  }

  lemma WaitingAnswers(s: System, before: System, g: Generation, left: seq<Generation>)
    requires s.log <= before.log && forall x :: x in left ==> Outlasted(before.log, |s.log|, x)
    ensures var after := Turn(before, WaitFor(g));
      && (forall x :: x in left ==> Outlasted(after.log, |s.log|, x))
      && (after.table.Running(g) ==> Outlasted(after.log, |s.log|, g))
  {
    hide Outlasted;
    TurnLogs(before, WaitFor(g));
    OutlastedLater(before.log, Turn(before, WaitFor(g)).log, |s.log|, left);
    OutlastedNow(s, before, g);
  }

  lemma OutlastedNow(s: System, before: System, g: Generation)
    requires s.log <= before.log
    ensures var after := Turn(before, WaitFor(g)); after.table.Running(g) ==> Outlasted(after.log, |s.log|, g)
  {
    var after := Turn(before, WaitFor(g));
    assert after.log[|before.log|] == Entry(WaitFor(g), after.table);
  }

  lemma WaitingIsCalm(s: System, g: Generation)
    requires s.table.Valid()
    ensures Calmly(s, Turn(s, WaitFor(g)))
  {
    hide Turn, Evolves;
    CalmTurn(s, WaitFor(g));
  }

  // SIGKILL through each descriptor left; a vanished process is skipped.
  method KillLeft(kernel: Kernel, left: seq<Generation>, ghost start: nat)
    requires kernel.table.Valid() && AllKnown(kernel.table, left)
    requires start <= |kernel.deliveries| && TermBeforeKill(kernel.deliveries, start)
    requires Termed(kernel.deliveries, start, left)
    modifies kernel
    ensures Calmly(old(kernel.Now()), kernel.Now())
    ensures OnlyTo(old(kernel.deliveries), kernel.deliveries, left)
    ensures TermBeforeKill(kernel.deliveries, start)
    ensures KillsOnly(old(kernel.Now()), kernel.Now(), left)
    ensures AllDealt(kernel.table, kernel.deliveries, start, left, Kill)
  {
    hide Evolves, TermBeforeKill, Termed, AllDealt, Turn, Taken, KillsOnly;
    ghost var s := kernel.Now();
    CalmFrom(s);
    KillsNobody(s);
    KillsAmong(s, s, [], left);
    NothingDealt(kernel.table, kernel.deliveries, start, left[..0], Kill);
    for i := 0 to |left|
      invariant Calmly(s, kernel.Now()) && AllKnown(kernel.table, left)
      invariant KillsOnly(s, kernel.Now(), left)
      invariant OnlyTo(old(kernel.deliveries), kernel.deliveries, left)
      invariant TermBeforeKill(kernel.deliveries, start) && Termed(kernel.deliveries, start, left)
      invariant AllDealt(kernel.table, kernel.deliveries, start, left[..i], Kill)
    {
      ghost var before := kernel.Now();
      ValidLater(s, before);
      var _ := kernel.PidfdSendSignal(left[i], Kill);
      SendingIs(before, left[i], Kill);
      CalmTransitively(s, before, kernel.Now());
      KillsAmong(before, kernel.Now(), [left[i]], left);
      KillsOnlyThrough(s, before, kernel.Now(), left);
      KnownLater(before, kernel.Now(), left);
      TermedOne(before.deliveries, start, left, left[i]);
      OneMore(before.deliveries, kernel.deliveries, start, left[i], Kill);
      TermedStays(before.deliveries, kernel.deliveries, start, left);
      OneDealt(before.table, kernel.table, before.deliveries, kernel.deliveries, start, left, i, Kill);
    }
    assert left[..|left|] == left;
  }

  lemma KillsAmong(a: System, b: System, few: seq<Generation>, many: seq<Generation>)
    requires KillsOnly(a, b, few) && forall g :: g in few ==> g in many
    ensures KillsOnly(a, b, many)
  {
  }

  lemma OneDealt(
      a: Table, b: Table, before: seq<Delivery>, after: seq<Delivery>, start: nat, gs: seq<Generation>, i: nat,
      signal: Signal)
    requires Evolves(a, b) && AllKnown(a, gs) && i < |gs| && start <= |before|
    requires AllDealt(a, before, start, gs[..i], signal)
    requires after == before || after == before + [Delivery(gs[i], signal)]
    requires b.Running(gs[i]) ==> |after| > |before|
    ensures AllDealt(b, after, start, gs[..i + 1], signal)
  {
    DealtStays(a, b, before, after, start, gs[..i], signal);
    if b.Running(gs[i]) {
      assert after[|before|] == Delivery(gs[i], signal);
    }
  }

  // Both loops and the wait between them, on the captured members.
  method SignalMembers(kernel: Kernel, remaining: seq<Generation>) returns (ok: bool)
    requires kernel.table.Valid() && AllKnown(kernel.table, remaining)
    modifies kernel
    ensures Evolves(old(kernel.table), kernel.table) && old(kernel.log) <= kernel.log
    ensures ok <==> NoneTaken(kernel.log, |old(kernel.log)|)
    ensures KillsWait(kernel.log, |old(kernel.log)|)
    ensures OnlyTo(old(kernel.deliveries), kernel.deliveries, remaining)
    ensures TermBeforeKill(kernel.deliveries, |old(kernel.deliveries)|)
    ensures ok ==>
              AllDealt(kernel.table, kernel.deliveries, |old(kernel.deliveries)|, remaining, Term)
              && AllDealt(kernel.table, kernel.deliveries, |old(kernel.deliveries)|, remaining, Kill)
  {
    hide TermBeforeKill, Taken, Turn, Evolves, KillsOnly, Outlasted, KillsWait;
    ghost var s, start := kernel.Now(), |kernel.deliveries|;
    var registered;
    ok, registered := TermMembers(kernel, remaining);
    NoKillsYet(s, kernel.Now());
    if !ok {
      return;
    }
    ghost var termed := kernel.Now();
    assert Calmly(s, termed);
    KnownLater(s, termed, remaining);
    ValidLater(s, termed);
    assert AllDealt(termed.table, termed.deliveries, start, remaining, Term);
    var left := StillRegistered(kernel, registered);
    ghost var waited := kernel.Now();
    KnownLater(termed, waited, remaining);
    ValidLater(termed, waited);
    KillsOnlyThrough(s, termed, waited, []);
    OutlastedSince(waited.log, |s.log|, |termed.log|, left);
    KillLeft(kernel, left, start);
    KillsAfterWaiting(s, waited, kernel.Now(), left);
    CalmTransitively(termed, waited, kernel.Now());
    CalmTransitively(s, termed, kernel.Now());
    KnownLater(waited, kernel.Now(), remaining);
    KnownLater(termed, kernel.Now(), remaining);
    DealtStays(termed.table, kernel.table, termed.deliveries, kernel.deliveries, start, remaining, Term);
    assert forall g :: g in remaining && kernel.table.Running(g) ==> g in left;
  }

  lemma NoKillsYet(s: System, s1: System)
    requires KillsOnly(s, s1, [])
    ensures KillsWait(s1.log, |s.log|)
  {
  }

  lemma OutlastedSince(log: seq<Entry>, from: nat, later: nat, gs: seq<Generation>)
    requires from <= later && forall g :: g in gs ==> Outlasted(log, later, g)
    ensures forall g :: g in gs ==> Outlasted(log, from, g)
  {
  }

  // The generation was sent both signals since start.
  ghost predicate SentBoth(deliveries: seq<Delivery>, start: nat, g: Generation) {
    Sent(deliveries, start, g, Term) && Sent(deliveries, start, g, Kill)
  }

  // Signals reach only generations seen running in the group, and SIGKILL only after
  // SIGTERM and a wait that met the generation still running. The call raises for a reused
  // PID exactly when one of its checks met another generation under a captured member's
  // PID. When it returns, no process of the group that was there at the start runs any
  // more; otherwise every such process that still runs was sent both signals, and some
  // process of the group was seen running.
  method TerminateRemaining(kernel: Kernel, group: int) returns (outcome: Outcome)
    requires kernel.table.Valid()
    modifies kernel
    ensures Evolves(old(kernel.table), kernel.table) && old(kernel.log) <= kernel.log
    ensures outcome.PidReused? <==> SomeTaken(kernel.log, |old(kernel.log)|)
    ensures old(kernel.deliveries) <= kernel.deliveries
    ensures forall d :: |old(kernel.deliveries)| <= d < |kernel.deliveries| ==>
              Seen(kernel.log, |old(kernel.log)|, kernel.deliveries[d].to, group)
    ensures TermBeforeKill(kernel.deliveries, |old(kernel.deliveries)|)
    ensures KillsWait(kernel.log, |old(kernel.log)|)
    ensures outcome.NobodyLeft? || outcome.Terminated? ==>
              forall g :: old(kernel.table).Known(g) ==> !kernel.table.RunningIn(g, group)
    ensures outcome.NobodyLeft? ==> kernel.deliveries == old(kernel.deliveries)
    ensures outcome.MembersSurvived? ==>
              forall g :: old(kernel.table).Known(g) && kernel.table.RunningIn(g, group) ==>
                SentBoth(kernel.deliveries, |old(kernel.deliveries)|, g)
    ensures outcome.MembersSurvived? ==> exists g :: Seen(kernel.log, |old(kernel.log)|, g, group)
  {
    hide TermBeforeKill, Taken, Turn, Evolves, KillsOnly, KillsWait;
    ghost var s, start := kernel.Now(), |kernel.deliveries|;
    var remaining := GroupMembers(kernel, group);
    ghost var found := kernel.Now();
    ValidLater(s, found);
    NoKillsYet(s, found);
    if |remaining| == 0 {
      NothingTermed(kernel.deliveries);
      return NobodyLeft;
    }
    var ok := SignalMembers(kernel, remaining);
    ghost var signalled := kernel.Now();
    SeenStays(found.log, signalled.log, |s.log|, remaining, group);
    KillsWaitSince(s, found, signalled);
    EvolvesTransitively(s.table, found.table, signalled.table);
    if !ok {
      return PidReused;
    }
    CalmTransitively(s, found, signalled);
    KnownLater(found, signalled, remaining);
    ValidLater(s, signalled);
    var survivors := GroupMembers(kernel, group);
    ghost var end := kernel.Now();
    CalmTransitively(s, signalled, end);
    KillsStayAfterWaiting(s, signalled, end);
    SeenStays(signalled.log, end.log, |s.log|, remaining, group);
    KnownLater(signalled, end, remaining);
    DealtStays(signalled.table, end.table, signalled.deliveries, end.deliveries, start, remaining, Term);
    DealtStays(signalled.table, end.table, signalled.deliveries, end.deliveries, start, remaining, Kill);
    StillMembers(s, found, signalled, end, remaining, survivors, group);
    if |survivors| > 0 {
      SeenSince(end.log, |s.log|, |signalled.log|, survivors[0], group);
      return MembersSurvived;
    }
    outcome := Terminated;
  }

  // A process of the group there from start to end is in both censuses.
  lemma StillMembers(
      s: System, found: System, signalled: System, end: System,
      remaining: seq<Generation>, survivors: seq<Generation>, group: int)
    requires Evolves(s.table, found.table) && Evolves(found.table, signalled.table)
    requires Evolves(signalled.table, end.table)
    requires forall g :: s.table.Known(g) && found.table.RunningIn(g, group) ==> g in remaining
    requires forall g :: signalled.table.Known(g) && end.table.RunningIn(g, group) ==> g in survivors
    ensures forall g :: s.table.Known(g) && end.table.RunningIn(g, group) ==> g in remaining && g in survivors
  {
    forall g | s.table.Known(g) && end.table.RunningIn(g, group)
      ensures g in remaining && g in survivors
    {
      assert found.table.Known(g) && signalled.table.Known(g);
      assert signalled.table.Running(g) && found.table.Running(g);
    }
  }
}
