// Process generations: what other processes do to the PID table between any two system
// calls, the system calls the harness makes, and reads bound to one generation.
module Generations {
  import opened Basics

  // One life of a PID, told apart by the kernel's start time.
  datatype Generation = Generation(pid: int, ticks: int)

  datatype Process = Process(ticks: int, zombie: bool, group: int)

  // The processes holding a PID now, and the latest start time each PID ever had.
  datatype Table = Table(live: map<int, Process>, last: map<int, int>) {
    ghost predicate Valid() {
      forall pid :: pid in live ==> pid in last && live[pid].ticks <= last[pid]
    }

    // The generation has been seen: it started no later than the PID's latest start.
    predicate Known(g: Generation) {
      g.pid in last && g.ticks <= last[g.pid]
    }

    predicate Holds(g: Generation) {
      g.pid in live && live[g.pid].ticks == g.ticks
    }

    predicate Running(g: Generation) {
      Holds(g) && !live[g.pid].zombie
    }

    predicate RunningIn(g: Generation, group: int) {
      Running(g) && live[g.pid].group == group
    }

    // The generation holding a PID, zombies included.
    function Holder(pid: int): Option<Generation> {
      if pid in live then Some(Generation(pid, live[pid].ticks)) else None
    }

    // The generation running under a PID, as /proc/pid/stat shows it.
    function Runner(pid: int): Option<Generation> {
      if pid in live && !live[pid].zombie then Some(Generation(pid, live[pid].ticks)) else None
    }
  }

  // What other processes do. Start times of one PID strictly increase.
  datatype OsEvent = Spawn(pid: int, ticks: int, group: int) | Die(pid: int) | Reap(pid: int)

  function Apply(t: Table, e: OsEvent): Table {
    match e
    case Spawn(pid, ticks, group) =>
      if pid in t.live || (pid in t.last && ticks <= t.last[pid]) then t
      else Table(t.live[pid := Process(ticks, false, group)], t.last[pid := ticks])
    case Die(pid) =>
      if pid in t.live then t.(live := t.live[pid := t.live[pid].(zombie := true)]) else t
    case Reap(pid) =>
      if pid in t.live && t.live[pid].zombie then t.(live := t.live - {pid}) else t
  }

  function ApplyAll(t: Table, events: seq<OsEvent>): Table
    decreases |events|
  {
    if events == [] then t else ApplyAll(Apply(t, events[0]), events[1..])
  }

  // A process that starts runs in its group; one that dies is a zombie until it is reaped.
  lemma LifeOfAProcess(t: Table, pid: int, ticks: int, group: int)
    requires pid !in t.live && (pid in t.last ==> ticks > t.last[pid])
    ensures var g := Generation(pid, ticks);
      var started := Apply(t, Spawn(pid, ticks, group));
      var dead := Apply(started, Die(pid));
      && started.RunningIn(g, group) && started.Runner(pid) == Some(g)
      && dead.Holds(g) && dead.Holder(pid) == Some(g) && dead.Runner(pid) == None
      && Apply(started, Reap(pid)) == started && Apply(dead, Reap(pid)).Holder(pid) == None
  {
  }

  // A generation that is gone never comes back, a zombie never runs again, and a process
  // stays in its group.
  ghost predicate Evolves(a: Table, b: Table) {
    && a.Valid() && b.Valid()
    && (forall g: Generation {:trigger b.Known(g)} :: a.Known(g) ==> b.Known(g))
    && (forall g: Generation {:trigger b.Holds(g)} :: a.Known(g) && b.Holds(g) ==>
          a.Holds(g) && a.live[g.pid].group == b.live[g.pid].group)
    && (forall g: Generation {:trigger b.Running(g)} :: a.Known(g) && b.Running(g) ==> a.Running(g))
  }

  lemma {:induction false} HistoryEvolves(t: Table, events: seq<OsEvent>)
    requires t.Valid()
    ensures Evolves(t, ApplyAll(t, events))
    decreases |events|
  {
    if events != [] {
      HistoryEvolves(Apply(t, events[0]), events[1..]);
    }
  }

  lemma EvolvesTransitively(a: Table, b: Table, c: Table)
    requires Evolves(a, b) && Evolves(b, c)
    ensures Evolves(a, c)
  {
  }

  lemma ValidAfter(a: Table, b: Table)
    requires Evolves(a, b)
    ensures b.Valid()
  {
  }

  datatype Signal = Term | Kill

  datatype Delivery = Delivery(to: Generation, signal: Signal)

  // Look asks who runs under a PID; Check asks it on behalf of a captured generation. A
  // file read carries what the file says, None when it cannot be read or parsed.
  datatype Call =
    | ListPids
    | Open(pid: int)
    | Look(pid: int)
    | Check(g: Generation)
    | ReadFile(pid: int, contents: Option<int>)
    | Send(to: Generation, signal: Signal)
    | WaitFor(g: Generation)

  // A system call and the table it met.
  datatype Entry = Entry(call: Call, table: Table)

  // The table, what other processes will do before each of the next calls, the calls made
  // so far, and every pidfd signal that reached a process.
  datatype System = System(table: Table, future: seq<seq<OsEvent>>, log: seq<Entry>, deliveries: seq<Delivery>)

  // One system call: first the other processes act.
  function Turn(s: System, call: Call): System {
    var table := if s.future == [] then s.table else ApplyAll(s.table, s.future[0]);
    System(table, if s.future == [] then [] else s.future[1..], s.log + [Entry(call, table)], s.deliveries)
  }

  // The signal reaches the generation the descriptor was opened on, or nobody.
  function Sending(s: System, fd: Generation, signal: Signal): (System, bool) {
    var s1 := Turn(s, Send(fd, signal));
    if s1.table.Holds(fd) then (s1.(deliveries := s1.deliveries + [Delivery(fd, signal)]), true) else (s1, false)
  }

  // What a file under /proc said of a process, and which process it was.
  datatype Sample = Sample(from: Generation, value: int)

  class Kernel {
    var table: Table
    var future: seq<seq<OsEvent>>
    ghost var log: seq<Entry>
    ghost var deliveries: seq<Delivery>

    ghost function Now(): System
      reads this
    {
      System(table, future, log, deliveries)
    }

    constructor (table: Table, future: seq<seq<OsEvent>>)
      requires table.Valid()
      ensures Now() == System(table, future, [], [])
    {
      this.table, this.future, log, deliveries := table, future, [], [];
    }

    // Other processes act, then the call is answered.
    method Interfere(ghost call: Call)
      requires table.Valid()
      modifies this
      ensures Now() == Turn(old(Now()), call) && Evolves(old(table), table)
      ensures deliveries == old(deliveries)
    {
      HistoryEvolves(table, []);
      if |future| > 0 {
        HistoryEvolves(table, future[0]);
        table, future := ApplyAll(table, future[0]), future[1..];
      }
      log := log + [Entry(call, table)];
    }

    method PidfdOpen(pid: int) returns (fd: Option<Generation>)
      requires table.Valid()
      modifies this
      ensures Now() == Turn(old(Now()), Open(pid)) && Evolves(old(table), table)
      ensures deliveries == old(deliveries)
      ensures fd == table.Holder(pid)
    {
      Interfere(Open(pid));
      fd := table.Holder(pid);
    }

    // The start time in /proc/pid/stat, absent for a missing process or a zombie.
    method ProcIdentity(pid: int, ghost call: Call) returns (g: Option<Generation>)
      requires table.Valid()
      modifies this
      ensures Now() == Turn(old(Now()), call) && Evolves(old(table), table)
      ensures deliveries == old(deliveries)
      ensures g == table.Runner(pid)
    {
      Interfere(call);
      g := table.Runner(pid);
    }

    // A file under /proc/pid, from whichever process holds the PID then.
    method ReadProc(pid: int) returns (r: Option<Sample>, ghost contents: Option<int>)
      requires table.Valid()
      modifies this
      ensures Now() == Turn(old(Now()), ReadFile(pid, contents)) && Evolves(old(table), table)
      ensures deliveries == old(deliveries)
      ensures r == Reading(Entry(ReadFile(pid, contents), table))
    {
      var value: int, readable: bool := *, *;
      contents := if readable then Some(value) else None;
      Interfere(ReadFile(pid, contents));
      if pid in table.live && readable {
        r := Some(Sample(Generation(pid, table.live[pid].ticks), value));
      } else {
        r := None;
      }
    }

    method PidfdSendSignal(fd: Generation, signal: Signal) returns (sent: bool)
      requires table.Valid()
      modifies this
      ensures (Now(), sent) == Sending(old(Now()), fd, signal) && Evolves(old(table), table)
    {
      Interfere(Send(fd, signal));
      sent := table.Holds(fd);
      if sent {
        deliveries := deliveries + [Delivery(fd, signal)];
      }
    }

    // A process descriptor is readable once its process has exited.
    method PidfdReadable(fd: Generation) returns (exited: bool)
      requires table.Valid()
      modifies this
      ensures Now() == Turn(old(Now()), WaitFor(fd)) && Evolves(old(table), table)
      ensures deliveries == old(deliveries)
      ensures exited == !table.Running(fd)
    {
      Interfere(WaitFor(fd));
      exited := !table.Running(fd);
    }

    // The entries of /proc, in any order.
    method ListProc() returns (pids: seq<int>)
      requires table.Valid()
      modifies this
      ensures Now() == Turn(old(Now()), ListPids) && Evolves(old(table), table)
      ensures deliveries == old(deliveries)
      ensures forall pid :: pid in table.live ==> pid in pids
    {
      Interfere(ListPids);
      pids := Listed(table.live.Keys);
    }
  }

  method Listed(keys: set<int>) returns (pids: seq<int>)
    ensures forall pid :: pid in keys <==> pid in pids
  {
    pids := [];
    var left := keys;
    while left != {}
      invariant left <= keys && forall pid :: pid in keys <==> pid in pids || pid in left
      decreases |left|
    {
      SomeMember(left);
      var pid :| pid in left;
      left, pids := left - {pid}, pids + [pid];
    }
  }

  lemma SomeMember(s: set<int>)
    requires s != {}
    ensures exists x :: x in s
  {
    assert (forall x :: x !in s) ==> s == {};
  }

  // ---- memory counters ----

  datatype Census<T> = Unavailable | Reused | Counted(value: T)

  datatype Memory = Memory(role: Option<Sample>, rss: Sample, dirty: Sample)

  // What a file read returned.
  function Reading(e: Entry): Option<Sample> {
    if e.call.ReadFile? && e.call.contents.Some? && e.table.Holder(e.call.pid).Some? then
      Some(Sample(e.table.Holder(e.call.pid).value, e.call.contents.value))
    else None
  }

  // The entry shows another generation running under a captured member's PID.
  ghost predicate Taken(e: Entry) {
    e.call.Check? && e.table.Runner(e.call.g.pid).Some? && e.table.Runner(e.call.g.pid) != Some(e.call.g)
  }

  // It is what the file said of the process holding the PID at the read.
  lemma ReadingIsExact(e: Entry, sample: Sample)
    ensures Reading(e) == Some(sample) <==>
            && e.call == ReadFile(sample.from.pid, Some(sample.value))
            && sample.from.pid in e.table.live && e.table.live[sample.from.pid].ticks == sample.from.ticks
  {
  }

  // The process the call asked about was there, and its file could be read.
  ghost predicate Found(e: Entry) {
    match e.call
    case Open(pid) => e.table.Holder(pid).Some?
    case Check(g) => e.table.Runner(g.pid) == Some(g)
    case ReadFile(_, _) => Reading(e).Some?
    case _ => true
  }

  // Everything one process yields between two identity checks: its role unless it is the
  // leader, statm and smaps_rollup, all read before any is looked at.
  method ReadCounters(kernel: Kernel, identity: Generation, leader: int)
    returns (r: Option<Memory>, ghost asked: seq<Entry>)
    requires kernel.table.Valid()
    modifies kernel
    ensures Evolves(old(kernel.table), kernel.table) && kernel.deliveries == old(kernel.deliveries)
    ensures kernel.log == old(kernel.log) + asked
    ensures FilesOf(identity.pid, leader, asked)
    ensures forall e :: e in asked ==> Evolves(old(kernel.table), e.table) && Evolves(e.table, kernel.table)
    ensures r == MemoryOf(asked)
  {
    hide Turn, Evolves;
    EvolvesFrom(kernel.table);
    asked := [];
    ghost var start := kernel.table;
    ghost var contents: Option<int>;
    var role: Option<Sample> := None;
    if identity.pid != leader {
      role, contents := kernel.ReadProc(identity.pid);
      TurnLogs(old(kernel.Now()), ReadFile(identity.pid, contents));
      ValidAfter(start, kernel.table);
      asked := [Entry(ReadFile(identity.pid, contents), kernel.table)];
    }
    EvolvesFrom(kernel.table);
    ghost var s1 := kernel.Now();
    var statm, contents1 := kernel.ReadProc(identity.pid);
    TurnLogs(s1, ReadFile(identity.pid, contents1));
    ValidAfter(s1.table, kernel.table);
    ghost var s2 := kernel.Now();
    var smaps, contents2 := kernel.ReadProc(identity.pid);
    TurnLogs(s2, ReadFile(identity.pid, contents2));
    ValidAfter(s2.table, kernel.table);
    EvolvesFrom(kernel.table);
    EvolvesTransitively(start, s1.table, s2.table);
    EvolvesTransitively(start, s2.table, kernel.table);
    EvolvesTransitively(s1.table, s2.table, kernel.table);
    asked := asked
      + [Entry(ReadFile(identity.pid, contents1), s2.table), Entry(ReadFile(identity.pid, contents2), kernel.table)];
    if (identity.pid != leader && role.None?) || statm.None? || smaps.None? {
      return None, asked;
    }
    r := Some(Memory(role, statm.value, smaps.value));
  }

  lemma TurnLogs(s: System, call: Call)
    ensures s.log <= Turn(s, call).log && Turn(s, call).log == s.log + [Entry(call, Turn(s, call).table)]
  {
  }

  // Two reads for the leader, three for any other process.
  ghost predicate FilesOf(pid: int, leader: int, asked: seq<Entry>) {
    && |asked| == (if pid == leader then 2 else 3)
    && forall e :: e in asked ==> e.call.ReadFile? && e.call.pid == pid
  }

  // The counters, if every file was read.
  ghost function MemoryOf(asked: seq<Entry>): Option<Memory>
    requires 2 <= |asked| <= 3
  {
    var n := |asked|;
    if exists e :: e in asked && Reading(e).None? then None
    else
      Some(Memory(if n == 2 then None else Reading(asked[0]), Reading(asked[n - 2]).value, Reading(asked[n - 1]).value))
  }

  ghost predicate AnyTaken(asked: seq<Entry>) {
    exists e :: e in asked && Taken(e)
  }

  ghost predicate AllFound(asked: seq<Entry>) {
    forall e :: e in asked ==> Found(e)
  }

  lemma OneCallMore(asked: seq<Entry>, e: Entry)
    ensures AnyTaken(asked + [e]) <==> AnyTaken(asked) || Taken(e)
    ensures AllFound(asked + [e]) <==> AllFound(asked) && Found(e)
  {
    assert e in asked + [e];
    assert forall x :: x in asked ==> x in asked + [e];
  }

  lemma FilesToo(asked: seq<Entry>, pid: int, leader: int, files: seq<Entry>)
    requires FilesOf(pid, leader, files)
    ensures AnyTaken(asked + files) <==> AnyTaken(asked)
    ensures AllFound(asked + files) <==> AllFound(asked) && MemoryOf(files).Some?
  {
    assert forall x :: x in asked + files <==> x in asked || x in files;
  }

  // The calls of one census: the descriptor, a check, the files and a check again. It
  // stops early only at a failure.
  ghost predicate Sequence(identity: Generation, leader: int, asked: seq<Entry>) {
    var n := if identity.pid == leader then 2 else 3;
    && |asked| in {1, 2, 2 + n, 3 + n}
    && asked[0].call == Open(identity.pid)
    && (|asked| > 1 ==> asked[1].call == Check(identity))
    && (|asked| > 2 ==> FilesOf(identity.pid, leader, asked[2..2 + n]))
    && (if |asked| == 3 + n then asked[2 + n].call == Check(identity) else !AllFound(asked))
  }

  lemma SequenceStarts(identity: Generation, leader: int, e1: Entry, e2: Entry)
    requires e1.call == Open(identity.pid) && e2.call == Check(identity)
    ensures !AllFound([e1]) ==> Sequence(identity, leader, [e1])
    ensures !AllFound([e1, e2]) ==> Sequence(identity, leader, [e1, e2])
  {
  }

  lemma SequenceEnds(identity: Generation, leader: int, e1: Entry, e2: Entry, files: seq<Entry>, e3: Entry)
    requires e1.call == Open(identity.pid) && e2.call == Check(identity) && e3.call == Check(identity)
    requires FilesOf(identity.pid, leader, files)
    ensures !AllFound([e1, e2] + files) ==> Sequence(identity, leader, [e1, e2] + files)
    ensures var asked := [e1, e2] + files + [e3];
      Sequence(identity, leader, asked) && |asked| >= 5 && asked[2..|asked| - 1] == files
  {
    var n := |files|;
    assert ([e1, e2] + files)[2..2 + n] == files && ([e1, e2] + files + [e3])[2..2 + n] == files;
  }

  // _process_memory; the leader's role needs no read. A reuse is reported exactly when a
  // check met another runner, and counters are returned exactly when nothing failed; they
  // are then what the files said, of the captured generation.
  method ProcessMemory(kernel: Kernel, identity: Generation, leader: int)
    returns (r: Census<Memory>, ghost asked: seq<Entry>)
    requires kernel.table.Valid()
    modifies kernel
    ensures Evolves(old(kernel.table), kernel.table) && kernel.deliveries == old(kernel.deliveries)
    ensures kernel.log == old(kernel.log) + asked && Sequence(identity, leader, asked)
    ensures r.Reused? <==> AnyTaken(asked)
    ensures r.Counted? <==> AllFound(asked)
    ensures r.Counted? ==>
              && |asked| >= 5 && FilesOf(identity.pid, leader, asked[2..|asked| - 1])
              && Some(r.value) == MemoryOf(asked[2..|asked| - 1])
              && r.value.rss.from == identity && r.value.dirty.from == identity
              && (r.value.role.Some? ==> r.value.role.value.from == identity)
              && (r.value.role.None? <==> identity.pid == leader)
    ensures r.Reused? ==> !kernel.table.Holds(identity)
  {
    hide Turn, Evolves, AnyTaken, AllFound, Sequence, MemoryOf, Reading;
    ghost var start := kernel.Now();
    var descriptor := kernel.PidfdOpen(identity.pid);
    ghost var e1 := Entry(Open(identity.pid), kernel.table);
    asked := [e1];
    TurnLogs(start, e1.call);
    OneCallMore([], e1);
    SequenceStarts(identity, leader, e1, Entry(Check(identity), kernel.table));
    NothingAsked();
    assert [] + [e1] == [e1];
    if descriptor.None? {
      return Unavailable, asked;
    }
    ghost var atOpen := kernel.Now();
    ValidAfter(start.table, atOpen.table);
    var current := kernel.ProcIdentity(identity.pid, Check(identity));
    ghost var e2 := Entry(Check(identity), kernel.table);
    asked := [e1, e2];
    TurnLogs(atOpen, e2.call);
    OneCallMore([e1], e2);
    SequenceStarts(identity, leader, e1, e2);
    assert [e1] + [e2] == [e1, e2];
    EvolvesTransitively(start.table, atOpen.table, kernel.table);
    if current.None? {
      return Unavailable, asked;
    }
    if current.value.ticks != identity.ticks {
      return Reused, asked;
    }
    ghost var before := kernel.table;
    ValidAfter(start.table, before);
    var counters, files := ReadCounters(kernel, identity, leader);
    asked := [e1, e2] + files;
    FilesToo([e1, e2], identity.pid, leader, files);
    SequenceEnds(identity, leader, e1, e2, files, e2);
    EvolvesTransitively(start.table, before, kernel.table);
    if counters.None? {
      return Unavailable, asked;
    }
    ghost var counted := kernel.Now();
    ValidAfter(before, counted.table);
    var after := kernel.ProcIdentity(identity.pid, Check(identity));
    ghost var e3 := Entry(Check(identity), kernel.table);
    OneCallMore(asked, e3);
    asked := asked + [e3];
    SequenceEnds(identity, leader, e1, e2, files, e3);
    TurnLogs(counted, e3.call);
    EvolvesTransitively(start.table, counted.table, kernel.table);
    if after.None? {
      return Unavailable, asked;
    }
    if after.value.ticks != identity.ticks {
      return Reused, asked;
    }
    OneGeneration(identity, leader, files, before, counted.table, kernel.table);
    r := Counted(counters.value);
  }

  lemma EvolvesFrom(t: Table)
    requires t.Valid()
    ensures Evolves(t, t)
  {
  }

  lemma NothingAsked()
    ensures !AnyTaken([]) && AllFound([])
  {
  }

  // Files read while the same generation was seen before and after are its own.
  lemma OneGeneration(
      g: Generation, leader: int, files: seq<Entry>, before: Table, counted: Table, after: Table)
    requires FilesOf(g.pid, leader, files) && before.Valid() && before.Holds(g) && after.Holds(g)
    requires forall e :: e in files ==> Evolves(before, e.table) && Evolves(e.table, counted)
    requires Evolves(counted, after)
    ensures MemoryOf(files).Some? ==>
              var m := MemoryOf(files).value;
              && m.rss.from == g && m.dirty.from == g
              && if g.pid == leader then m.role.None? else m.role.Some? && m.role.value.from == g
  {
    hide Evolves;
    forall e | e in files && Reading(e).Some?
      ensures Reading(e).value.from == g
    {
      EvolvesTransitively(e.table, counted, after);
      HeldThroughout(g, before, e.table, after);
      assert e.table.Holds(Reading(e).value.from);
    }
  }

  // A generation seen before and after was the one holding the PID in between.
  lemma HeldThroughout(g: Generation, before: Table, middle: Table, after: Table)
    requires Evolves(before, middle) && Evolves(middle, after)
    requires before.Known(g) && after.Holds(g)
    ensures middle.Holds(g)
    ensures forall x: Generation :: x.pid == g.pid && middle.Holds(x) ==> x == g
  {
  }

  // ---- captured generations ----

  ghost predicate AllKnown(t: Table, captured: seq<Generation>) {
    forall g :: g in captured ==> t.Known(g)
  }

  // Known generations stay known, and dead ones stay dead.
  lemma StillKnown(a: Table, b: Table, captured: seq<Generation>)
    requires Evolves(a, b) && AllKnown(a, captured)
    ensures AllKnown(b, captured)
    ensures forall g :: g in captured && !a.Running(g) ==> !b.Running(g)
  {
  }

  // A descriptor checked after it was opened is the captured generation.
  lemma CheckedDescriptor(g: Generation, fd: Generation, atOpen: Table, checked: Table)
    requires Evolves(atOpen, checked) && atOpen.Known(g)
    requires fd.pid == g.pid && atOpen.Holds(fd) && checked.Holds(g)
    ensures fd == g
  {
  }

  // ---- signals delivered ----

  // Everything delivered since before went to one of the given generations.
  ghost predicate OnlyTo(before: seq<Delivery>, after: seq<Delivery>, targets: seq<Generation>) {
    before <= after && forall i :: |before| <= i < |after| ==> after[i].to in targets
  }

  lemma MoreTargets(before: seq<Delivery>, after: seq<Delivery>, few: seq<Generation>, many: seq<Generation>)
    requires before == after || OnlyTo(before, after, few)
    requires forall g :: g in few ==> g in many
    ensures OnlyTo(before, after, many)
  {
  }

  ghost predicate Sent(deliveries: seq<Delivery>, start: nat, g: Generation, signal: Signal) {
    exists j :: start <= j < |deliveries| && deliveries[j] == Delivery(g, signal)
  }

  lemma SentStays(a: seq<Delivery>, b: seq<Delivery>, start: nat, g: Generation, signal: Signal)
    requires Sent(a, start, g, signal) && a <= b
    ensures Sent(b, start, g, signal)
  {
    var j :| start <= j < |a| && a[j] == Delivery(g, signal);
    assert b[j] == a[j];
  }

  // Each of the generations no longer runs, or was sent the signal since start.
  ghost predicate AllDealt(t: Table, deliveries: seq<Delivery>, start: nat, gs: seq<Generation>, signal: Signal) {
    forall g :: g in gs ==> t.Running(g) ==> Sent(deliveries, start, g, signal)
  }

  lemma NothingDealt(t: Table, deliveries: seq<Delivery>, start: nat, none: seq<Generation>, signal: Signal)
    requires none == []
    ensures AllDealt(t, deliveries, start, none, signal)
  {
  }

  lemma DealtStays(
      a: Table, b: Table, before: seq<Delivery>, after: seq<Delivery>, start: nat, gs: seq<Generation>, signal: Signal)
    requires Evolves(a, b) && AllKnown(a, gs) && before <= after
    requires AllDealt(a, before, start, gs, signal)
    ensures AllDealt(b, after, start, gs, signal)
  {
    forall g | g in gs && b.Running(g)
      ensures Sent(after, start, g, signal)
    {
      SentStays(before, after, start, g, signal);
    }
  }

  // Each of the generations was sent SIGTERM since start.
  ghost predicate Termed(deliveries: seq<Delivery>, start: nat, gs: seq<Generation>) {
    forall g :: g in gs ==> Sent(deliveries, start, g, Term)
  }

  lemma NothingTermed(deliveries: seq<Delivery>)
    ensures Termed(deliveries, |deliveries|, []) && TermBeforeKill(deliveries, |deliveries|)
  {
  }

  lemma TermedStays(a: seq<Delivery>, b: seq<Delivery>, start: nat, gs: seq<Generation>)
    requires Termed(a, start, gs) && a <= b
    ensures Termed(b, start, gs)
  {
    forall g | g in gs
      ensures Sent(b, start, g, Term)
    {
      SentStays(a, b, start, g, Term);
    }
  }

  lemma TermedOne(deliveries: seq<Delivery>, start: nat, gs: seq<Generation>, g: Generation)
    requires Termed(deliveries, start, gs) && g in gs
    ensures Sent(deliveries, start, g, Term)
  {
  }

  lemma TermedAlso(deliveries: seq<Delivery>, start: nat, gs: seq<Generation>, g: Generation)
    requires Termed(deliveries, start, gs) && start < |deliveries|
    requires deliveries[|deliveries| - 1] == Delivery(g, Term)
    ensures Termed(deliveries, start, gs + [g])
  {
  }

  // No SIGKILL since start without an earlier SIGTERM to the same generation.
  ghost predicate TermBeforeKill(deliveries: seq<Delivery>, start: nat) {
    forall k :: start <= k < |deliveries| && deliveries[k].signal == Kill ==>
      Sent(deliveries[..k], start, deliveries[k].to, Term)
  }

  lemma OneMore(a: seq<Delivery>, b: seq<Delivery>, start: nat, g: Generation, signal: Signal)
    requires TermBeforeKill(a, start)
    requires signal == Kill ==> Sent(a, start, g, Term)
    requires b == a || b == a + [Delivery(g, signal)]
    ensures TermBeforeKill(b, start)
  {
    forall k | start <= k < |b| && b[k].signal == Kill
      ensures Sent(b[..k], start, b[k].to, Term)
    {
      if k < |a| {
        assert b[..k] == a[..k];
      } else {
        assert b[..k] == a;
      }
    }
  }
}
