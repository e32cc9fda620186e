// The one-shot paint beacon under concurrent request handlers: each handler runs its
// locked sections and replies in between those of any others.
module Beacon {
  import opened Basics

  // A GET request: its Host header, the path of its URL, whether it has a query string,
  // and the fields of that string, None when strict parsing fails.
  datatype Request =
    Request(host: Option<string>, path: string, hasQuery: bool, fields: Option<map<string, seq<string>>>)

  // The listener's identity.
  datatype Server = Server(host: string, nonce: string) {
    function PagePath(): string {
      "/run/" + nonce + "/index.html"
    }

    function BeaconPath(): string {
      "/run/" + nonce + BEACON_SUFFIX
    }

    function Expected(): map<string, seq<string>> {
      map["nonce" := [nonce], "phase" := ["double-raf"], "visibility" := ["visible"], "focus" := ["1"]]
    }
  }

  const BEACON_SUFFIX := "/paint.gif"

  predicate EndsWith(s: string, suffix: string): (b: bool)
    ensures b <==> exists front :: s == front + suffix
  {
    assert |suffix| <= |s| ==> s == s[..|s| - |suffix|] + s[|s| - |suffix|..];
    |suffix| <= |s| && s[|s| - |suffix|..] == suffix
  }

  // Where a handler is, between two atomic sections.
  datatype Handler =
    | Arrived(request: Request)
    | Counted(request: Request)                     // beacon_requests has been incremented
    | Rejecting(request: Request, reason: string, status: int)
    | Claiming(request: Request)                    // the query was right
    | Announcing(request: Request)                  // accepted_ns is this handler's
    | Replied(request: Request, status: int, body: Body)

  datatype Body = Payload | Gif | Duplicate | NotFound | Rejected

  datatype State = State(
    acceptedNs: Option<int>,
    announced: bool,             // the accepted event is set
    pageRequests: nat,
    beaconRequests: nat,
    rejections: seq<string>,
    duplicateBeacon: bool,       // protocol_error
    handlers: seq<Handler>)

  const FRESH := State(None, false, 0, 0, [], false, [])

  // Reason and status for a beacon request, if its path or query is wrong.
  function Judge(server: Server, r: Request): Option<(string, int)> {
    if r.path != server.BeaconPath() then Some(("path_nonce_mismatch", 404))
    else match r.fields
      case None => Some(("malformed_query", 400))
      case Some(q) =>
        if q == server.Expected() then None
        else if !Field(q, "nonce", server.nonce) then Some(("query_nonce_mismatch", 422))
        else if !Field(q, "phase", "double-raf") then Some(("wrong_phase", 422))
        else if !Field(q, "visibility", "visible") then Some(("document_not_visible", 422))
        else if !Field(q, "focus", "1") then Some(("document_not_focused", 422))
        else Some(("unexpected_query", 422))
  }

  predicate Field(q: map<string, seq<string>>, key: string, value: string) {
    key in q && q[key] == [value]
  }

  // The next atomic section of one handler, at clock reading now.
  function Advance(server: Server, s: State, h: Handler, now: int): (State, Handler) {
    match h
    case Arrived(r) =>
      if r.host != Some(server.host) then (s, Rejecting(r, "host_mismatch", 400))
      else if r.path == server.PagePath() && !r.hasQuery then
        (s.(pageRequests := s.pageRequests + 1), Replied(r, 200, Payload))
      else if !EndsWith(r.path, BEACON_SUFFIX) then (s, Replied(r, 404, NotFound))
      else (s.(beaconRequests := s.beaconRequests + 1), Counted(r))
    case Counted(r) =>
      (match Judge(server, r)
       case Some((reason, status)) => (s, Rejecting(r, reason, status))
       case None => (s, Claiming(r)))
    case Rejecting(r, reason, status) =>
      (s.(rejections := s.rejections + [reason]), Replied(r, status, Rejected))
    case Claiming(r) =>
      if s.acceptedNs.Some? then (s.(duplicateBeacon := true), Replied(r, 409, Duplicate))
      else (s.(acceptedNs := Some(now)), Announcing(r))
    case Announcing(r) => (s.(announced := true), Replied(r, 200, Gif))
    case Replied(_, _, _) => (s, h)
  }

  // A request arrives, or some handler runs its next section.
  datatype Event = Arrive(request: Request) | Run(handler: nat, now: int)

  function Step(server: Server, s: State, e: Event): State {
    match e
    case Arrive(r) => s.(handlers := s.handlers + [Arrived(r)])
    case Run(i, now) =>
      if i >= |s.handlers| then s
      else
        var (s1, h) := Advance(server, s, s.handlers[i], now);
        s1.(handlers := s.handlers[i := h])
  }

  function RunAll(server: Server, events: seq<Event>): State {
    if events == [] then FRESH
    else Step(server, RunAll(server, events[..|events| - 1]), events[|events| - 1])
  }

  // The state shared by the handlers, and do_GET with its locked sections one method each.
  class BeaconState {
    const server: Server
    var acceptedNs: Option<int>
    var announced: bool
    var pageRequests: nat
    var beaconRequests: nat
    var rejections: seq<string>
    var duplicateBeacon: bool
    ghost var handlers: seq<Handler>

    ghost function Now(): State
      reads this
    {
      State(acceptedNs, announced, pageRequests, beaconRequests, rejections, duplicateBeacon, handlers)
    }

    constructor (server: Server)
      ensures this.server == server && Now() == FRESH
    {
      this.server := server;
      acceptedNs, announced, pageRequests, beaconRequests := None, false, 0, 0;
      rejections, duplicateBeacon, handlers := [], false, [];
    }

    // A request gets a handler of its own.
    method Arrive(request: Request)
      modifies this`handlers
      ensures Now() == Step(server, old(Now()), Event.Arrive(request))
    {
      handlers := handlers + [Arrived(request)];
    }

    // Runs one section of handler i, at h, and returns where it is afterwards.
    method Section(ghost i: nat, h: Handler, now: int) returns (next: Handler)
      requires i < |handlers| && handlers[i] == h
      modifies this
      ensures Now() == Step(server, old(Now()), Run(i, now))
      ensures handlers == old(handlers)[i := next]
    {
      next := h;
      match h {
        case Arrived(r) =>
          if r.host != Some(server.host) {
            next := Rejecting(r, "host_mismatch", 400);
          } else if r.path == server.PagePath() && !r.hasQuery {
            pageRequests := pageRequests + 1;
            next := Replied(r, 200, Payload);
          } else if !EndsWith(r.path, BEACON_SUFFIX) {
            next := Replied(r, 404, NotFound);
          } else {
            beaconRequests := beaconRequests + 1;
            next := Counted(r);
          }
        case Counted(r) =>
          var judged := Judge(server, r);
          next := if judged.Some? then Rejecting(r, judged.value.0, judged.value.1) else Claiming(r);
        case Rejecting(r, reason, status) =>
          rejections := rejections + [reason];
          next := Replied(r, status, Rejected);
        case Claiming(r) =>
          if acceptedNs.Some? {
            duplicateBeacon := true;
            next := Replied(r, 409, Duplicate);
          } else {
            acceptedNs := Some(now);
            next := Announcing(r);
          }
        case Announcing(r) =>
          announced := true;
          next := Replied(r, 200, Gif);
        case Replied(_, _, _) =>
      }
      handlers := handlers[i := next];
    }
  }

  // ---- every interleaving ----

  predicate Won(h: Handler) {
    h.Announcing? || (h.Replied? && h.body == Gif)
  }

  predicate Lost(h: Handler) {
    h.Replied? && h.body == Duplicate
  }

  // A beacon that should be accepted.
  predicate ValidBeacon(server: Server, r: Request) {
    r.host == Some(server.host) && r.path == server.BeaconPath() && r.fields == Some(server.Expected())
  }

  // The field of a query string is not the one value it should have.
  predicate Lacks(q: map<string, seq<string>>, key: string, value: string) {
    key !in q || q[key] != [value]
  }

  // Why a request is refused, and the status it is refused with.
  ghost predicate IsCause(server: Server, r: Request, reason: string, status: int) {
    if r.host != Some(server.host) then reason == "host_mismatch" && status == 400
    else
      && EndsWith(r.path, "/paint.gif")
      && if r.path != "/run/" + server.nonce + "/paint.gif" then reason == "path_nonce_mismatch" && status == 404
      else if r.fields.None? then reason == "malformed_query" && status == 400
      else
        var q := r.fields.value;
        && status == 422
        && if Lacks(q, "nonce", server.nonce) then reason == "query_nonce_mismatch"
        else if Lacks(q, "phase", "double-raf") then reason == "wrong_phase"
        else if Lacks(q, "visibility", "visible") then reason == "document_not_visible"
        else if Lacks(q, "focus", "1") then reason == "document_not_focused"
        else reason == "unexpected_query" && exists key :: key in q && key !in {"nonce", "phase", "visibility", "focus"}
  }

  // What a request may be answered with.
  ghost predicate Deserves(server: Server, r: Request, status: int, body: Body) {
    match body
    case Payload =>
      status == 200 && r.host == Some(server.host) && r.path == "/run/" + server.nonce + "/index.html" && !r.hasQuery
    case Gif => status == 200 && ValidBeacon(server, r)
    case Duplicate => status == 409 && ValidBeacon(server, r)
    case NotFound =>
      && status == 404 && r.host == Some(server.host) && !EndsWith(r.path, "/paint.gif")
      && (r.path != "/run/" + server.nonce + "/index.html" || r.hasQuery)
    case Rejected => exists reason :: IsCause(server, r, reason, status)
  }

  // What a handler's position says about its request.
  ghost predicate Justified(server: Server, h: Handler) {
    && (h.Replied? ==> Deserves(server, h.request, h.status, h.body))
    && (h.Rejecting? ==> IsCause(server, h.request, h.reason, h.status))
    && (h.Counted? ==> h.request.host == Some(server.host) && EndsWith(h.request.path, BEACON_SUFFIX))
    && (h.Claiming? || Won(h) || Lost(h) ==> ValidBeacon(server, h.request))
    && (h.Rejecting? || (h.Replied? && h.body != Gif && h.body != Duplicate) ==> !ValidBeacon(server, h.request))
  }

  ghost predicate Sound(server: Server, s: State) {
    && (forall i :: 0 <= i < |s.handlers| ==> Justified(server, s.handlers[i]))
    && (forall i, j :: 0 <= i < j < |s.handlers| ==> !(Won(s.handlers[i]) && Won(s.handlers[j])))
    && (s.acceptedNs.Some? <==> exists i :: 0 <= i < |s.handlers| && Won(s.handlers[i]))
    && (s.duplicateBeacon <==> exists i :: 0 <= i < |s.handlers| && Lost(s.handlers[i]))
    && (s.announced <==> exists i :: 0 <= i < |s.handlers| && s.handlers[i].Replied? && s.handlers[i].body == Gif)
    && (s.duplicateBeacon ==> s.acceptedNs.Some?)
  }

  lemma BeaconPathIsBeacon(server: Server)
    ensures EndsWith(server.BeaconPath(), BEACON_SUFFIX) && server.BeaconPath() != server.PagePath()
  {
    var b, p := server.BeaconPath(), server.PagePath();
    assert b[|b| - 10..] == BEACON_SUFFIX;
    assert b[|b| - 1] == 'f' && p[|p| - 1] == 'l';
  }

  lemma AdvanceJustified(server: Server, s: State, h: Handler, now: int)
    requires Justified(server, h)
    ensures Justified(server, Advance(server, s, h, now).1)
  {
    hide IsCause, Judge, EndsWith;
    BeaconPathIsBeacon(server);
    if h.Counted? {
      JudgeIsRight(server, h.request);
    }
    if h.Rejecting? {
      assert Deserves(server, h.request, h.status, Rejected);
    }
    if h.Arrived? && h.request.host != Some(server.host) {
      HostIsCause(server, h.request);
    }
  }

  lemma HostIsCause(server: Server, r: Request)
    requires r.host != Some(server.host)
    ensures IsCause(server, r, "host_mismatch", 400)
  {
  }

  // The checks find the cause, or the request is a valid beacon.
  lemma JudgeIsRight(server: Server, r: Request)
    requires r.host == Some(server.host) && EndsWith(r.path, BEACON_SUFFIX)
    ensures Judge(server, r).None? <==> ValidBeacon(server, r)
    ensures Judge(server, r).Some? ==> IsCause(server, r, Judge(server, r).value.0, Judge(server, r).value.1)
  {
    hide EndsWith;
    if r.fields.Some? && Judge(server, r) == Some(("unexpected_query", 422)) && r.path == server.BeaconPath() {
      FieldsAreAll(server, r.fields.value);
    }
  }

  // The four fields that matter, and no others, are what is expected.
  lemma FieldsAreAll(server: Server, q: map<string, seq<string>>)
    requires !Lacks(q, "nonce", server.nonce) && !Lacks(q, "phase", "double-raf")
    requires !Lacks(q, "visibility", "visible") && !Lacks(q, "focus", "1")
    ensures (forall key :: key in q ==> key in {"nonce", "phase", "visibility", "focus"}) ==> q == server.Expected()
  {
    if forall key :: key in q ==> key in {"nonce", "phase", "visibility", "focus"} {
      assert q.Keys == {"nonce", "phase", "visibility", "focus"};
    }
  }

  // Handlers keep what they have won or lost, and one gains it only in its own section.
  lemma AdvanceKeeps(server: Server, s: State, h: Handler, now: int)
    ensures var (s1, h1) := Advance(server, s, h, now);
      && (Won(h) ==> Won(h1)) && (Lost(h) ==> h1 == h) && (h.Replied? ==> h1 == h)
      && (Won(h1) && !Won(h) <==> s.acceptedNs.None? && s1.acceptedNs.Some?)
      && (s.acceptedNs.Some? ==> s1.acceptedNs == s.acceptedNs)
      && (Lost(h1) && !Lost(h) ==> s1.duplicateBeacon && s.acceptedNs.Some?)
      && (s1.duplicateBeacon <==> s.duplicateBeacon || (Lost(h1) && !Lost(h)))
      && (s1.announced <==> s.announced || (h.Announcing? && h1.Replied? && h1.body == Gif))
      && (h1.Replied? && h1.body == Gif ==> h.Announcing? || h1 == h)
  {
  }

  lemma SectionSound(server: Server, s: State, i: nat, now: int)
    requires Sound(server, s) && i < |s.handlers|
    ensures Sound(server, Step(server, s, Run(i, now)))
  {
    hide Advance, Justified, Won, Lost;
    var h, s1 := s.handlers[i], Step(server, s, Run(i, now));
    AdvanceJustified(server, s, h, now);
    AdvanceKeeps(server, s, h, now);
    assert s1.handlers[i] == Advance(server, s, h, now).1;
    assert forall j :: 0 <= j < |s.handlers| && j != i ==> s1.handlers[j] == s.handlers[j];
    if s.acceptedNs.Some? {
      var w :| 0 <= w < |s.handlers| && Won(s.handlers[w]);
      assert Won(s1.handlers[w]);
    }
    if s.duplicateBeacon {
      var w :| 0 <= w < |s.handlers| && Lost(s.handlers[w]);
      assert Lost(s1.handlers[w]);
    }
    if s.announced {
      var w :| 0 <= w < |s.handlers| && s.handlers[w].Replied? && s.handlers[w].body == Gif;
      assert s1.handlers[w] == s.handlers[w];
    }
  }

  lemma StepSound(server: Server, s: State, e: Event)
    requires Sound(server, s)
    ensures Sound(server, Step(server, s, e))
    ensures s.acceptedNs.Some? ==> Step(server, s, e).acceptedNs == s.acceptedNs
  {
    hide Judge, Justified, EndsWith, ValidBeacon;
    match e {
      case Arrive(r) =>
        ArrivedJustified(server, r);
        var s1 := Step(server, s, e);
        assert forall i :: 0 <= i < |s.handlers| ==> s1.handlers[i] == s.handlers[i];
      case Run(i, now) =>
        if i < |s.handlers| {
          SectionSound(server, s, i, now);
          AdvanceKeeps(server, s, s.handlers[i], now);
        }
    }
  }

  lemma ArrivedJustified(server: Server, r: Request)
    ensures Justified(server, Arrived(r))
  {
  }

  lemma {:induction false} RunSound(server: Server, events: seq<Event>)
    ensures Sound(server, RunAll(server, events))
    decreases |events|
  {
    hide Step, Sound;
    if events == [] {
      FreshSound(server);
    } else {
      RunSound(server, events[..|events| - 1]);
      StepSound(server, RunAll(server, events[..|events| - 1]), events[|events| - 1]);
    }
  }

  lemma FreshSound(server: Server)
    ensures Sound(server, FRESH)
  {
  }

  // accepted_ns is set at most once: after any further events it is what it was.
  lemma {:induction false} AcceptedOnce(server: Server, before: seq<Event>, after: seq<Event>)
    requires RunAll(server, before).acceptedNs.Some?
    ensures RunAll(server, before + after).acceptedNs == RunAll(server, before).acceptedNs
    decreases |after|
  {
    hide Step, Sound;
    if after == [] {
      assert before + after == before;
    } else {
      var all, n := before + after, |after| - 1;
      assert all[..|all| - 1] == before + after[..n] && all[|all| - 1] == after[n];
      AcceptedOnce(server, before, after[..n]);
      RunSound(server, before + after[..n]);
      StepSound(server, RunAll(server, before + after[..n]), after[n]);
    }
  }

  // A valid beacon whose handler has replied.
  predicate Answered(server: Server, h: Handler) {
    h.Replied? && ValidBeacon(server, h.request)
  }

  // In every interleaving: at most one handler wins, a beacon is answered with 200 or 409
  // exactly when it is valid, two handled valid beacons leave duplicate_beacon set and
  // only they do, and a successful wait for the beacon implies an accepted timestamp.
  lemma OneBeaconWins(server: Server, events: seq<Event>)
    ensures var s := RunAll(server, events); var hs := s.handlers;
      && (forall i, j :: 0 <= i < j < |hs| ==> !(Won(hs[i]) && Won(hs[j])))
      && (forall i :: 0 <= i < |hs| && hs[i].Replied? ==> (
            ValidBeacon(server, hs[i].request) <==> (hs[i].body == Gif || hs[i].body == Duplicate)))
      && (s.duplicateBeacon <==>
            exists i, j :: 0 <= i < |hs| && 0 <= j < |hs| && i != j && Won(hs[i]) && Lost(hs[j]))
      && (forall i, j :: 0 <= i < j < |hs| ==>
            (Answered(server, hs[i]) && Answered(server, hs[j]) ==> s.duplicateBeacon))
      && (s.announced ==> s.acceptedNs.Some?)
  {
    hide RunAll, ValidBeacon;
    RunSound(server, events);
    var s := RunAll(server, events);
    if s.duplicateBeacon {
      var i :| 0 <= i < |s.handlers| && Won(s.handlers[i]);
      var j :| 0 <= j < |s.handlers| && Lost(s.handlers[j]);
    }
  }

  // ---- the counters ----

  function Tally(handlers: seq<Handler>, p: Handler -> bool): nat {
    if handlers == [] then 0
    else Tally(handlers[..|handlers| - 1], p) + if p(handlers[|handlers| - 1]) then 1 else 0
  }

  lemma {:induction false} TallyUpdate(handlers: seq<Handler>, i: nat, h: Handler, p: Handler -> bool)
    requires i < |handlers|
    ensures Tally(handlers[i := h], p) ==
            Tally(handlers, p) - (if p(handlers[i]) then 1 else 0) + if p(h) then 1 else 0
    decreases |handlers|
  {
    var n := |handlers| - 1;
    if i < n {
      TallyUpdate(handlers[..n], i, h, p);
      assert handlers[i := h][..n] == handlers[..n][i := h];
    } else {
      assert handlers[i := h][..n] == handlers[..n];
    }
  }

  lemma TallyAppend(handlers: seq<Handler>, h: Handler, p: Handler -> bool)
    ensures Tally(handlers + [h], p) == Tally(handlers, p) + if p(h) then 1 else 0
  {
    assert (handlers + [h])[..|handlers|] == handlers;
  }

  // The handlers that replied with the body.
  function Answers(handlers: seq<Handler>, body: Body): nat {
    Tally(handlers, RepliedWith(body))
  }

  function RepliedWith(body: Body): Handler -> bool {
    (h: Handler) => h.Replied? && h.body == body
  }

  // Those that got past the tests of host and path suffix.
  function Beacons(server: Server, handlers: seq<Handler>): nat {
    Tally(handlers, IsBeacon(server))
  }

  function IsBeacon(server: Server): Handler -> bool {
    (h: Handler) => !h.Arrived? && h.request.host == Some(server.host) && EndsWith(h.request.path, "/paint.gif")
  }

  // Those that were refused for the reason.
  ghost function Refusals(server: Server, handlers: seq<Handler>, reason: string): nat {
    Tally(handlers, RefusedFor(server, reason))
  }

  ghost function RefusedFor(server: Server, reason: string): Handler -> bool {
    (h: Handler) => h.Replied? && h.body == Rejected && IsCause(server, h.request, reason, h.status)
  }

  ghost predicate Booked(server: Server, s: State) {
    && s.pageRequests == Answers(s.handlers, Payload)
    && s.beaconRequests == Beacons(server, s.handlers)
    && forall reason :: multiset(s.rejections)[reason] == Refusals(server, s.handlers, reason)
  }

  lemma CauseIsUnique(server: Server, r: Request, reason: string, other: string, status: int)
    requires IsCause(server, r, reason, status) && IsCause(server, r, other, status)
    ensures reason == other
  {
  }

  // What a section does to the counters, by where its handler was and is.
  lemma AdvanceBooks(server: Server, s: State, h: Handler, now: int)
    requires Justified(server, h)
    ensures var (s1, h1) := Advance(server, s, h, now);
      && s1.pageRequests == s.pageRequests + (if h.Arrived? && h1.Replied? && h1.body == Payload then 1 else 0)
      && s1.beaconRequests == s.beaconRequests
           + (if h.Arrived? && h.request.host == Some(server.host) && EndsWith(h.request.path, "/paint.gif") then 1
              else 0)
      && (h1.Replied? && h1.body == Payload ==> h.Arrived? || h1 == h)
      && (h1.Arrived? ==> h1 == h) && h1.request == h.request && !(h.Arrived? && h1.Arrived?)
      && (h.Replied? ==> h1 == h)
      && (if h.Rejecting? then
            h1 == Replied(h.request, h.status, Rejected) && s1.rejections == s.rejections + [h.reason]
          else s1.rejections == s.rejections && (h1.Replied? && h1.body == Rejected ==> h1 == h))
  {
    hide EndsWith;
    BeaconPathIsBeacon(server);
    PageIsNoBeacon(server);
  }

  lemma PageIsNoBeacon(server: Server)
    ensures !EndsWith(server.PagePath(), "/paint.gif")
  {
    var p := server.PagePath();
    assert p[|p| - 1] == 'l';
    assert |p| >= 10 ==> p[|p| - 10..][9] == 'l';
  }

  lemma SectionBooked(server: Server, s: State, i: nat, now: int)
    requires Sound(server, s) && Booked(server, s) && i < |s.handlers|
    ensures Booked(server, Step(server, s, Run(i, now)))
  {
    hide Advance, Justified, Won, Lost, IsCause, EndsWith, Tally;
    var h, h1, s1 := s.handlers[i], Advance(server, s, s.handlers[i], now).1, Step(server, s, Run(i, now));
    AdvanceBooks(server, s, h, now);
    TallyUpdate(s.handlers, i, h1, RepliedWith(Payload));
    TallyUpdate(s.handlers, i, h1, IsBeacon(server));
    forall reason
      ensures multiset(s1.rejections)[reason] == Refusals(server, s1.handlers, reason)
    {
      TallyUpdate(s.handlers, i, h1, RefusedFor(server, reason));
      RefusedForItsReason(server, h, reason);
    }
  }

  lemma RefusedForItsReason(server: Server, h: Handler, reason: string)
    requires Justified(server, h)
    ensures h.Rejecting? ==> (IsCause(server, h.request, reason, h.status) <==> reason == h.reason)
  {
    hide IsCause;
    if h.Rejecting? && IsCause(server, h.request, reason, h.status) {
      CauseIsUnique(server, h.request, reason, h.reason, h.status);
    }
  }

  lemma {:induction false} RunBooked(server: Server, events: seq<Event>)
    ensures Booked(server, RunAll(server, events))
    decreases |events|
  {
    hide Booked, Sound, Advance;
    if events == [] {
      FreshBooked(server);
    } else {
      var n := |events| - 1;
      RunBooked(server, events[..n]);
      RunSound(server, events[..n]);
      var s := RunAll(server, events[..n]);
      match events[n] {
        case Arrive(r) => ArrivalBooked(server, s, r);
        case Run(i, now) =>
          if i < |s.handlers| {
            SectionBooked(server, s, i, now);
          }
      }
    }
  }

  lemma FreshBooked(server: Server)
    ensures Booked(server, FRESH)
  {
  }

  lemma ArrivalBooked(server: Server, s: State, r: Request)
    requires Booked(server, s)
    ensures Booked(server, s.(handlers := s.handlers + [Arrived(r)]))
  {
    hide IsCause, EndsWith, Tally;
    TallyAppend(s.handlers, Arrived(r), RepliedWith(Payload));
    TallyAppend(s.handlers, Arrived(r), IsBeacon(server));
    forall reason
      ensures Refusals(server, s.handlers + [Arrived(r)], reason) == Refusals(server, s.handlers, reason)
    {
      TallyAppend(s.handlers, Arrived(r), RefusedFor(server, reason));
    }
  }

  lemma {:induction false} AtMostOneGif(handlers: seq<Handler>)
    requires forall i, j :: 0 <= i < j < |handlers| ==> !(Won(handlers[i]) && Won(handlers[j]))
    ensures Answers(handlers, Gif) <= 1
    ensures Answers(handlers, Gif) == 1 ==> exists i :: 0 <= i < |handlers| && Won(handlers[i])
    decreases |handlers|
  {
    if handlers != [] {
      var n := |handlers| - 1;
      AtMostOneGif(handlers[..n]);
      assert Answers(handlers, Gif) ==
             Answers(handlers[..n], Gif) + if handlers[n].Replied? && handlers[n].body == Gif then 1 else 0;
      if Answers(handlers[..n], Gif) == 1 {
        var i :| 0 <= i < n && Won(handlers[..n][i]);
        assert Won(handlers[i]);
      }
    }
  }

  // ---- who is answered, and when ----

  function Arrivals(events: seq<Event>): seq<Request> {
    if events == [] then []
    else
      var last := events[|events| - 1];
      Arrivals(events[..|events| - 1]) + if last.Arrive? then [last.request] else []
  }

  // How many sections handler i has had.
  function Turns(events: seq<Event>, i: nat): nat {
    if events == [] then 0
    else
      var earlier, last := events[..|events| - 1], events[|events| - 1];
      Turns(earlier, i) + if last.Run? && last.handler == i && i < |Arrivals(earlier)| then 1 else 0
  }

  function Ahead(h: Handler): nat {
    match h
    case Arrived(_) => 4
    case Counted(_) => 3
    case Claiming(_) => 2
    case Rejecting(_, _, _) => 1
    case Announcing(_) => 1
    case Replied(_, _, _) => 0
  }

  lemma AdvanceAdvances(server: Server, s: State, h: Handler, now: int)
    ensures var h1 := Advance(server, s, h, now).1;
      h1.request == h.request && Ahead(h1) <= if Ahead(h) == 0 then 0 else Ahead(h) - 1
  {
    hide Judge, EndsWith;
  }

  // There is one handler for each request, in the order they arrived, and it has replied
  // after four sections of its own, whatever the others do.
  lemma {:induction false} EveryoneIsAnswered(server: Server, events: seq<Event>)
    ensures var hs := RunAll(server, events).handlers;
      && |hs| == |Arrivals(events)|
      && forall i :: 0 <= i < |hs| ==>
           && hs[i].request == Arrivals(events)[i]
           && Ahead(hs[i]) <= Max(0, 4 - Turns(events, i))
    decreases |events|
  {
    hide Advance, Ahead;
    if events != [] {
      var n := |events| - 1;
      var s := RunAll(server, events[..n]);
      EveryoneIsAnswered(server, events[..n]);
      match events[n] {
        case Arrive(r) =>
          NoTurnsYet(events[..n], |s.handlers|);
          JustArrived(r);
        case Run(i, now) =>
          if i < |s.handlers| {
            AdvanceAdvances(server, s, s.handlers[i], now);
          }
      }
    }
  }

  lemma JustArrived(r: Request)
    ensures Ahead(Arrived(r)) == 4
  {
  }

  lemma {:induction false} NoTurnsYet(events: seq<Event>, i: nat)
    requires i >= |Arrivals(events)|
    ensures Turns(events, i) == 0
    decreases |events|
  {
    if events != [] {
      NoTurnsYet(events[..|events| - 1], i);
    }
  }

  // The event that accepted the beacon: a section of the handler that won, at that time.
  ghost predicate AcceptedAt(server: Server, events: seq<Event>, j: nat, t: int) {
    && j < |events| && events[j].Run? && events[j].now == t
    && RunAll(server, events[..j]).acceptedNs.None?
    && RunAll(server, events[..j + 1]).acceptedNs == Some(t)
    && var hs := RunAll(server, events).handlers;
    events[j].handler < |hs| && Won(hs[events[j].handler])
  }

  // accepted_ns is the clock reading of the winner's own section.
  lemma {:induction false} AcceptedByTheWinner(server: Server, events: seq<Event>) returns (j: nat)
    requires RunAll(server, events).acceptedNs.Some?
    ensures AcceptedAt(server, events, j, RunAll(server, events).acceptedNs.value)
    decreases |events|
  {
    hide Advance, Won;
    j := |events| - 1;
    var s, e := RunAll(server, events[..j]), events[j];
    assert events[..j + 1] == events;
    if s.acceptedNs.Some? {
      j := AcceptedByTheWinner(server, events[..|events| - 1]);
      assert events[..|events| - 1][..j] == events[..j] && events[..|events| - 1][..j + 1] == events[..j + 1];
      if e.Run? && e.handler < |s.handlers| {
        AdvanceKeeps(server, s, s.handlers[e.handler], e.now);
      }
    } else if e.Run? && e.handler < |s.handlers| {
      AdvanceKeeps(server, s, s.handlers[e.handler], e.now);
      AdvanceReadsClock(server, s, s.handlers[e.handler], e.now);
    }
  }

  lemma AdvanceReadsClock(server: Server, s: State, h: Handler, now: int)
    ensures var s1 := Advance(server, s, h, now).0;
      s.acceptedNs.None? && s1.acceptedNs.Some? ==> s1.acceptedNs == Some(now)
  {
    hide Judge, EndsWith;
  }

  // BeaconSnapshot, and whether the accepted event is set.
  datatype Snapshot = Snapshot(
    acceptedNs: Option<int>, pageRequests: nat, beaconRequests: nat, rejections: seq<string>, duplicate: bool,
    announced: bool)

  // Runs a script of arrivals and handler sections on the class, in any interleaving.
  method Drive(server: Server, events: seq<Event>)
    returns (accepted: seq<Option<int>>, handlers: seq<Handler>, snapshot: Snapshot)
    ensures handlers == RunAll(server, events).handlers
    ensures |accepted| == |events|
    ensures forall k :: 0 <= k < |events| ==> accepted[k] == RunAll(server, events[..k + 1]).acceptedNs
    ensures snapshot == SnapshotOf(RunAll(server, events))
  {
    hide RunAll, Step;
    var state := new BeaconState(server);
    NothingYet(server);
    accepted, handlers := [], [];
    for i := 0 to |events|
      invariant fresh(state) && state.server == server && handlers == state.handlers
      invariant state.Now() == RunAll(server, events[..i])
      invariant |accepted| == i && forall k :: 0 <= k < i ==> accepted[k] == RunAll(server, events[..k + 1]).acceptedNs
    {
      OneMoreEvent(server, events, i);
      match events[i] {
        case Arrive(request) =>
          state.Arrive(request);
          handlers := handlers + [Arrived(request)];
          ArriveKeeps(server, RunAll(server, events[..i]), request);
        case Run(h, now) =>
          if h < |handlers| {
            var next := state.Section(h, handlers[h], now);
            handlers := handlers[h := next];
          } else {
            NobodyRuns(server, RunAll(server, events[..i]), h, now);
          }
      }
      accepted := accepted + [state.acceptedNs];
    }
    assert events[..|events|] == events;
    snapshot := Snapshot(
      state.acceptedNs, state.pageRequests, state.beaconRequests, state.rejections, state.duplicateBeacon,
      state.announced);
  }

  ghost function SnapshotOf(s: State): Snapshot {
    Snapshot(s.acceptedNs, s.pageRequests, s.beaconRequests, s.rejections, s.duplicateBeacon, s.announced)
  }

  // Event j is the first with a timestamp: a section of the handler that won, at that time.
  predicate FirstAccepted(events: seq<Event>, accepted: seq<Option<int>>, handlers: seq<Handler>, j: nat) {
    && j < |events| == |accepted|
    && (forall m :: 0 <= m < j ==> accepted[m].None?)
    && events[j].Run? && accepted[j] == Some(events[j].now)
    && events[j].handler < |handlers| && Won(handlers[events[j].handler])
  }

  // What the run promises. accepted lists accepted_ns after each event: it is set at most
  // once, to the time of the winner's own section. Every request is answered as it deserves
  // once its handler had four sections, at most one of them with the image. The counters
  // and the reasons are those of the answers, and a duplicate is recorded exactly when two
  // handlers claimed the beacon.
  method Serve(server: Server, events: seq<Event>)
    returns (accepted: seq<Option<int>>, handlers: seq<Handler>, snapshot: Snapshot)
    ensures |handlers| == |Arrivals(events)| && |accepted| == |events|
    ensures forall i :: 0 <= i < |handlers| ==>
              && handlers[i].request == Arrivals(events)[i]
              && (Turns(events, i) >= 4 ==> handlers[i].Replied?)
              && (handlers[i].Replied? ==>
                    Deserves(server, handlers[i].request, handlers[i].status, handlers[i].body))
    ensures forall k :: 0 <= k < |events| ==> accepted[k] == RunAll(server, events[..k + 1]).acceptedNs
    ensures forall i, j :: 0 <= i <= j < |events| && accepted[i].Some? ==> accepted[j] == accepted[i]
    ensures forall k :: 0 <= k < |events| && accepted[k].Some? ==>
              exists j :: 0 <= j <= k && FirstAccepted(events, accepted, handlers, j)
    ensures snapshot.acceptedNs == if events == [] then None else accepted[|events| - 1]
    ensures snapshot.announced <==> Answers(handlers, Gif) == 1
    ensures snapshot.announced ==> snapshot.acceptedNs.Some?
    ensures snapshot.pageRequests == Answers(handlers, Payload)
    ensures snapshot.beaconRequests == Beacons(server, handlers)
    ensures forall reason :: multiset(snapshot.rejections)[reason] == Refusals(server, handlers, reason)
    ensures handlers == RunAll(server, events).handlers
    ensures Answers(handlers, Gif) <= 1
    ensures forall i :: 0 <= i < |handlers| && handlers[i].Replied? ==>
              (ValidBeacon(server, handlers[i].request) <==> handlers[i].body == Gif || handlers[i].body == Duplicate)
    ensures snapshot.duplicate <==>
              exists i, j :: 0 <= i < |handlers| && 0 <= j < |handlers| && i != j
                 && Won(handlers[i]) && Lost(handlers[j])
    ensures forall i, j :: 0 <= i < j < |handlers| ==>
              (Answered(server, handlers[i]) && Answered(server, handlers[j]) ==> snapshot.duplicate)
  {
    hide RunAll, Step, ValidBeacon, Won, Lost, Answered, Deserves, Answers, Beacons, Refusals, Turns, Arrivals;
    hide FirstAccepted;
    accepted, handlers, snapshot := Drive(server, events);
    NothingYet(server);
    assert events[..|events|] == events;
    OneBeaconWins(server, events);
    RunFacts(server, events);
    AtMostOneGif(handlers);
    AnnouncedMeansGif(server, events);
    Chronology(server, events, accepted);
  }

  lemma Chronology(server: Server, events: seq<Event>, accepted: seq<Option<int>>)
    requires |accepted| == |events|
    requires forall k :: 0 <= k < |events| ==> accepted[k] == RunAll(server, events[..k + 1]).acceptedNs
    ensures var handlers := RunAll(server, events).handlers;
      && (forall i, j :: 0 <= i <= j < |events| && accepted[i].Some? ==> accepted[j] == accepted[i])
      && forall k :: 0 <= k < |events| && accepted[k].Some? ==>
           exists j :: 0 <= j <= k && FirstAccepted(events, accepted, handlers, j)
  {
    hide RunAll, Won;
    forall i, j | 0 <= i <= j < |events| && accepted[i].Some?
      ensures accepted[j] == accepted[i]
    {
      AcceptedSince(server, events, i + 1, j + 1);
    }
    var handlers := RunAll(server, events).handlers;
    forall k | 0 <= k < |events| && accepted[k].Some?
      ensures exists j :: 0 <= j <= k && FirstAccepted(events, accepted, handlers, j)
    {
      var j := AcceptedEarlier(server, events, k);
      assert FirstAccepted(events, accepted, handlers, j);
    }
  }

  lemma RunFacts(server: Server, events: seq<Event>)
    ensures var s := RunAll(server, events);
      && Booked(server, s) && |s.handlers| == |Arrivals(events)|
      && forall i :: 0 <= i < |s.handlers| ==>
           && s.handlers[i].request == Arrivals(events)[i]
           && (Turns(events, i) >= 4 ==> s.handlers[i].Replied?)
           && (s.handlers[i].Replied? ==>
                 Deserves(server, s.handlers[i].request, s.handlers[i].status, s.handlers[i].body))
  {
    hide RunAll, Booked, Deserves, Turns, Arrivals;
    RunBooked(server, events);
    RunSound(server, events);
    EveryoneIsAnswered(server, events);
  }

  lemma {:induction false} SomeGif(handlers: seq<Handler>)
    ensures Answers(handlers, Gif) > 0 <==>
            exists i :: 0 <= i < |handlers| && handlers[i].Replied? && handlers[i].body == Gif
    decreases |handlers|
  {
    if handlers != [] {
      var n := |handlers| - 1;
      SomeGif(handlers[..n]);
      assert forall i :: 0 <= i < n ==> handlers[..n][i] == handlers[i];
      assert Answers(handlers, Gif) ==
             Answers(handlers[..n], Gif) + if handlers[n].Replied? && handlers[n].body == Gif then 1 else 0;
    }
  }

  lemma AnnouncedMeansGif(server: Server, events: seq<Event>)
    ensures var s := RunAll(server, events);
      s.announced <==> Answers(s.handlers, Gif) > 0
  {
    hide RunAll, Answers;
    RunSound(server, events);
    SomeGif(RunAll(server, events).handlers);
  }

  lemma AcceptedSince(server: Server, events: seq<Event>, a: nat, b: nat)
    requires a <= b <= |events|
    ensures RunAll(server, events[..a]).acceptedNs.Some? ==>
              RunAll(server, events[..b]).acceptedNs == RunAll(server, events[..a]).acceptedNs
  {
    hide RunAll;
    if RunAll(server, events[..a]).acceptedNs.Some? {
      AcceptedOnce(server, events[..a], events[a..b]);
      assert events[..a] + events[a..b] == events[..b];
    }
  }

  // Who accepted the beacon has won in the end, too.
  lemma AcceptedEarlier(server: Server, events: seq<Event>, k: nat) returns (j: nat)
    requires k < |events| && RunAll(server, events[..k + 1]).acceptedNs.Some?
    ensures j <= k && events[j].Run? && Some(events[j].now) == RunAll(server, events[..k + 1]).acceptedNs
    ensures RunAll(server, events[..j + 1]).acceptedNs == Some(events[j].now)
    ensures forall m :: 0 <= m <= j ==> RunAll(server, events[..m]).acceptedNs.None?
    ensures var hs := RunAll(server, events).handlers; events[j].handler < |hs| && Won(hs[events[j].handler])
  {
    hide RunAll, Won;
    assert events[..|events|] == events;
    AcceptedSince(server, events, k + 1, |events|);
    j := AcceptedByTheWinner(server, events);
    if k < j {
      AcceptedSince(server, events, k + 1, j);
    }
    forall m | 0 <= m <= j
      ensures RunAll(server, events[..m]).acceptedNs.None?
    {
      AcceptedSince(server, events, m, j);
    }
  }

  lemma NothingYet(server: Server)
    ensures RunAll(server, []) == FRESH && !FRESH.announced
  {
  }

  lemma OneMoreEvent(server: Server, events: seq<Event>, i: nat)
    requires i < |events|
    ensures RunAll(server, events[..i + 1]) == Step(server, RunAll(server, events[..i]), events[i])
  {
    assert events[..i + 1][..i] == events[..i];
  }

  lemma ArriveKeeps(server: Server, s: State, r: Request)
    ensures Step(server, s, Arrive(r)) == s.(handlers := s.handlers + [Arrived(r)])
  {
  }

  lemma NobodyRuns(server: Server, s: State, h: nat, now: int)
    requires h >= |s.handlers|
    ensures Step(server, s, Run(h, now)) == s
  {
  }
}
