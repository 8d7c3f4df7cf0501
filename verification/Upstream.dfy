/** internal/mcpserver/upstream.go: the proxy's one upstream session and its drift latch.

    Every method holds the mutex for one critical section and drops it in between, so a call is a
    sequence of atomic sections that other calls and `Close` interleave with. The class carries those
    sections; `LocalStep` is the program one call runs, section by section. */
module Upstream {
  import opened Wrappers

  type SessionId = nat
  type CallId = nat

  /** An advertised tool: its fingerprint, unless it does not serialise, and its argument names, when
      its schema is closed. */
  datatype Tool = Tool(name: string, fingerprint: Option<string>, declared: Option<set<string>>)

  /** An answered `tools/list`; the SDK's slice may hold nil entries. */
  type Listing = seq<Option<Tool>>

  datatype Backend = Backend(session: Option<SessionId>, closed: bool, drift: Option<string>,
                             allowlist: seq<string>, baseline: map<string, string>, selected: seq<Tool>)

  function FindTool(tools: Listing, name: string): (found: Option<Tool>)
    ensures found.Some? <==> exists i :: 0 <= i < |tools| && tools[i].Some? && tools[i].value.name == name
    ensures found.Some? ==> found in tools && found.value.name == name
  {
    if tools == [] then None
    else if tools[0].Some? && tools[0].value.name == name then tools[0]
    else FindTool(tools[1..], name)
  }

  // ---------------------------------------------------------------- startup

  /** The reviewed contract: one fingerprint and one tool per allowlisted name, or nothing. */
  function Snapshot(allowlist: seq<string>, tools: Listing): Option<(map<string, string>, seq<Tool>)> {
    if allowlist == [] then Some((map[], []))
    else
      var n := |allowlist| - 1;
      var tool := FindTool(tools, allowlist[n]);
      match Snapshot(allowlist[..n], tools)
      case None => None
      case Some((baseline, selected)) =>
        if tool.None? || tool.value.fingerprint.None? then None
        else Some((baseline[allowlist[n] := tool.value.fingerprint.value], selected + [tool.value]))
  }

  predicate Advertised(tools: Listing, name: string) {
    FindTool(tools, name).Some? && FindTool(tools, name).value.fingerprint.Some?
  }

  lemma {:induction false} SnapshotSucceedsIff(allowlist: seq<string>, tools: Listing)
    ensures Snapshot(allowlist, tools).Some? <==> forall i :: 0 <= i < |allowlist| ==> Advertised(tools, allowlist[i])
  {
    if allowlist != [] {
      var n := |allowlist| - 1;
      SnapshotSucceedsIff(allowlist[..n], tools);
      assert forall i :: 0 <= i < n ==> allowlist[..n][i] == allowlist[i];
    }
  }

  /** Each selected tool is the advertised one, and the baseline is its fingerprint. */
  ghost predicate Contract(allowlist: seq<string>, tools: Listing, baseline: map<string, string>, selected: seq<Tool>) {
    && |selected| == |allowlist|
    && (forall name :: name in baseline <==> name in allowlist)
    && forall i :: 0 <= i < |allowlist| ==>
         && Some(selected[i]) == FindTool(tools, allowlist[i])
         && selected[i].fingerprint == Some(baseline[allowlist[i]])
  }

  lemma {:induction false} SnapshotIsContract(allowlist: seq<string>, tools: Listing)
    requires Snapshot(allowlist, tools).Some?
    ensures Contract(allowlist, tools, Snapshot(allowlist, tools).value.0, Snapshot(allowlist, tools).value.1)
  {
    if allowlist != [] {
      var n := |allowlist| - 1;
      SnapshotIsContract(allowlist[..n], tools);
      var (baseline, selected) := Snapshot(allowlist[..n], tools).value;
      ContractGrows(allowlist[..n], allowlist[n], tools, baseline, selected, FindTool(tools, allowlist[n]).value);
      assert allowlist == allowlist[..n] + [allowlist[n]];
    }
  }

  lemma {:induction false} ContractGrows(front: seq<string>, name: string, tools: Listing, baseline: map<string, string>,
                                         selected: seq<Tool>, tool: Tool)
    requires Contract(front, tools, baseline, selected) && FindTool(tools, name) == Some(tool) && tool.fingerprint.Some?
    ensures Contract(front + [name], tools, baseline[name := tool.fingerprint.value], selected + [tool])
  {
    var all, chosen := front + [name], selected + [tool];
    forall i | 0 <= i < |all|
      ensures Some(chosen[i]) == FindTool(tools, all[i]) && chosen[i].fingerprint == Some(baseline[name := tool.fingerprint.value][all[i]])
    {
      if i < |front| { assert all[i] == front[i] && chosen[i] == selected[i]; }
    }
  }

  /** A snapshot succeeds exactly when every allowlisted tool is advertised and serialises, and then the
      baseline is each one's advertised fingerprint, in allowlist order. */
  lemma {:induction false} SnapshotIsTheAdvertisedContract(allowlist: seq<string>, tools: Listing)
    ensures Snapshot(allowlist, tools).Some? <==> forall name :: name in allowlist ==> Advertised(tools, name)
    ensures Snapshot(allowlist, tools).Some? ==>
      Contract(allowlist, tools, Snapshot(allowlist, tools).value.0, Snapshot(allowlist, tools).value.1)
  {
    SnapshotSucceedsIff(allowlist, tools);
    if Snapshot(allowlist, tools).Some? {
      SnapshotIsContract(allowlist, tools);
    }
  }

  // ---------------------------------------------------------------- the critical sections

  datatype Verdict = Fresh | Drifted | Failed

  /** One drift check: the backend it leaves, its verdict, and the fingerprint a listing showed, if one
      was sent. */
  datatype Check = Check(backend: Backend, verdict: Verdict, listed: Option<Option<string>>)

  function EnsureFresh(b: Backend, name: string, probe: Option<Listing>): Check {
    if b.drift.Some? then Check(b, Drifted, None)
    else if b.session.None? then Check(b, Failed, None)
    else if probe.None? then Check(b, Failed, Some(None))
    else
      match FindTool(probe.value, name)
      case None => Check(b, Failed, Some(None))
      case Some(tool) =>
        if tool.fingerprint.None? then Check(b, Failed, Some(None))
        else if name !in b.baseline then Check(b, Failed, Some(tool.fingerprint))
        else if tool.fingerprint.value != b.baseline[name] then Check(b.(drift := Some(name)), Drifted, Some(tool.fingerprint))
        else if name !in b.allowlist then Check(b, Failed, Some(tool.fingerprint))
        else Check(b, Fresh, Some(tool.fingerprint))
  }

  function DeclaredArgs(selected: seq<Tool>, name: string): Option<set<string>> {
    if selected == [] then None
    else if selected[0].name == name then selected[0].declared
    else DeclaredArgs(selected[1..], name)
  }

  function Take(b: Backend): (Backend, Option<Option<SessionId>>) {
    if b.closed then (b, None) else (b.(session := None), Some(b.session))
  }

  function Install(b: Backend, replacement: SessionId): (Backend, bool) {
    if b.closed then (b, false) else (b.(session := Some(replacement)), true)
  }

  function Shut(b: Backend): Backend { b.(closed := true, session := None) }

  class ProxyBackend {
    var session: Option<SessionId>
    var closed: bool
    var drift: Option<string>
    const allowlist: seq<string>
    var baseline: map<string, string>
    var selected: seq<Tool>

    function View(): Backend reads this {
      Backend(session, closed, drift, allowlist, baseline, selected)
    }

    constructor (allowlist: seq<string>, dialled: SessionId)
      ensures View() == Backend(Some(dialled), false, None, allowlist, map[], [])
    {
      this.allowlist := allowlist;
      session, closed, drift, baseline, selected := Some(dialled), false, None, map[], [];
    }

    /** `snapshot`, once its listing is in hand: nothing is published unless every tool resolves. */
    method TakeSnapshot(tools: Listing) returns (ok: bool)
      modifies this`baseline, this`selected
      ensures ok == Snapshot(allowlist, tools).Some?
      ensures (baseline, selected) == if ok then Snapshot(allowlist, tools).value else (old(baseline), old(selected))
    {
      var fingerprints: map<string, string>, chosen: seq<Tool> := map[], [];
      var i := 0;
      while i < |allowlist|
        invariant 0 <= i <= |allowlist|
        invariant Snapshot(allowlist[..i], tools) == Some((fingerprints, chosen))
      {
        var tool := FindTool(tools, allowlist[i]);
        assert allowlist[..i + 1][..i] == allowlist[..i];
        if tool.None? || tool.value.fingerprint.None? {
          SnapshotNeedsEveryPrefix(allowlist, tools, i + 1);
          return false;
        }
        fingerprints := fingerprints[allowlist[i] := tool.value.fingerprint.value];
        chosen := chosen + [tool.value];
        i := i + 1;
      }
      assert allowlist[..|allowlist|] == allowlist;
      baseline, selected := fingerprints, chosen;
      ok := true;
    }

    method CheckFresh(name: string, probe: Option<Listing>) returns (verdict: Verdict)
      modifies this`drift
      ensures View() == EnsureFresh(old(View()), name, probe).backend
      ensures verdict == EnsureFresh(old(View()), name, probe).verdict
    {
      if drift.Some? { return Drifted; }
      if session.None? || probe.None? { return Failed; }
      var tool := FindTool(probe.value, name);
      if tool.None? || tool.value.fingerprint.None? { return Failed; }
      if name !in baseline { return Failed; }
      if tool.value.fingerprint.value != baseline[name] {
        drift := Some(name);
        return Drifted;
      }
      if name !in allowlist { return Failed; }
      verdict := Fresh;
    }

    /** The first half of `reconnect`: give the session up, or learn that the backend is closed. */
    method TakeSession() returns (stale: Option<Option<SessionId>>)
      modifies this`session
      ensures (View(), stale) == Take(old(View()))
    {
      if closed { return None; }
      stale := Some(session);
      session := None;
    }

    /** The second half: the slot is assigned without looking at what is there. */
    method InstallSession(replacement: SessionId) returns (installed: bool)
      modifies this`session
      ensures (View(), installed) == Install(old(View()), replacement)
    {
      if closed { return false; }
      session := Some(replacement);
      installed := true;
    }

    method Close() returns (last: Option<SessionId>)
      modifies this`closed, this`session
      ensures View() == Shut(old(View())) && last == old(session)
    {
      closed := true;
      last := session;
      session := None;
    }

    method FindDeclared(name: string) returns (declared: Option<set<string>>)
      ensures declared == DeclaredArgs(selected, name)
    {
      var i := 0;
      while i < |selected|
        invariant 0 <= i <= |selected|
        invariant DeclaredArgs(selected[i..], name) == DeclaredArgs(selected, name)
      {
        if selected[i].name == name { return selected[i].declared; }
        assert selected[i..][1..] == selected[i + 1..];
        i := i + 1;
      }
      declared := None;
    }
  }

  lemma {:induction false} SnapshotNeedsEveryPrefix(allowlist: seq<string>, tools: Listing, n: nat)
    requires n <= |allowlist| && Snapshot(allowlist[..n], tools).None?
    ensures Snapshot(allowlist, tools).None?
  {
    if n == |allowlist| {
      assert allowlist[..n] == allowlist;
    } else {
      var last := |allowlist| - 1;
      assert allowlist[..last][..n] == allowlist[..n];
      SnapshotNeedsEveryPrefix(allowlist[..last], tools, n);
    }
  }

  // ---------------------------------------------------------------- one call, section by section

  datatype Pc =
    | Checking
    | CheckFailed
    | Taking
    | ClosingStale(stale: Option<SessionId>)
    | Dialling
    | Installing(replacement: SessionId)
    | Rechecking
    | Resolving(probed: SessionId)
    | Calling(session: SessionId)
    | Done

  datatype Event =
    | Dialled(call: CallId, connected: Option<SessionId>)
    | Listed(call: CallId, session: SessionId, tool: string, shown: Option<string>)
    | Called(call: CallId, session: SessionId, tool: string)
    | SessionClosed(session: SessionId)

  /** What the upstream and the caller supply to a section: a listing or a failed one, whether a dial
      connects, and the argument names, unless they do not decode. */
  datatype Input = Input(probe: Option<Listing>, dials: bool, args: Option<set<string>>)

  datatype Move = Move(backend: Backend, pc: Pc, event: Option<Event>)

  function CheckMove(b: Backend, id: CallId, tool: string, probe: Option<Listing>, otherwise: Pc): Move {
    var check := EnsureFresh(b, tool, probe);
    Move(check.backend,
         if check.verdict.Fresh? && b.session.Some? then Resolving(b.session.value) else otherwise,
         if check.listed.Some? && b.session.Some? then Some(Listed(id, b.session.value, tool, check.listed.value)) else None)
  }

  function LocalStep(b: Backend, unused: SessionId, id: CallId, tool: string, pc: Pc, input: Input): Move {
    match pc
    case Checking => CheckMove(b, id, tool, input.probe, CheckFailed)
    case CheckFailed => Move(b, if b.drift.Some? then Done else Taking, None)
    case Taking =>
      var (b', stale) := Take(b);
      Move(b', if stale.None? then Done else ClosingStale(stale.value), None)
    case ClosingStale(stale) => Move(b, Dialling, if stale.Some? then Some(SessionClosed(stale.value)) else None)
    case Dialling =>
      if input.dials then Move(b, Installing(unused), Some(Dialled(id, Some(unused))))
      else Move(b, Done, Some(Dialled(id, None)))
    case Installing(replacement) =>
      var (b', installed) := Install(b, replacement);
      if installed then Move(b', Rechecking, None) else Move(b', Done, Some(SessionClosed(replacement)))
    case Rechecking => CheckMove(b, id, tool, input.probe, Done)
    case Resolving(_) => Move(b, if b.session.Some? then Calling(b.session.value) else Done, None)
    case Calling(session) =>
      var declared := DeclaredArgs(b.selected, tool);
      if input.args.None? || (declared.Some? && !(input.args.value <= declared.value)) then Move(b, Done, None)
      else Move(b, Done, Some(Called(id, session, tool)))
    case Done => Move(b, Done, None)
  }

  // ---------------------------------------------------------------- all calls at once

  /** A call in flight, and whether drift or `Close` had already happened when it arrived. */
  datatype Call = Call(tool: string, pc: Pc, lateForDrift: bool, lateForClose: bool)

  datatype World = World(backend: Backend, calls: map<CallId, Call>, sessions: nat, shut: set<SessionId>, trace: seq<Event>)

  datatype Action = Arrive(id: CallId, tool: string) | Advance(id: CallId, input: Input) | Shutdown

  predicate Enabled(w: World, a: Action) {
    match a
    case Arrive(id, _) => id !in w.calls
    case Advance(id, _) => id in w.calls
    case Shutdown => true
  }

  function Record(event: Option<Event>): seq<Event> { if event.Some? then [event.value] else [] }

  function ShutBy(event: Option<Event>): set<SessionId> {
    if event.Some? && event.value.SessionClosed? then {event.value.session} else {}
  }

  predicate Opens(event: Option<Event>) {
    event.Some? && event.value.Dialled? && event.value.connected.Some?
  }

  function Next(w: World, a: Action): World
    requires Enabled(w, a)
  {
    match a
    case Arrive(id, tool) => w.(calls := w.calls[id := Call(tool, Checking, w.backend.drift.Some?, w.backend.closed)])
    case Advance(id, input) =>
      var call := w.calls[id];
      var move := LocalStep(w.backend, w.sessions, id, call.tool, call.pc, input);
      World(move.backend, w.calls[id := call.(pc := move.pc)],
            if Opens(move.event) then w.sessions + 1 else w.sessions,
            w.shut + ShutBy(move.event), w.trace + Record(move.event))
    case Shutdown =>
      var event := if w.backend.session.Some? then Some(SessionClosed(w.backend.session.value)) else None;
      w.(backend := Shut(w.backend), shut := w.shut + ShutBy(event), trace := w.trace + Record(event))
  }

  /** The world right after a successful startup over the given listing. */
  ghost predicate Started(w: World, allowlist: seq<string>, tools: Listing) {
    && Snapshot(allowlist, tools).Some?
    && w == World(Backend(Some(0), false, None, allowlist, Snapshot(allowlist, tools).value.0, Snapshot(allowlist, tools).value.1),
                  map[], 1, {}, [])
  }

  ghost predicate StepAt(worlds: seq<World>, actions: seq<Action>, i: nat)
    requires i < |actions| < |worlds|
  {
    Enabled(worlds[i], actions[i]) && worlds[i + 1] == Next(worlds[i], actions[i])
  }

  ghost predicate Execution(worlds: seq<World>, actions: seq<Action>, allowlist: seq<string>, tools: Listing) {
    && |worlds| == |actions| + 1
    && Started(worlds[0], allowlist, tools)
    && forall i :: 0 <= i < |actions| ==> StepAt(worlds, actions, i)
  }

  // ---------------------------------------------------------------- what every interleaving keeps

  function Dials(trace: seq<Event>, id: CallId): nat {
    if trace == [] then 0
    else Dials(trace[..|trace| - 1], id) + (var e := trace[|trace| - 1]; if e.Dialled? && e.call == id then 1 else 0)
  }

  function Calls(trace: seq<Event>, id: CallId): nat {
    if trace == [] then 0
    else Calls(trace[..|trace| - 1], id) + (var e := trace[|trace| - 1]; if e.Called? && e.call == id then 1 else 0)
  }

  /** Some listing sent by this call showed the tool with the startup fingerprint. */
  ghost predicate FreshSeen(trace: seq<Event>, baseline: map<string, string>, id: CallId, tool: string) {
    && tool in baseline
    && exists i :: 0 <= i < |trace| && trace[i].Listed? && trace[i].call == id && trace[i].tool == tool
                   && trace[i].shown == Some(baseline[tool])
  }

  /** Every CallTool comes after such a listing in its own call. */
  ghost predicate CallsWereFresh(trace: seq<Event>, baseline: map<string, string>) {
    forall i :: 0 <= i < |trace| && trace[i].Called? ==>
      FreshSeen(trace[..i], baseline, trace[i].call, trace[i].tool)
  }

  predicate BeforeDial(pc: Pc) {
    pc.Checking? || pc.CheckFailed? || pc.Taking? || pc.ClosingStale? || pc.Dialling?
  }

  predicate DriftOnly(pc: Pc) { pc.Checking? || pc.CheckFailed? || pc.Done? }

  predicate ClosedOnly(pc: Pc) { pc.Taking? || DriftOnly(pc) }

  /** What a call has done so far, as counts: it fits where the call stands. */
  predicate Fits(dials: nat, calls: nat, freshSeen: bool, b: Backend, call: Call) {
    && dials <= 1
    && calls <= 1
    && (BeforeDial(call.pc) ==> dials == 0)
    && (!call.pc.Done? ==> calls == 0)
    && (call.pc.Resolving? || call.pc.Calling? ==> freshSeen)
    && (call.lateForDrift ==> b.drift.Some? && DriftOnly(call.pc) && dials == 0 && calls == 0)
    && (call.lateForClose ==> b.closed && ClosedOnly(call.pc) && dials == 0 && calls == 0)
  }

  ghost predicate CallKept(trace: seq<Event>, b: Backend, id: CallId, call: Call) {
    Fits(Dials(trace, id), Calls(trace, id), FreshSeen(trace, b.baseline, id, call.tool), b, call)
  }

  ghost predicate DriftSeen(trace: seq<Event>, baseline: map<string, string>) {
    exists i :: 0 <= i < |trace| && ShowsDrift(Some(trace[i]), baseline)
  }

  ghost predicate AllKept(w: World) {
    && CallsWereFresh(w.trace, w.backend.baseline)
    && (w.backend.drift.Some? <==> DriftSeen(w.trace, w.backend.baseline))
    && (forall id :: id in w.calls ==> CallKept(w.trace, w.backend, id, w.calls[id]))
    && (forall id :: id !in w.calls ==> Dials(w.trace, id) == 0 && Calls(w.trace, id) == 0)
    && (w.backend.closed ==> w.backend.session.None?)
  }

  /** The startup contract is never rewritten and the drift latch never clears. */
  predicate Latched(b: Backend, b': Backend) {
    && b'.baseline == b.baseline && b'.selected == b.selected && b'.allowlist == b.allowlist
    && (b.drift.Some? ==> b'.drift == b.drift)
    && (b.closed ==> b'.closed)
  }

  predicate IsDial(event: Option<Event>, id: CallId) { event.Some? && event.value.Dialled? && event.value.call == id }

  predicate IsCall(event: Option<Event>, id: CallId) { event.Some? && event.value.Called? && event.value.call == id }

  predicate ShowsFresh(event: Option<Event>, baseline: map<string, string>, id: CallId, tool: string) {
    && tool in baseline
    && event.Some? && event.value.Listed? && event.value.call == id && event.value.tool == tool
    && event.value.shown == Some(baseline[tool])
  }

  /** A listing that showed a reviewed tool with another fingerprint. */
  predicate ShowsDrift(event: Option<Event>, baseline: map<string, string>) {
    && event.Some? && event.value.Listed? && event.value.tool in baseline
    && event.value.shown.Some? && event.value.shown.value != baseline[event.value.tool]
  }

  lemma RecordDrift(trace: seq<Event>, event: Option<Event>, baseline: map<string, string>)
    ensures DriftSeen(trace + Record(event), baseline) <==> DriftSeen(trace, baseline) || ShowsDrift(event, baseline)
  {
    var longer := trace + Record(event);
    if ShowsDrift(event, baseline) {
      assert longer[|trace|] == event.value;
    }
    if DriftSeen(trace, baseline) {
      var i :| 0 <= i < |trace| && ShowsDrift(Some(trace[i]), baseline);
      assert longer[i] == trace[i];
    }
  }

  lemma {:induction false} RecordCounts(trace: seq<Event>, event: Option<Event>, id: CallId)
    ensures Dials(trace + Record(event), id) == Dials(trace, id) + (if IsDial(event, id) then 1 else 0)
    ensures Calls(trace + Record(event), id) == Calls(trace, id) + (if IsCall(event, id) then 1 else 0)
  {
    if event.Some? {
      assert (trace + [event.value])[..|trace|] == trace;
    } else {
      assert trace + [] == trace;
    }
  }

  lemma RecordShows(trace: seq<Event>, event: Option<Event>, baseline: map<string, string>, id: CallId, tool: string)
    ensures FreshSeen(trace + Record(event), baseline, id, tool)
            <==> FreshSeen(trace, baseline, id, tool) || ShowsFresh(event, baseline, id, tool)
  {
    var longer := trace + Record(event);
    if ShowsFresh(event, baseline, id, tool) {
      assert longer[|trace|] == event.value;
    }
    if FreshSeen(trace, baseline, id, tool) {
      var i :| 0 <= i < |trace| && trace[i].Listed? && trace[i].call == id && trace[i].tool == tool && trace[i].shown == Some(baseline[tool]);
      assert longer[i] == trace[i];
    }
  }

  lemma RecordKeepsCallsFresh(trace: seq<Event>, event: Option<Event>, baseline: map<string, string>)
    requires CallsWereFresh(trace, baseline)
    requires event.Some? && event.value.Called? ==> FreshSeen(trace, baseline, event.value.call, event.value.tool)
    ensures CallsWereFresh(trace + Record(event), baseline)
  {
    var longer := trace + Record(event);
    forall i | 0 <= i < |longer| && longer[i].Called?
      ensures FreshSeen(longer[..i], baseline, longer[i].call, longer[i].tool)
    {
      assert longer[..i] == trace[..i];
    }
  }

  predicate MoveFits(b: Backend, id: CallId, call: Call, dials: nat, calls: nat, freshSeen: bool, move: Move) {
    && Latched(b, move.backend)
    && (move.backend.closed ==> move.backend.session.None?)
    && (move.event.Some? && !move.event.value.SessionClosed? ==> move.event.value.call == id)
    && (move.event.Some? && move.event.value.Called? ==> move.event.value.tool == call.tool && freshSeen)
    && Fits(dials + (if IsDial(move.event, id) then 1 else 0), calls + (if IsCall(move.event, id) then 1 else 0),
            freshSeen || ShowsFresh(move.event, b.baseline, id, call.tool), move.backend, call.(pc := move.pc))
    && (move.backend.drift.Some? <==> b.drift.Some? || ShowsDrift(move.event, b.baseline))
  }

  /** A drift check that passes was shown the startup fingerprint. */
  lemma CheckMoveFits(b: Backend, id: CallId, call: Call, probe: Option<Listing>, otherwise: Pc, dials: nat, freshSeen: bool)
    requires Fits(dials, 0, freshSeen, b, call) && (b.closed ==> b.session.None?)
    requires (call.pc.Checking? && otherwise.CheckFailed?) || (call.pc.Rechecking? && otherwise.Done?)
    ensures MoveFits(b, id, call, dials, 0, freshSeen, CheckMove(b, id, call.tool, probe, otherwise))
  {
    var check := EnsureFresh(b, call.tool, probe);
    assert Latched(b, check.backend) && check.backend.session == b.session && check.backend.closed == b.closed;
    assert check.verdict.Fresh? ==> call.tool in b.baseline && check.listed == Some(Some(b.baseline[call.tool]));
  }

  /** What one section may do, whatever the rest of the world is doing. */
  lemma LocalStepFits(b: Backend, unused: SessionId, id: CallId, call: Call, input: Input, dials: nat, calls: nat, freshSeen: bool)
    requires Fits(dials, calls, freshSeen, b, call) && (b.closed ==> b.session.None?)
    ensures MoveFits(b, id, call, dials, calls, freshSeen, LocalStep(b, unused, id, call.tool, call.pc, input))
  {
    match call.pc {
      case Checking => CheckMoveFits(b, id, call, input.probe, CheckFailed, dials, freshSeen);
      case Rechecking => CheckMoveFits(b, id, call, input.probe, Done, dials, freshSeen);
      case _ =>
    }
  }

  lemma AdvancedCallKept(trace: seq<Event>, b: Backend, unused: SessionId, id: CallId, call: Call, input: Input)
    requires CallKept(trace, b, id, call) && (b.closed ==> b.session.None?)
    ensures var move := LocalStep(b, unused, id, call.tool, call.pc, input);
            CallKept(trace + Record(move.event), move.backend, id, call.(pc := move.pc))
  {
    var move := LocalStep(b, unused, id, call.tool, call.pc, input);
    LocalStepFits(b, unused, id, call, input, Dials(trace, id), Calls(trace, id), FreshSeen(trace, b.baseline, id, call.tool));
    RecordCounts(trace, move.event, id);
    RecordShows(trace, move.event, b.baseline, id, call.tool);
  }

  lemma OtherCallKept(trace: seq<Event>, event: Option<Event>, b: Backend, b': Backend, id: CallId, call: Call)
    requires CallKept(trace, b, id, call) && Latched(b, b')
    requires event.Some? && !event.value.SessionClosed? ==> event.value.call != id
    ensures CallKept(trace + Record(event), b', id, call)
  {
    RecordCounts(trace, event, id);
    RecordShows(trace, event, b.baseline, id, call.tool);
  }

  lemma NextKeeps(w: World, a: Action)
    requires AllKept(w) && Enabled(w, a)
    ensures AllKept(Next(w, a)) && Latched(w.backend, Next(w, a).backend)
  {
    var w' := Next(w, a);
    match a
    case Arrive(id, tool) =>
    case Advance(id, input) =>
      var call := w.calls[id];
      var move := LocalStep(w.backend, w.sessions, id, call.tool, call.pc, input);
      LocalStepFits(w.backend, w.sessions, id, call, input, Dials(w.trace, id), Calls(w.trace, id),
                    FreshSeen(w.trace, w.backend.baseline, id, call.tool));
      AdvancedCallKept(w.trace, w.backend, w.sessions, id, call, input);
      RecordKeepsCallsFresh(w.trace, move.event, w.backend.baseline);
      RecordDrift(w.trace, move.event, w.backend.baseline);
      forall other | other in w'.calls && other != id
        ensures CallKept(w'.trace, w'.backend, other, w'.calls[other])
      {
        OtherCallKept(w.trace, move.event, w.backend, move.backend, other, w.calls[other]);
      }
      forall other | other !in w'.calls
        ensures Dials(w'.trace, other) == 0 && Calls(w'.trace, other) == 0
      {
        RecordCounts(w.trace, move.event, other);
      }
    case Shutdown =>
      var event := if w.backend.session.Some? then Some(SessionClosed(w.backend.session.value)) else None;
      RecordKeepsCallsFresh(w.trace, event, w.backend.baseline);
      RecordDrift(w.trace, event, w.backend.baseline);
      forall other | other in w'.calls
        ensures CallKept(w'.trace, w'.backend, other, w'.calls[other])
      {
        OtherCallKept(w.trace, event, w.backend, w'.backend, other, w.calls[other]);
      }
      forall other | other !in w'.calls
        ensures Dials(w'.trace, other) == 0 && Calls(w'.trace, other) == 0
      {
        RecordCounts(w.trace, event, other);
      }
  }

  /** In every reachable state of every interleaving: the startup contract is intact and the drift latch
      holds, set exactly when some listing showed another fingerprint than the startup one; each call has
      dialled at most once and called at most once; every CallTool followed a listing in its own call that
      showed the startup fingerprint; a call that arrived after drift on any tool, or after `Close`, has
      done neither; and a closed backend holds no session. */
  lemma {:induction false} EveryInterleavingKeeps(worlds: seq<World>, actions: seq<Action>, allowlist: seq<string>, tools: Listing, n: nat)
    requires Execution(worlds, actions, allowlist, tools) && n <= |actions|
    ensures AllKept(worlds[n]) && Latched(worlds[0].backend, worlds[n].backend)
    ensures forall i :: 0 <= i < n ==> Latched(worlds[i].backend, worlds[n].backend)
  {
    if n > 0 {
      EveryInterleavingKeeps(worlds, actions, allowlist, tools, n - 1);
      assert StepAt(worlds, actions, n - 1);
      NextKeeps(worlds[n - 1], actions[n - 1]);
    }
  }
}
