/** Which session a CallTool goes over. The drift check and the session lookup are two critical sections,
    so a reconnect by another call can slip between them. */
module ProbedSessions {
  import opened Wrappers
  import opened Upstream
  import opened SessionOwnership

  /** This call listed the tool over this very session and saw the startup fingerprint. */
  ghost predicate ProbedOn(trace: seq<Event>, baseline: map<string, string>, id: CallId, s: SessionId, tool: string) {
    tool in baseline && Listed(id, s, tool, Some(baseline[tool])) in trace
  }

  /** Every CallTool goes over a session its own call had listed and found fresh. */
  ghost predicate CallsWereProbed(trace: seq<Event>, baseline: map<string, string>) {
    forall i :: 0 <= i < |trace| && trace[i].Called? ==>
      ProbedOn(trace[..i], baseline, trace[i].call, trace[i].session, trace[i].tool)
  }

  /** The slot a call that passed its check is about to read holds another session. */
  predicate SlotSwapped(b: Backend, pc: Pc) {
    pc.Resolving? && b.session.Some? && b.session.value != pc.probed
  }

  predicate Swapped(w: World, a: Action) {
    a.Advance? && a.id in w.calls && SlotSwapped(w.backend, w.calls[a.id].pc)
  }

  /** What a call may have listed by the time it stands where it does; `swapped` tells whether it read a
      swapped slot. */
  ghost predicate CallProbed(trace: seq<Event>, baseline: map<string, string>, id: CallId, call: Call, swapped: bool) {
    match call.pc
    case Resolving(probed) => !swapped && forall s :: ProbedOn(trace, baseline, id, s, call.tool) <==> s == probed
    case Calling(s) => ProbedOn(trace, baseline, id, s, call.tool) <==> !swapped
    case Done => true
    case _ => !swapped && forall s :: !ProbedOn(trace, baseline, id, s, call.tool)
  }

  /** The baseline names only allowlisted tools, so a listing that shows a fresh one passes. */
  ghost predicate Reviewed(b: Backend) { forall name :: name in b.baseline ==> name in b.allowlist }

  /** A listing shows its own call a fresh tool exactly when the check passes on the listed session. */
  lemma CheckMoveProbes(b: Backend, id: CallId, tool: string, probe: Option<Listing>, otherwise: Pc)
    requires Reviewed(b) && (otherwise.CheckFailed? || otherwise.Done?)
    ensures var move := CheckMove(b, id, tool, probe, otherwise);
            && (move.pc == otherwise || (move.pc.Resolving? && b.session == Some(move.pc.probed)))
            && (move.event.Some? ==> move.event.value.Listed?)
            && forall s :: tool in b.baseline && move.event == Some(Listed(id, s, tool, Some(b.baseline[tool])))
                           <==> move.pc == Resolving(s)
  {
  }

  lemma RecordProbes(trace: seq<Event>, event: Option<Event>, baseline: map<string, string>, id: CallId, tool: string, s: SessionId)
    ensures ProbedOn(trace + Record(event), baseline, id, s, tool)
            <==> ProbedOn(trace, baseline, id, s, tool)
                 || (tool in baseline && event == Some(Listed(id, s, tool, Some(baseline[tool]))))
  {
  }

  /** One section of a call carries what its listings say about the session it will use. */
  lemma SectionProbes(trace: seq<Event>, b: Backend, unused: SessionId, id: CallId, call: Call, input: Input, swapped: bool)
    requires Reviewed(b) && CallProbed(trace, b.baseline, id, call, swapped)
    ensures var move := LocalStep(b, unused, id, call.tool, call.pc, input);
            && CallProbed(trace + Record(move.event), b.baseline, id, call.(pc := move.pc), swapped || SlotSwapped(b, call.pc))
            && (move.event.Some? && move.event.value.Called? ==>
                 call.pc.Calling? && move.event.value == Called(id, call.pc.session, call.tool))
  {
    var move := LocalStep(b, unused, id, call.tool, call.pc, input);
    if call.pc.Checking? || call.pc.Rechecking? {
      CheckMoveProbes(b, id, call.tool, input.probe, if call.pc.Checking? then CheckFailed else Done);
    }
    forall s
      ensures ProbedOn(trace + Record(move.event), b.baseline, id, s, call.tool)
              <==> ProbedOn(trace, b.baseline, id, s, call.tool) || (!call.pc.Resolving? && move.pc == Resolving(s))
    {
      RecordProbes(trace, move.event, b.baseline, id, call.tool, s);
    }
  }

  lemma OtherProbed(trace: seq<Event>, event: Option<Event>, baseline: map<string, string>, id: CallId, call: Call, swapped: bool)
    requires CallProbed(trace, baseline, id, call, swapped)
    requires event.Some? && event.value.Listed? ==> event.value.call != id
    ensures CallProbed(trace + Record(event), baseline, id, call, swapped)
  {
    forall s
      ensures ProbedOn(trace + Record(event), baseline, id, s, call.tool) <==> ProbedOn(trace, baseline, id, s, call.tool)
    {
      RecordProbes(trace, event, baseline, id, call.tool, s);
    }
  }

  // ---------------------------------------------------------------- over whole executions

  ghost predicate ProbesKept(w: World, swapped: set<CallId>) {
    && Reviewed(w.backend)
    && (forall id :: id in w.calls ==> CallProbed(w.trace, w.backend.baseline, id, w.calls[id], id in swapped))
    && (forall id :: id !in w.calls ==> id !in swapped)
    && (forall id, s, tool :: ProbedOn(w.trace, w.backend.baseline, id, s, tool) ==> id in w.calls)
  }

  /** The calls that have read a swapped slot, a step later. */
  function SwappedBy(w: World, a: Action): set<CallId> { if Swapped(w, a) then {a.id} else {} }

  lemma AdvanceProbes(w: World, id: CallId, input: Input, swapped: set<CallId>)
    requires ProbesKept(w, swapped) && id in w.calls
    ensures ProbesKept(Next(w, Advance(id, input)), swapped + SwappedBy(w, Advance(id, input)))
  {
    var w', call := Next(w, Advance(id, input)), w.calls[id];
    var move := LocalStep(w.backend, w.sessions, id, call.tool, call.pc, input);
    SectionProbes(w.trace, w.backend, w.sessions, id, call, input, id in swapped);
    SectionKeepsContract(w.backend, w.sessions, id, call.tool, call.pc, input);
    forall other | other in w.calls && other != id
      ensures CallProbed(w'.trace, w.backend.baseline, other, w.calls[other], other in swapped)
    {
      OtherProbed(w.trace, move.event, w.backend.baseline, other, w.calls[other], other in swapped);
    }
    forall other, s, tool | ProbedOn(w'.trace, w.backend.baseline, other, s, tool) ensures other in w'.calls {
      RecordProbes(w.trace, move.event, w.backend.baseline, other, tool, s);
    }
  }

  lemma SectionKeepsContract(b: Backend, unused: SessionId, id: CallId, tool: string, pc: Pc, input: Input)
    ensures var move := LocalStep(b, unused, id, tool, pc, input);
            && move.backend.baseline == b.baseline && move.backend.allowlist == b.allowlist
            && (move.event.Some? && move.event.value.Listed? ==> move.event.value.call == id)
  {
  }

  lemma NextProbes(w: World, a: Action, swapped: set<CallId>)
    requires ProbesKept(w, swapped) && Enabled(w, a)
    ensures ProbesKept(Next(w, a), swapped + SwappedBy(w, a))
  {
    match a
    case Arrive(id, tool) =>
    case Advance(id, input) => AdvanceProbes(w, id, input, swapped);
    case Shutdown =>
      var event := if w.backend.session.Some? then Some(SessionClosed(w.backend.session.value)) else None;
      forall id | id in w.calls
        ensures CallProbed(w.trace + Record(event), w.backend.baseline, id, w.calls[id], id in swapped)
      {
        OtherProbed(w.trace, event, w.backend.baseline, id, w.calls[id], id in swapped);
      }
      forall id, s, tool | ProbedOn(w.trace + Record(event), w.backend.baseline, id, s, tool) ensures id in w.calls {
        RecordProbes(w.trace, event, w.backend.baseline, id, tool, s);
      }
  }

  /** The calls that read a swapped slot in the first `n` steps. */
  function Swappers(worlds: seq<World>, actions: seq<Action>, n: nat): (ids: set<CallId>)
    requires n <= |actions| <= |worlds|
    ensures forall id :: id in ids <==> exists i {:trigger actions[i]} :: 0 <= i < n && Swapped(worlds[i], actions[i]) && actions[i].id == id
  {
    if n == 0 then {} else Swappers(worlds, actions, n - 1) + SwappedBy(worlds[n - 1], actions[n - 1])
  }

  lemma StartupProbes(w: World, allowlist: seq<string>, tools: Listing)
    requires Started(w, allowlist, tools)
    ensures ProbesKept(w, {})
  {
    SnapshotIsTheAdvertisedContract(allowlist, tools);
    assert forall name :: name in w.backend.baseline.Keys ==> name in allowlist;
  }

  lemma {:induction false} AlwaysProbesKept(worlds: seq<World>, actions: seq<Action>, allowlist: seq<string>, tools: Listing, n: nat)
    requires Execution(worlds, actions, allowlist, tools) && n <= |actions|
    ensures ProbesKept(worlds[n], Swappers(worlds, actions, n)) && worlds[n].backend.baseline == worlds[0].backend.baseline
  {
    if n == 0 {
      StartupProbes(worlds[0], allowlist, tools);
    } else {
      AlwaysProbesKept(worlds, actions, allowlist, tools, n - 1);
      assert StepAt(worlds, actions, n - 1);
      NextProbes(worlds[n - 1], actions[n - 1], Swappers(worlds, actions, n - 1));
      NextKeepsBaseline(worlds[n - 1], actions[n - 1]);
    }
  }

  lemma NextKeepsBaseline(w: World, a: Action)
    requires Enabled(w, a)
    ensures Next(w, a).backend.baseline == w.backend.baseline
  {
    if a.Advance? {
      SectionKeepsContract(w.backend, w.sessions, a.id, w.calls[a.id].tool, w.calls[a.id].pc, a.input);
    }
  }

  /** The CallTool a step sends, if it sends one. */
  function CallToolOf(w: World, a: Action): (sent: Option<Event>)
    ensures sent.Some? ==> sent.value.Called?
  {
    if !a.Advance? || a.id !in w.calls then None
    else
      var event := LocalStep(w.backend, w.sessions, a.id, w.calls[a.id].tool, w.calls[a.id].pc, a.input).event;
      if event.Some? && event.value.Called? then event else None
  }

  /** A CallTool goes over a session its own call had listed and found fresh exactly when the call did not
      read a swapped slot in between, however many other calls and reconnects ran meanwhile. */
  lemma {:induction false} CallIsProbedIff(worlds: seq<World>, actions: seq<Action>, allowlist: seq<string>, tools: Listing, n: nat)
    requires Execution(worlds, actions, allowlist, tools) && n < |actions|
    requires CallToolOf(worlds[n], actions[n]).Some?
    ensures var e := CallToolOf(worlds[n], actions[n]).value;
            && e.call == actions[n].id
            && (ProbedOn(worlds[n].trace, worlds[0].backend.baseline, e.call, e.session, e.tool)
                <==> e.call !in Swappers(worlds, actions, n))
  {
    AlwaysProbesKept(worlds, actions, allowlist, tools, n);
    assert StepAt(worlds, actions, n);
    var w, a := worlds[n], actions[n];
    SectionProbes(w.trace, w.backend, w.sessions, a.id, w.calls[a.id], a.input, a.id in Swappers(worlds, actions, n));
  }

  /** Some call read a swapped slot and then sent its CallTool, all in the first `n` steps. */
  ghost predicate SwappedThenSent(worlds: seq<World>, actions: seq<Action>, n: nat)
    requires n <= |actions| < |worlds|
  {
    exists k :: 0 <= k < n && SendsAfterSwap(worlds, actions, k)
  }

  ghost predicate SendsAfterSwap(worlds: seq<World>, actions: seq<Action>, k: nat)
    requires k < |actions| < |worlds|
  {
    CallToolOf(worlds[k], actions[k]).Some? && actions[k].id in Swappers(worlds, actions, k)
  }

  /** In any interleaving every CallTool so far went over a session its own call had listed and found
      fresh, exactly when no call that read a swapped slot has sent one. */
  lemma {:induction false} AllCallsProbedIff(worlds: seq<World>, actions: seq<Action>, allowlist: seq<string>, tools: Listing, n: nat)
    requires Execution(worlds, actions, allowlist, tools) && n <= |actions|
    ensures CallsWereProbed(worlds[n].trace, worlds[0].backend.baseline) <==> !SwappedThenSent(worlds, actions, n)
  {
    if n > 0 {
      AllCallsProbedIff(worlds, actions, allowlist, tools, n - 1);
      assert StepAt(worlds, actions, n - 1);
      var w, a, baseline := worlds[n - 1], actions[n - 1], worlds[0].backend.baseline;
      if CallToolOf(w, a).Some? { CallIsProbedIff(worlds, actions, allowlist, tools, n - 1); }
      assert SendsAfterSwap(worlds, actions, n - 1) <==> CallToolOf(w, a).Some? && a.id in Swappers(worlds, actions, n - 1);
      var event := NextRecords(w, a);
      RecordKeepsProbed(w.trace, event, baseline);
    }
  }

  lemma NextRecords(w: World, a: Action) returns (event: Option<Event>)
    requires Enabled(w, a)
    ensures Next(w, a).trace == w.trace + Record(event)
    ensures if event.Some? && event.value.Called? then CallToolOf(w, a) == event else CallToolOf(w, a) == None
  {
    match a
    case Arrive(_, _) => event := None;
    case Advance(id, input) =>
      event := LocalStep(w.backend, w.sessions, id, w.calls[id].tool, w.calls[id].pc, input).event;
    case Shutdown =>
      event := if w.backend.session.Some? then Some(SessionClosed(w.backend.session.value)) else None;
  }

  lemma RecordKeepsProbed(trace: seq<Event>, event: Option<Event>, baseline: map<string, string>)
    ensures CallsWereProbed(trace + Record(event), baseline) <==>
      CallsWereProbed(trace, baseline)
      && (event.Some? && event.value.Called? ==> ProbedOn(trace, baseline, event.value.call, event.value.session, event.value.tool))
  {
    var longer := trace + Record(event);
    assert forall i :: 0 <= i < |trace| ==> longer[i] == trace[i] && longer[..i] == trace[..i];
    if event.Some? {
      assert longer[|trace|] == event.value && longer[..|trace|] == trace;
    }
  }

  // ---------------------------------------------------------------- calls that do not overlap

  ghost predicate OneCall(w: World) {
    forall id, other :: id in w.calls && other in w.calls && !w.calls[id].pc.Done? && !w.calls[other].pc.Done? ==> id == other
  }

  ghost predicate SlotAsProbed(w: World) {
    forall id :: id in w.calls ==> !SlotSwapped(w.backend, w.calls[id].pc)
  }

  lemma SerialStepKeepsSlot(w: World, a: Action)
    requires Enabled(w, a) && OneCall(w) && SlotAsProbed(w)
    ensures SlotAsProbed(Next(w, a)) && !Swapped(w, a)
  {
    if a.Advance? {
      var call := w.calls[a.id];
      if call.pc.Checking? || call.pc.Rechecking? {
        CheckReadsSlot(w.backend, a.id, call.tool, a.input.probe, if call.pc.Checking? then CheckFailed else Done);
      }
    }
  }

  lemma CheckReadsSlot(b: Backend, id: CallId, tool: string, probe: Option<Listing>, otherwise: Pc)
    requires !otherwise.Resolving?
    ensures var move := CheckMove(b, id, tool, probe, otherwise);
            move.backend.session == b.session && !SlotSwapped(b, move.pc)
  {
  }

  lemma {:induction false} SerialCallsNeverSwap(worlds: seq<World>, actions: seq<Action>, allowlist: seq<string>, tools: Listing, n: nat)
    requires Execution(worlds, actions, allowlist, tools) && n <= |actions|
    requires forall i :: 0 <= i <= n ==> OneCall(worlds[i])
    ensures SlotAsProbed(worlds[n]) && Swappers(worlds, actions, n) == {}
  {
    if n > 0 {
      SerialCallsNeverSwap(worlds, actions, allowlist, tools, n - 1);
      assert StepAt(worlds, actions, n - 1);
      SerialStepKeepsSlot(worlds[n - 1], actions[n - 1]);
    }
  }

  /** When calls do not overlap no slot is swapped, so every CallTool goes over a session the same call
      just probed. */
  lemma SerialCallsUseProbedSessions(worlds: seq<World>, actions: seq<Action>, allowlist: seq<string>, tools: Listing, n: nat)
    requires Execution(worlds, actions, allowlist, tools) && n <= |actions|
    requires forall i :: 0 <= i <= n ==> OneCall(worlds[i])
    ensures CallsWereProbed(worlds[n].trace, worlds[0].backend.baseline)
  {
    AllCallsProbedIff(worlds, actions, allowlist, tools, n);
    forall k | 0 <= k < n ensures Swappers(worlds, actions, k) == {} {
      SerialCallsNeverSwap(worlds, actions, allowlist, tools, k);
    }
  }

  // ---------------------------------------------------------------- a call that goes unprobed

  const HEALTHY := Input(Some(SERVED), true, Some({}))

  /** One call passes its check on the first session, then another replaces that session. */
  lemma SessionReplacedUnderACall() returns (worlds: seq<World>, actions: seq<Action>)
    ensures Execution(worlds, actions, [GET], SERVED)
    ensures var w := worlds[|actions|];
            && 1 in w.calls && w.calls[1] == Call(GET, Resolving(0), false, false)
            && w.backend.session == Some(1) && w.backend.selected == [Tool(GET, Some("f"), None)]
            && forall e :: e in w.trace && e.Listed? ==> e.session == 0
  {
    StartupIsReal();
    assert FindTool(SERVED, GET) == SERVED[0];
    worlds, actions := Extend([Startup()], [], Arrive(1, GET));
    worlds, actions := Extend(worlds, actions, Advance(1, HEALTHY));
    worlds, actions := WalkToDial(worlds, actions, 2);
    worlds, actions := Extend(worlds, actions, Advance(2, HEALTHY));
    worlds, actions := Extend(worlds, actions, Advance(2, HEALTHY));
  }

  /** When they do overlap that fails: a call can pass its check on one session and go over another that
      nobody has ever listed. */
  lemma ACallCanGoUnprobed() returns (worlds: seq<World>, actions: seq<Action>)
    ensures Execution(worlds, actions, [GET], SERVED)
    ensures var trace := worlds[|actions|].trace;
            Called(1, 1, GET) in trace && forall e :: e in trace && e.Listed? ==> e.session == 0
  {
    worlds, actions := SessionReplacedUnderACall();
    worlds, actions := Extend(worlds, actions, Advance(1, HEALTHY));
    assert worlds[|actions|].calls[1].pc == Calling(1);
    worlds, actions := Extend(worlds, actions, Advance(1, HEALTHY));
  }
}
