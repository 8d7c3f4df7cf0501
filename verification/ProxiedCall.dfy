/** What one proxied call does, from arrival to end, when no other call comes between its sections: which
    listings, dials and CallTools it sends (internal/mcpserver/upstream.go, lines 158-278 and 326-360). */
module ProxiedCall {
  import opened Wrappers
  import opened Upstream

  /** What the upstream and the caller will say to a call: its first listing, whether a dial connects, the
      listing after a reconnect, and the argument names, unless they do not decode. */
  datatype Answers = Answers(first: Option<Listing>, dials: bool, second: Option<Listing>, args: Option<set<string>>)

  // ---------------------------------------------------------------- what a call ought to do

  /** The fingerprint a listing shows for the tool. */
  function Sees(probe: Option<Listing>, tool: string): Option<string> {
    if probe.Some? && FindTool(probe.value, tool).Some? then FindTool(probe.value, tool).value.fingerprint else None
  }

  predicate Passes(b: Backend, tool: string, probe: Option<Listing>) {
    b.session.Some? && tool in b.baseline && tool in b.allowlist && Sees(probe, tool) == Some(b.baseline[tool])
  }

  predicate FindsDrift(b: Backend, tool: string, probe: Option<Listing>) {
    b.session.Some? && tool in b.baseline && Sees(probe, tool).Some? && Sees(probe, tool) != Some(b.baseline[tool])
  }

  function Listings(b: Backend, id: CallId, tool: string, probe: Option<Listing>): seq<Event> {
    if b.session.Some? then [Listed(id, b.session.value, tool, Sees(probe, tool))] else []
  }

  /** The first tool of this name among those selected at startup. */
  ghost predicate FirstNamed(selected: seq<Tool>, name: string, i: nat) {
    i < |selected| && selected[i].name == name && forall j :: 0 <= j < i ==> selected[j].name != name
  }

  /** The arguments decode, and the reviewed tool, if its schema is closed, declares them all. */
  ghost predicate Sendable(b: Backend, tool: string, args: Option<set<string>>) {
    && args.Some?
    && forall i: nat :: FirstNamed(b.selected, tool, i) && b.selected[i].declared.Some? ==> args.value <= b.selected[i].declared.value
  }

  ghost function Sends(b: Backend, id: CallId, session: SessionId, tool: string, args: Option<set<string>>): seq<Event> {
    if Sendable(b, tool, args) then [Called(id, session, tool)] else []
  }

  /** A call on a drifted backend does nothing. Otherwise it lists; a fresh tool is called on the session
      that was listed, a drifted one latches, and anything else closes the session and dials once, after
      which the new session is listed and called, or not, in the same way. */
  ghost function Expected(b: Backend, unused: SessionId, id: CallId, tool: string, x: Answers): (Backend, seq<Event>) {
    var looked := Listings(b, id, tool, x.first);
    if b.drift.Some? then (b, [])
    else if Passes(b, tool, x.first) then (b, looked + Sends(b, id, b.session.value, tool, x.args))
    else if FindsDrift(b, tool, x.first) then (b.(drift := Some(tool)), looked)
    else if b.closed then (b, looked)
    else
      var hungUp := looked + if b.session.Some? then [SessionClosed(b.session.value)] else [];
      if !x.dials then (b.(session := None), hungUp + [Dialled(id, None)])
      else
        var c := b.(session := Some(unused));
        var again := hungUp + [Dialled(id, Some(unused))] + Listings(c, id, tool, x.second);
        if Passes(c, tool, x.second) then (c, again + Sends(c, id, unused, tool, x.args))
        else if FindsDrift(c, tool, x.second) then (c.(drift := Some(tool)), again)
        else (c, again)
  }

  // ---------------------------------------------------------------- the sections, one after another

  function Rank(pc: Pc): nat {
    match pc
    case Checking => 9
    case CheckFailed => 8
    case Taking => 7
    case ClosingStale(_) => 6
    case Dialling => 5
    case Installing(_) => 4
    case Rechecking => 3
    case Resolving(_) => 2
    case Calling(_) => 1
    case Done => 0
  }

  function InputFor(pc: Pc, x: Answers): Input { Input(if pc.Rechecking? then x.second else x.first, x.dials, x.args) }

  lemma SectionsAdvance(b: Backend, unused: SessionId, id: CallId, tool: string, pc: Pc, input: Input)
    requires !pc.Done?
    ensures Rank(LocalStep(b, unused, id, tool, pc, input).pc) < Rank(pc)
  {
  }

  function Rest(b: Backend, unused: SessionId, id: CallId, tool: string, pc: Pc, x: Answers): (Backend, seq<Event>)
    decreases Rank(pc)
  {
    if pc.Done? then (b, [])
    else
      SectionsAdvance(b, unused, id, tool, pc, InputFor(pc, x));
      var move := LocalStep(b, unused, id, tool, pc, InputFor(pc, x));
      var (end, events) := Rest(move.backend, unused, id, tool, move.pc, x);
      (end, Record(move.event) + events)
  }

  lemma SaysNothing(events: seq<Event>)
    ensures Record(None) + events == events && [] + events == events && events + [] == events
  {
  }

  lemma {:induction false} FirstNamedDeclares(selected: seq<Tool>, name: string, i: nat)
    requires FirstNamed(selected, name, i)
    ensures DeclaredArgs(selected, name) == selected[i].declared
  {
    if i > 0 {
      assert selected[0].name != name;
      FirstNamedDeclares(selected[1..], name, i - 1);
    }
  }

  lemma {:induction false} DeclaredByFirst(selected: seq<Tool>, name: string) returns (i: nat)
    requires DeclaredArgs(selected, name).Some?
    ensures FirstNamed(selected, name, i)
  {
    if selected[0].name == name {
      i := 0;
    } else {
      var j := DeclaredByFirst(selected[1..], name);
      i := j + 1;
    }
  }

  /** The last section sends the CallTool exactly when it may. */
  lemma {:induction false} CallingDoes(b: Backend, unused: SessionId, id: CallId, tool: string, session: SessionId, x: Answers)
    ensures Rest(b, unused, id, tool, Calling(session), x) == (b, Sends(b, id, session, tool, x.args))
  {
    var declared := DeclaredArgs(b.selected, tool);
    if declared.Some? {
      var i := DeclaredByFirst(b.selected, tool);
      FirstNamedDeclares(b.selected, tool, i);
    }
    forall i: nat | FirstNamed(b.selected, tool, i) ensures b.selected[i].declared == declared {
      FirstNamedDeclares(b.selected, tool, i);
    }
    assert Rest(b, unused, id, tool, Done, x) == (b, []);
    SaysNothing([]);
    SaysNothing([Called(id, session, tool)]);
    assert declared.Some? ==> (Sendable(b, tool, x.args) <==> x.args.Some? && x.args.value <= declared.value);
  }

  lemma {:induction false} ResolvingDoes(b: Backend, unused: SessionId, id: CallId, tool: string, probed: SessionId, x: Answers)
    requires b.session == Some(probed)
    ensures Rest(b, unused, id, tool, Resolving(probed), x) == (b, Sends(b, id, probed, tool, x.args))
  {
    CallingDoes(b, unused, id, tool, probed, x);
    assert [] + Sends(b, id, probed, tool, x.args) == Sends(b, id, probed, tool, x.args);
  }

  /** One drift check: passed, latched, or failed. */
  lemma CheckFinds(b: Backend, id: CallId, tool: string, probe: Option<Listing>, otherwise: Pc)
    requires b.drift.None?
    ensures var move := CheckMove(b, id, tool, probe, otherwise);
            && Record(move.event) == Listings(b, id, tool, probe)
            && (Passes(b, tool, probe) ==> move.backend == b && move.pc == Resolving(b.session.value))
            && (!Passes(b, tool, probe) ==> move.pc == otherwise)
            && move.backend == if FindsDrift(b, tool, probe) then b.(drift := Some(tool)) else b
  {
  }

  lemma {:induction false} RecheckingDoes(b: Backend, unused: SessionId, id: CallId, tool: string, x: Answers)
    requires b.drift.None? && b.session == Some(unused)
    ensures Rest(b, unused, id, tool, Rechecking, x) ==
      (if FindsDrift(b, tool, x.second) then b.(drift := Some(tool)) else b,
       Listings(b, id, tool, x.second) + if Passes(b, tool, x.second) then Sends(b, id, unused, tool, x.args) else [])
  {
    CheckFinds(b, id, tool, x.second, Done);
    if Passes(b, tool, x.second) {
      ResolvingDoes(b, unused, id, tool, unused, x);
    }
  }

  /** A dial that connects is installed, since no `Close` comes between, and listed. */
  lemma {:induction false} DiallingDoes(b: Backend, unused: SessionId, id: CallId, tool: string, x: Answers)
    requires b.drift.None? && b.session.None? && !b.closed
    ensures var c := b.(session := Some(unused));
            Rest(b, unused, id, tool, Dialling, x) ==
              if !x.dials then (b, [Dialled(id, None)])
              else (if FindsDrift(c, tool, x.second) then c.(drift := Some(tool)) else c,
                    [Dialled(id, Some(unused))] + Listings(c, id, tool, x.second)
                    + if Passes(c, tool, x.second) then Sends(c, id, unused, tool, x.args) else [])
  {
    var c := b.(session := Some(unused));
    if x.dials {
      RecheckingDoes(c, unused, id, tool, x);
      var (end, events) := Rest(c, unused, id, tool, Rechecking, x);
      assert Rest(b, unused, id, tool, Installing(unused), x) == (end, [] + events) && [] + events == events;
      assert Rest(b, unused, id, tool, Dialling, x) == (end, [Dialled(id, Some(unused))] + events);
      assert [Dialled(id, Some(unused))] + (Listings(c, id, tool, x.second) + Sends(c, id, unused, tool, x.args))
             == [Dialled(id, Some(unused))] + Listings(c, id, tool, x.second) + Sends(c, id, unused, tool, x.args);
      assert [Dialled(id, Some(unused))] + Listings(c, id, tool, x.second) + []
             == [Dialled(id, Some(unused))] + (Listings(c, id, tool, x.second) + []);
    } else {
      assert Rest(b, unused, id, tool, Done, x) == (b, []);
      assert [Dialled(id, None)] + [] == [Dialled(id, None)];
    }
  }

  /** A reconnect closes the stale session, if there is one, and dials; on a closed backend it does neither. */
  lemma {:induction false} TakingDoes(b: Backend, unused: SessionId, id: CallId, tool: string, x: Answers)
    ensures Rest(b, unused, id, tool, Taking, x) ==
      if b.closed then (b, [])
      else
        var (end, events) := Rest(b.(session := None), unused, id, tool, Dialling, x);
        (end, (if b.session.Some? then [SessionClosed(b.session.value)] else []) + events)
  {
    if b.closed {
      assert Rest(b, unused, id, tool, Done, x) == (b, []);
      SaysNothing([]);
    } else {
      var (end, events) := Rest(b.(session := None), unused, id, tool, Dialling, x);
      var closing := Rest(b.(session := None), unused, id, tool, ClosingStale(b.session), x);
      assert [] + closing.1 == closing.1;
    }
  }

  /** With nobody in between, a call does what it ought to, and leaves the backend as it ought to. */
  lemma {:induction false} CallDoesAsExpected(b: Backend, unused: SessionId, id: CallId, tool: string, x: Answers)
    ensures Rest(b, unused, id, tool, Checking, x) == Expected(b, unused, id, tool, x)
  {
    if b.drift.Some? {
      DriftedCallEnds(b, unused, id, tool, x);
    } else {
      var move := CheckMove(b, id, tool, x.first, CheckFailed);
      CheckFinds(b, id, tool, x.first, CheckFailed);
      if Passes(b, tool, x.first) {
        ResolvingDoes(b, unused, id, tool, b.session.value, x);
      } else {
        FailedCheckDoes(move.backend, unused, id, tool, x);
        SaysNothing(Record(move.event));
        if !FindsDrift(b, tool, x.first) && !b.closed {
          DiallingDoes(b.(session := None), unused, id, tool, x);
          ReconnectReads(b, unused, id, tool, x);
        }
      }
    }
  }

  lemma {:induction false} DriftedCallEnds(b: Backend, unused: SessionId, id: CallId, tool: string, x: Answers)
    requires b.drift.Some?
    ensures Rest(b, unused, id, tool, CheckFailed, x) == (b, []) && Rest(b, unused, id, tool, Checking, x) == (b, [])
  {
    assert Rest(b, unused, id, tool, Done, x) == (b, []);
    SaysNothing([]);
  }

  lemma {:induction false} FailedCheckDoes(b: Backend, unused: SessionId, id: CallId, tool: string, x: Answers)
    ensures Rest(b, unused, id, tool, CheckFailed, x) ==
      if b.drift.Some? || b.closed then (b, [])
      else
        var (end, events) := Rest(b.(session := None), unused, id, tool, Dialling, x);
        (end, (if b.session.Some? then [SessionClosed(b.session.value)] else []) + events)
  {
    if b.drift.Some? {
      DriftedCallEnds(b, unused, id, tool, x);
    } else {
      TakingDoes(b, unused, id, tool, x);
      var rest := Rest(b, unused, id, tool, Taking, x);
      assert [] + rest.1 == rest.1;
    }
  }

  lemma {:induction false} ReconnectReads(b: Backend, unused: SessionId, id: CallId, tool: string, x: Answers)
    requires b.drift.None? && !b.closed && !Passes(b, tool, x.first) && !FindsDrift(b, tool, x.first)
    ensures var (end, events) := Rest(b.(session := None), unused, id, tool, Dialling, x);
            var shut := if b.session.Some? then [SessionClosed(b.session.value)] else [];
            Expected(b, unused, id, tool, x) == (end, Listings(b, id, tool, x.first) + (shut + events))
  {
    DiallingDoes(b.(session := None), unused, id, tool, x);
    var c := b.(session := Some(unused));
    assert b.(session := None).(session := Some(unused)) == c;
    var looked := Listings(b, id, tool, x.first);
    var shut := if b.session.Some? then [SessionClosed(b.session.value)] else [];
    var listed, sent := Listings(c, id, tool, x.second), Sends(c, id, unused, tool, x.args);
    if x.dials {
      var dialled := [Dialled(id, Some(unused))];
      assert looked + (shut + (dialled + listed + sent)) == looked + shut + dialled + listed + sent;
      assert looked + (shut + (dialled + listed + [])) == looked + shut + dialled + listed;
    } else {
      assert looked + (shut + [Dialled(id, None)]) == looked + shut + [Dialled(id, None)];
    }
  }

  // ---------------------------------------------------------------- in the world

  /** The world after a call in flight has run to its end with nobody in between. */
  function RunOut(w: World, id: CallId, x: Answers): World
    requires id in w.calls
    decreases Rank(w.calls[id].pc)
  {
    var call := w.calls[id];
    if call.pc.Done? then w
    else
      SectionsAdvance(w.backend, w.sessions, id, call.tool, call.pc, InputFor(call.pc, x));
      RunOut(Next(w, Advance(id, InputFor(call.pc, x))), id, x)
  }

  /** Past its dial a call no longer cares which session is unused. */
  lemma {:induction false} UnusedIsSettled(b: Backend, one: SessionId, other: SessionId, id: CallId, tool: string, pc: Pc, x: Answers)
    requires Rank(pc) < Rank(Dialling)
    ensures Rest(b, one, id, tool, pc, x) == Rest(b, other, id, tool, pc, x)
    decreases Rank(pc)
  {
    if !pc.Done? {
      SectionsAdvance(b, one, id, tool, pc, InputFor(pc, x));
      var move := LocalStep(b, one, id, tool, pc, InputFor(pc, x));
      assert move == LocalStep(b, other, id, tool, pc, InputFor(pc, x));
      UnusedIsSettled(move.backend, one, other, id, tool, move.pc, x);
    }
  }

  /** One section of the call, in the world: only its own program counter moves on. */
  lemma OneSection(w: World, id: CallId, x: Answers)
    requires id in w.calls && !w.calls[id].pc.Done?
    ensures var call := w.calls[id];
            var input := InputFor(call.pc, x);
            var move, after := LocalStep(w.backend, w.sessions, id, call.tool, call.pc, input), Next(w, Advance(id, input));
            && after.backend == move.backend && after.trace == w.trace + Record(move.event)
            && after.calls == w.calls[id := call.(pc := move.pc)] && Rank(move.pc) < Rank(call.pc)
            && (after.sessions != w.sessions ==> call.pc.Dialling?)
  {
    var call := w.calls[id];
    SectionsAdvance(w.backend, w.sessions, id, call.tool, call.pc, InputFor(call.pc, x));
  }

  /** From any point of the call, the world runs out into what the rest of the call does. */
  ghost predicate RunsOut(w: World, id: CallId, x: Answers)
    requires id in w.calls
  {
    var call, end := w.calls[id], RunOut(w, id, x);
    var (backend, events) := Rest(w.backend, w.sessions, id, call.tool, call.pc, x);
    end.backend == backend && end.trace == w.trace + events && end.calls == w.calls[id := call.(pc := Done)]
  }

  lemma {:induction false} RestAfter(w: World, id: CallId, x: Answers)
    requires id in w.calls && !w.calls[id].pc.Done?
    ensures var call := w.calls[id];
            var input := InputFor(call.pc, x);
            var move, after := LocalStep(w.backend, w.sessions, id, call.tool, call.pc, input), Next(w, Advance(id, input));
            var (end, events) := Rest(after.backend, after.sessions, id, call.tool, move.pc, x);
            Rest(w.backend, w.sessions, id, call.tool, call.pc, x) == (end, Record(move.event) + events)
  {
    var call := w.calls[id];
    var input := InputFor(call.pc, x);
    var move, after := LocalStep(w.backend, w.sessions, id, call.tool, call.pc, input), Next(w, Advance(id, input));
    OneSection(w, id, x);
    if after.sessions != w.sessions {
      UnusedIsSettled(move.backend, w.sessions, after.sessions, id, call.tool, move.pc, x);
    }
  }

  lemma RunsOutOnward(w: World, id: CallId, x: Answers)
    requires id in w.calls && !w.calls[id].pc.Done?
    requires var after := Next(w, Advance(id, InputFor(w.calls[id].pc, x))); id in after.calls && RunsOut(after, id, x)
    ensures RunsOut(w, id, x)
  {
    var call := w.calls[id];
    var after := Next(w, Advance(id, InputFor(call.pc, x)));
    var event := LocalStep(w.backend, w.sessions, id, call.tool, call.pc, InputFor(call.pc, x)).event;
    OneSection(w, id, x);
    RestAfter(w, id, x);
    assert RunOut(w, id, x) == RunOut(after, id, x);
    Rejoin(w.trace, Record(event), Rest(after.backend, after.sessions, id, call.tool, after.calls[id].pc, x).1);
  }

  lemma Rejoin(front: seq<Event>, middle: seq<Event>, back: seq<Event>)
    ensures front + middle + back == front + (middle + back)
  {
  }

  lemma {:induction false} RunOutIsRest(w: World, id: CallId, x: Answers)
    requires id in w.calls
    ensures RunsOut(w, id, x)
    decreases Rank(w.calls[id].pc)
  {
    if w.calls[id].pc.Done? {
      assert w.calls[id := w.calls[id].(pc := Done)] == w.calls;
    } else {
      OneSection(w, id, x);
      RunOutIsRest(Next(w, Advance(id, InputFor(w.calls[id].pc, x))), id, x);
      RunsOutOnward(w, id, x);
    }
  }

  /** In any world at all, a call that arrives and runs undisturbed adds exactly the expected events to the
      trace, leaves the expected backend, and ends. */
  lemma {:induction false} UndisturbedCall(w: World, id: CallId, tool: string, x: Answers)
    requires id !in w.calls
    ensures var arrived := Next(w, Arrive(id, tool));
            var end, (backend, events) := RunOut(arrived, id, x), Expected(w.backend, w.sessions, id, tool, x);
            end.backend == backend && end.trace == w.trace + events && id in end.calls && end.calls[id].pc == Done
  {
    RunOutIsRest(Next(w, Arrive(id, tool)), id, x);
    CallDoesAsExpected(w.backend, w.sessions, id, tool, x);
  }
}
