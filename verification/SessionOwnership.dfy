/** Who answers for each upstream session ever dialled: the backend's slot, a reconnect in flight, or
    nobody because it was closed. `reconnect` assigns the slot without looking at what is there, so
    two overlapping reconnects can lose an open session; this file says exactly when. */
module SessionOwnership {
  import opened Wrappers
  import opened Upstream

  function HeldBy(pc: Pc): Option<SessionId> {
    match pc
    case ClosingStale(stale) => stale
    case Installing(replacement) => Some(replacement)
    case _ => None
  }

  ghost predicate HeldInFlight(w: World, s: SessionId) {
    exists id :: id in w.calls && HeldBy(w.calls[id].pc) == Some(s)
  }

  /** Open sessions nobody will ever close. */
  ghost function Stray(w: World): set<SessionId> {
    set s | 0 <= s < w.sessions && s !in w.shut && w.backend.session != Some(s) && !HeldInFlight(w, s)
  }

  /** A session has at most one owner, and an owned session is dialled and open. */
  ghost predicate Owned(w: World) {
    && (forall s :: s in w.shut ==> s < w.sessions)
    && (w.backend.session.Some? ==> w.backend.session.value < w.sessions && w.backend.session.value !in w.shut)
    && (forall id :: id in w.calls && HeldBy(w.calls[id].pc).Some? ==>
         var s := HeldBy(w.calls[id].pc).value;
         s < w.sessions && s !in w.shut && w.backend.session != Some(s))
    && (forall id, other :: id in w.calls && other in w.calls && id != other && HeldBy(w.calls[id].pc).Some? ==>
         HeldBy(w.calls[id].pc) != HeldBy(w.calls[other].pc))
    && (w.backend.closed ==> w.backend.session.None?)
  }

  /** The step that loses a session: an open backend's slot is assigned while it is occupied. */
  predicate Displaces(w: World, a: Action) {
    && a.Advance? && a.id in w.calls && w.calls[a.id].pc.Installing?
    && !w.backend.closed && w.backend.session.Some?
  }

  function Lost(w: World, a: Action): set<SessionId> {
    if Displaces(w, a) then {w.backend.session.value} else {}
  }

  function Just(s: Option<SessionId>): set<SessionId> { if s.Some? then {s.value} else {} }

  /** Sessions change hands and are never duplicated: what went in, with what was dialled, is what comes
      out in the slot, in the call's hands, closed, or lost. */
  ghost predicate ChangesHands(slot: Option<SessionId>, held: Option<SessionId>, dialled: set<SessionId>,
                               slot': Option<SessionId>, held': Option<SessionId>, closed: set<SessionId>, lost: set<SessionId>)
  {
    && Just(slot) + Just(held) + dialled == Just(slot') + Just(held') + closed + lost
    && Just(slot') !! Just(held') && Just(slot') + Just(held') !! closed
    && Just(slot') + Just(held') + closed !! lost
  }

  lemma SectionConserves(w: World, id: CallId, input: Input)
    requires Owned(w) && id in w.calls
    ensures var call := w.calls[id];
            var move := LocalStep(w.backend, w.sessions, id, call.tool, call.pc, input);
            && (move.backend.closed ==> move.backend.session.None?)
            && ChangesHands(w.backend.session, HeldBy(call.pc), if Opens(move.event) then {w.sessions} else {},
                            move.backend.session, HeldBy(move.pc), ShutBy(move.event), Lost(w, Advance(id, input)))
  {
    var call := w.calls[id];
    if call.pc.Checking? || call.pc.Rechecking? {
      CheckKeepsSlot(w.backend, id, call.tool, input.probe, if call.pc.Checking? then CheckFailed else Done);
    }
  }

  lemma CheckKeepsSlot(b: Backend, id: CallId, tool: string, probe: Option<Listing>, otherwise: Pc)
    requires HeldBy(otherwise).None?
    ensures var move := CheckMove(b, id, tool, probe, otherwise);
            && move.backend.session == b.session && move.backend.closed == b.closed && HeldBy(move.pc).None?
            && ShutBy(move.event) == {} && !Opens(move.event)
  {
  }

  ghost predicate HeldByOther(w: World, id: CallId, s: SessionId) {
    exists other :: other in w.calls && other != id && HeldBy(w.calls[other].pc) == Some(s)
  }

  /** Every step accounts for every session: the strays grow by exactly the session it displaces. */
  lemma StepAccounts(w: World, a: Action)
    requires Owned(w) && Enabled(w, a)
    ensures Owned(Next(w, a))
    ensures Stray(Next(w, a)) == Stray(w) + Lost(w, a)
  {
    var w' := Next(w, a);
    match a
    case Arrive(id, tool) =>
      forall s: SessionId ensures HeldInFlight(w', s) <==> HeldInFlight(w, s) { SameHolders(w, w', id, s); }
    case Shutdown =>
      assert forall s: SessionId :: HeldInFlight(w', s) <==> HeldInFlight(w, s);
    case Advance(id, input) =>
      var call := w.calls[id];
      var move := LocalStep(w.backend, w.sessions, id, call.tool, call.pc, input);
      SectionConserves(w, id, input);
      AdvanceAccounts(w, w', id, if Opens(move.event) then {w.sessions} else {}, ShutBy(move.event), Lost(w, a));
  }

  lemma AdvanceAccounts(w: World, w': World, id: CallId, dialled: set<SessionId>, closed: set<SessionId>, lost: set<SessionId>)
    requires Owned(w) && id in w.calls && id in w'.calls && w'.calls == w.calls[id := w'.calls[id]]
    requires w'.sessions == w.sessions + (if dialled == {} then 0 else 1) && (dialled == {} || dialled == {w.sessions})
    requires w'.shut == w.shut + closed && (w'.backend.closed ==> w'.backend.session.None?)
    requires ChangesHands(w.backend.session, HeldBy(w.calls[id].pc), dialled,
                          w'.backend.session, HeldBy(w'.calls[id].pc), closed, lost)
    ensures Owned(w') && Stray(w') == Stray(w) + lost
  {
    forall s: SessionId
      ensures HeldInFlight(w', s) <==> HeldByOther(w, id, s) || s in Just(HeldBy(w'.calls[id].pc))
      ensures HeldInFlight(w, s) <==> HeldByOther(w, id, s) || s in Just(HeldBy(w.calls[id].pc))
      ensures HeldByOther(w, id, s) ==> s < w.sessions && s !in w.shut && s !in Just(w.backend.session) + Just(HeldBy(w.calls[id].pc))
    {
      HoldersSplit(w, id, s);
      HoldersSplit(w', id, s);
      SameOthers(w, w', id, s);
    }
    HandsStayApart(w, w', id, dialled, closed, lost);
    forall s: SessionId ensures s in Stray(w') <==> s in Stray(w) + lost {
      assert s in Just(w.backend.session) + Just(HeldBy(w.calls[id].pc)) + dialled
             <==> s in Just(w'.backend.session) + Just(HeldBy(w'.calls[id].pc)) + closed + lost;
    }
  }

  lemma HandsStayApart(w: World, w': World, id: CallId, dialled: set<SessionId>, closed: set<SessionId>, lost: set<SessionId>)
    requires Owned(w) && id in w.calls && id in w'.calls && w'.calls == w.calls[id := w'.calls[id]]
    requires w'.sessions == w.sessions + (if dialled == {} then 0 else 1) && (dialled == {} || dialled == {w.sessions})
    requires w'.shut == w.shut + closed && (w'.backend.closed ==> w'.backend.session.None?)
    requires ChangesHands(w.backend.session, HeldBy(w.calls[id].pc), dialled,
                          w'.backend.session, HeldBy(w'.calls[id].pc), closed, lost)
    ensures Owned(w')
  {
    var before := Just(w.backend.session) + Just(HeldBy(w.calls[id].pc)) + dialled;
    assert forall s :: s in before ==> s < w'.sessions && s !in w.shut;
    assert forall s :: s in Just(w'.backend.session) + Just(HeldBy(w'.calls[id].pc)) + closed ==> s in before;
    forall other | other in w'.calls && other != id && HeldBy(w'.calls[other].pc).Some?
      ensures HeldBy(w'.calls[other].pc).value < w.sessions && HeldBy(w'.calls[other].pc).value !in before
    {
      assert w'.calls[other] == w.calls[other];
    }
  }

  lemma SameHolders(w: World, w': World, id: CallId, s: SessionId)
    requires id !in w.calls && id in w'.calls && w'.calls == w.calls[id := w'.calls[id]] && HeldBy(w'.calls[id].pc) == None
    ensures HeldInFlight(w', s) <==> HeldInFlight(w, s)
  {
    if HeldInFlight(w, s) {
      var other :| other in w.calls && HeldBy(w.calls[other].pc) == Some(s);
      assert other in w'.calls && w'.calls[other] == w.calls[other];
    }
  }

  lemma HoldersSplit(w: World, id: CallId, s: SessionId)
    requires id in w.calls
    ensures HeldInFlight(w, s) <==> HeldByOther(w, id, s) || HeldBy(w.calls[id].pc) == Some(s)
  {
  }

  lemma SameOthers(w: World, w': World, id: CallId, s: SessionId)
    requires id in w'.calls && w'.calls == w.calls[id := w'.calls[id]]
    ensures HeldByOther(w', id, s) <==> HeldByOther(w, id, s)
  {
    if HeldByOther(w, id, s) {
      var other :| other in w.calls && other != id && HeldBy(w.calls[other].pc) == Some(s);
      assert other in w'.calls && w'.calls[other] == w.calls[other];
    }
  }

  lemma {:induction false} AlwaysOwned(worlds: seq<World>, actions: seq<Action>, allowlist: seq<string>, tools: Listing, n: nat)
    requires Execution(worlds, actions, allowlist, tools) && n <= |actions|
    ensures Owned(worlds[n])
  {
    if n > 0 {
      AlwaysOwned(worlds, actions, allowlist, tools, n - 1);
      assert StepAt(worlds, actions, n - 1);
      StepAccounts(worlds[n - 1], actions[n - 1]);
    }
  }

  /** What is lost once is lost for good. */
  lemma {:induction false} LostForGood(worlds: seq<World>, actions: seq<Action>, allowlist: seq<string>, tools: Listing, i: nat, n: nat)
    requires Execution(worlds, actions, allowlist, tools) && i <= n <= |actions|
    ensures Stray(worlds[i]) <= Stray(worlds[n])
    decreases n
  {
    if i < n {
      LostForGood(worlds, actions, allowlist, tools, i, n - 1);
      AlwaysOwned(worlds, actions, allowlist, tools, n - 1);
      assert StepAt(worlds, actions, n - 1);
      StepAccounts(worlds[n - 1], actions[n - 1]);
    }
  }

  /** In any interleaving, no session is lost by step `n` exactly when no reconnect so far was installed
      over an occupied slot. */
  lemma {:induction false} NothingLostIff(worlds: seq<World>, actions: seq<Action>, allowlist: seq<string>, tools: Listing, n: nat)
    requires Execution(worlds, actions, allowlist, tools) && n <= |actions|
    ensures Stray(worlds[n]) == {} <==> forall i :: 0 <= i < n ==> !Displaces(worlds[i], actions[i])
  {
    if n == 0 {
      assert forall s: SessionId :: !HeldInFlight(worlds[0], s);
    } else {
      NothingLostIff(worlds, actions, allowlist, tools, n - 1);
      AlwaysOwned(worlds, actions, allowlist, tools, n - 1);
      assert StepAt(worlds, actions, n - 1);
      StepAccounts(worlds[n - 1], actions[n - 1]);
      assert Stray(worlds[n]) == {} <==> Stray(worlds[n - 1]) == {} && !Displaces(worlds[n - 1], actions[n - 1]);
    }
  }

  // ---------------------------------------------------------------- reconnects that do not overlap

  predicate Reconnecting(pc: Pc) { pc.ClosingStale? || pc.Dialling? || pc.Installing? }

  ghost predicate OneReconnect(w: World) {
    forall id, other :: id in w.calls && other in w.calls && Reconnecting(w.calls[id].pc) && Reconnecting(w.calls[other].pc)
      ==> id == other
  }

  ghost predicate SlotFreeWhileReconnecting(w: World) {
    forall id :: id in w.calls && Reconnecting(w.calls[id].pc) ==> w.backend.session.None?
  }

  lemma SerialStep(w: World, a: Action)
    requires Enabled(w, a) && OneReconnect(w) && SlotFreeWhileReconnecting(w) && (w.backend.closed ==> w.backend.session.None?)
    ensures !Displaces(w, a)
    ensures SlotFreeWhileReconnecting(Next(w, a))
  {
    if a.Advance? {
      var call := w.calls[a.id];
      if call.pc.Checking? || call.pc.Rechecking? {
        CheckKeepsSlot(w.backend, a.id, call.tool, a.input.probe, if call.pc.Checking? then CheckFailed else Done);
      }
    }
  }

  lemma {:induction false} SerialNeverDisplaces(worlds: seq<World>, actions: seq<Action>, allowlist: seq<string>, tools: Listing, n: nat)
    requires Execution(worlds, actions, allowlist, tools) && n <= |actions|
    requires forall i :: 0 <= i <= n ==> OneReconnect(worlds[i])
    ensures SlotFreeWhileReconnecting(worlds[n])
    ensures forall i :: 0 <= i < n ==> !Displaces(worlds[i], actions[i])
  {
    if n > 0 {
      SerialNeverDisplaces(worlds, actions, allowlist, tools, n - 1);
      AlwaysOwned(worlds, actions, allowlist, tools, n - 1);
      assert StepAt(worlds, actions, n - 1);
      SerialStep(worlds[n - 1], actions[n - 1]);
    }
  }

  /** While reconnects do not overlap, every session ever dialled is the current one, held by the
      reconnect in flight, or closed; so once the backend is closed and quiet, all of them are closed. */
  lemma SerialReconnectsLoseNothing(worlds: seq<World>, actions: seq<Action>, allowlist: seq<string>, tools: Listing, n: nat)
    requires Execution(worlds, actions, allowlist, tools) && n <= |actions|
    requires forall i :: 0 <= i <= n ==> OneReconnect(worlds[i])
    ensures forall s: SessionId :: s < worlds[n].sessions ==>
      s in worlds[n].shut || worlds[n].backend.session == Some(s) || HeldInFlight(worlds[n], s)
    ensures worlds[n].backend.closed && (forall id :: id in worlds[n].calls ==> !Reconnecting(worlds[n].calls[id].pc))
      ==> forall s: SessionId :: s < worlds[n].sessions ==> s in worlds[n].shut
  {
    SerialNeverDisplaces(worlds, actions, allowlist, tools, n);
    NothingLostIff(worlds, actions, allowlist, tools, n);
    AlwaysOwned(worlds, actions, allowlist, tools, n);
    var w := worlds[n];
    forall s: SessionId | s < w.sessions
      ensures s in w.shut || w.backend.session == Some(s) || HeldInFlight(w, s)
    {
      assert s !in Stray(w);
    }
  }

  // ---------------------------------------------------------------- reconnects that overlap

  /** Two calls that both reached their dial each connect, and the second install loses the first
      call's session: whatever else is in flight, whoever dialled first. */
  lemma OverlapLosesASession(w: World, first: CallId, second: CallId, input: Input)
    requires Owned(w) && !w.backend.closed && input.dials && first != second
    requires first in w.calls && w.calls[first].pc.Dialling? && second in w.calls && w.calls[second].pc.Dialling?
    ensures var w1 := Next(w, Advance(first, input));
            var w2 := Next(w1, Advance(second, input));
            var w3 := Next(w2, Advance(first, input));
            var w4 := Next(w3, Advance(second, input));
            w4.sessions == w.sessions + 2 && w4.backend.session == Some(w.sessions + 1) && w.sessions in Stray(w4)
  {
    var w1 := Next(w, Advance(first, input));
    StepAccounts(w, Advance(first, input));
    var w2 := Next(w1, Advance(second, input));
    StepAccounts(w1, Advance(second, input));
    var w3 := Next(w2, Advance(first, input));
    StepAccounts(w2, Advance(first, input));
    assert w3.backend.session == Some(w.sessions);
    StepAccounts(w3, Advance(second, input));
  }

  const GET := "get"
  const SERVED: Listing := [Some(Tool("get", Some("f"), None))]
  const LOST_LINK := Input(None, true, None)

  function Startup(): World {
    World(Backend(Some(0), false, None, [GET], map[GET := "f"], [Tool("get", Some("f"), None)]), map[], 1, {}, [])
  }

  lemma StartupIsReal()
    ensures Started(Startup(), [GET], SERVED)
  {
    assert [GET][..0] == [];
    assert Snapshot([GET][..0], SERVED) == Some((map[], []));
    assert FindTool(SERVED, GET) == SERVED[0];
  }

  lemma Extend(worlds: seq<World>, actions: seq<Action>, a: Action) returns (longer: seq<World>, more: seq<Action>)
    requires Execution(worlds, actions, [GET], SERVED) && Enabled(worlds[|actions|], a)
    ensures Execution(longer, more, [GET], SERVED)
    ensures |more| == |actions| + 1 && longer[|more|] == Next(worlds[|actions|], a)
  {
    longer, more := worlds + [Next(worlds[|actions|], a)], actions + [a];
    forall i | 0 <= i < |more| ensures StepAt(longer, more, i) {
      if i < |actions| { assert StepAt(worlds, actions, i); }
    }
  }

  /** A call whose drift check meets a dead link walks to its dial in four sections. */
  lemma WalkToDial(worlds: seq<World>, actions: seq<Action>, id: CallId) returns (longer: seq<World>, more: seq<Action>)
    requires Execution(worlds, actions, [GET], SERVED)
    requires var w := worlds[|actions|]; id !in w.calls && w.backend.drift.None? && !w.backend.closed
    ensures Execution(longer, more, [GET], SERVED)
    ensures var w, w' := worlds[|actions|], longer[|more|];
            && w'.backend == w.backend.(session := None)
            && w'.calls == w.calls[id := Call(GET, Dialling, false, false)]
            && w'.sessions == w.sessions
            && forall e :: e in w'.trace && e.Listed? ==> e in w.trace || w.backend.session == Some(e.session)
  {
    var w := worlds[|actions|];
    longer, more := Extend(worlds, actions, Arrive(id, GET));
    assert longer[|more|].calls == w.calls[id := Call(GET, Checking, false, false)];
    longer, more := Extend(longer, more, Advance(id, LOST_LINK));
    assert longer[|more|].calls == w.calls[id := Call(GET, CheckFailed, false, false)];
    longer, more := Extend(longer, more, Advance(id, LOST_LINK));
    assert longer[|more|].calls == w.calls[id := Call(GET, Taking, false, false)];
    longer, more := Extend(longer, more, Advance(id, LOST_LINK));
    assert longer[|more|].calls == w.calls[id := Call(GET, ClosingStale(w.backend.session), false, false)];
    longer, more := Extend(longer, more, Advance(id, LOST_LINK));
  }

  /** Such an overlap happens: two calls meet one dead link, both reconnect, and a session is left open
      that nothing in the process refers to. */
  lemma OverlapHappens() returns (worlds: seq<World>, actions: seq<Action>)
    ensures Execution(worlds, actions, [GET], SERVED)
    ensures !worlds[|actions|].backend.closed && Stray(worlds[|actions|]) != {}
  {
    StartupIsReal();
    worlds, actions := WalkToDial([Startup()], [], 1);
    worlds, actions := WalkToDial(worlds, actions, 2);
    var w := worlds[|actions|];
    AlwaysOwned(worlds, actions, [GET], SERVED, |actions|);
    OverlapLosesASession(w, 1, 2, LOST_LINK);
    worlds, actions := Extend(worlds, actions, Advance(1, LOST_LINK));
    worlds, actions := Extend(worlds, actions, Advance(2, LOST_LINK));
    worlds, actions := Extend(worlds, actions, Advance(1, LOST_LINK));
    worlds, actions := Extend(worlds, actions, Advance(2, LOST_LINK));
  }
}
