/** Calls of one tool in flight together. The cache is consulted in one locked section and filled in
    another (internal/mcpserver/cache.go, lines 223-243), so other calls run between a call's lookup and
    its store. Each of them still does what the handler chain does when it runs alone. */
module InterleavedCalls {
  import opened Wrappers
  import opened JsonValues
  import opened ResponseCache
  import opened Pipeline

  /** A call, and the cache as it found it. */
  datatype Arrival = Arrival(call: Call, found: Store)

  datatype Returned = Returned(arrival: Arrival, result: ToolResult, trace: seq<Event>)

  datatype Machine = Machine(store: Store, flights: map<nat, Arrival>, returned: map<nat, Returned>)

  datatype Action = Start(id: nat, call: Call) | Finish(id: nat)

  /** The key the call's answer is kept under, if it is kept at all. */
  ghost function CachedUnder(cfg: ToolConfig, canonical: Json -> string, call: Call): Option<string> {
    if cfg.ttl.Some? then KeyOf(cfg.name, call, canonical) else None
  }

  /** Up to the end of the lookup: the call returns at once, or goes on to the gated handler. */
  ghost function Started(cfg: ToolConfig, canonical: Json -> string, m: Machine, id: nat, call: Call): Machine {
    var arrival, key := Arrival(call, m.store), CachedUnder(cfg, canonical, call);
    if BlankArgument(cfg.fields, call.args) then m.(returned := m.returned[id := Returned(arrival, ERROR, [])])
    else if key.None? then m.(flights := m.flights[id := arrival])
    else
      var (looked, hit) := Got(m.store, key.value, call.now);
      if hit.Some? then m.(store := looked, returned := m.returned[id := Returned(arrival, hit.value, [])])
      else m.(store := looked, flights := m.flights[id := arrival])
  }

  /** The gated handler, and what of its answer is kept in the cache as it is by then. */
  ghost function Finished(cfg: ToolConfig, canonical: Json -> string, m: Machine, id: nat): Machine
    requires id in m.flights
  {
    var arrival := m.flights[id];
    var s := Gated(cfg)(m.store, arrival.call);
    Machine(Filled(cfg, canonical, arrival.call, s), m.flights - {id}, m.returned[id := Returned(arrival, s.result, s.trace)])
  }

  /** The cache after the gated handler's answer: a success under a key is kept. */
  ghost function Filled(cfg: ToolConfig, canonical: Json -> string, call: Call, s: Step): Store {
    var key := CachedUnder(cfg, canonical, call);
    if key.None? || s.result.isError then s.store
    else Stored(s.store, key.value, Entry(s.result, call.now + cfg.ttl.value), call.now, call.victim)
  }

  predicate Enabled(m: Machine, a: Action) {
    match a
    case Start(id, _) => id !in m.flights && id !in m.returned
    case Finish(id) => id in m.flights
  }

  ghost function Next(cfg: ToolConfig, canonical: Json -> string, m: Machine, a: Action): Machine
    requires Enabled(m, a)
  {
    match a
    case Start(id, call) => Started(cfg, canonical, m, id, call)
    case Finish(id) => Finished(cfg, canonical, m, id)
  }

  ghost predicate StepAt(cfg: ToolConfig, canonical: Json -> string, machines: seq<Machine>, actions: seq<Action>, i: nat)
    requires i < |actions| < |machines|
  {
    Enabled(machines[i], actions[i]) && machines[i + 1] == Next(cfg, canonical, machines[i], actions[i])
  }

  ghost predicate Run(cfg: ToolConfig, canonical: Json -> string, machines: seq<Machine>, actions: seq<Action>) {
    && |machines| == |actions| + 1
    && machines[0] == Machine(map[], map[], map[])
    && forall i :: 0 <= i < |actions| ==> StepAt(cfg, canonical, machines, actions, i)
  }

  /** What the chain would return, and do outside, if the call ran alone on the cache it found. */
  ghost function Alone(cfg: ToolConfig, canonical: Json -> string, arrival: Arrival): Step {
    Assemble(cfg, canonical)(arrival.found, arrival.call)
  }

  // ---------------------------------------------------------------- the gated handler and the cache

  /** The handler neither reads the cache nor writes it. */
  ghost predicate IgnoresCache(h: Handler, one: Store, other: Store, call: Call) {
    var s, t := h(one, call), h(other, call);
    s.result == t.result && s.trace == t.trace && s.store == one && t.store == other
  }

  lemma ToolIgnoresCache(declared: Option<set<string>>, one: Store, other: Store, call: Call)
    ensures IgnoresCache(ToolHandler(declared), one, other, call)
  {
  }

  lemma RejectEmptyIgnoresCache(next: Handler, one: Store, other: Store, call: Call)
    requires IgnoresCache(next, one, other, call)
    ensures IgnoresCache(WithRejectEmpty(next), one, other, call)
  {
  }

  lemma RateLimitIgnoresCache(limited: bool, next: Handler, one: Store, other: Store, call: Call)
    requires IgnoresCache(next, one, other, call)
    ensures IgnoresCache(WithRateLimit(limited, next), one, other, call)
  {
  }

  lemma ConfirmationIgnoresCache(message: string, next: Handler, one: Store, other: Store, call: Call)
    requires IgnoresCache(next, one, other, call)
    ensures IgnoresCache(WithConfirmation(message, next), one, other, call)
  {
  }

  /** What stands inside the cache has nothing to do with it. */
  lemma GatedIgnoresCache(cfg: ToolConfig, one: Store, other: Store, call: Call)
    ensures IgnoresCache(Gated(cfg), one, other, call)
  {
    var inner := ToolHandler(cfg.declared);
    ToolIgnoresCache(cfg.declared, one, other, call);
    RejectEmptyIgnoresCache(inner, one, other, call);
    var checked := if cfg.rejectEmpty then WithRejectEmpty(inner) else inner;
    RateLimitIgnoresCache(cfg.limited, checked, one, other, call);
    if cfg.confirm.Some? {
      ConfirmationIgnoresCache(cfg.confirm.value, WithRateLimit(cfg.limited, checked), one, other, call);
    }
  }

  lemma FilledStaysClean(cfg: ToolConfig, canonical: Json -> string, call: Call, s: Step)
    requires cfg.Accepted() && Clean(cfg, s.store)
    requires cfg.ttl.Some? && !s.result.isError ==> Keepable(cfg, s.result)
    ensures Clean(cfg, Filled(cfg, canonical, call, s))
  {
    var key := CachedUnder(cfg, canonical, call);
    if key.Some? && !s.result.isError { StoreStaysClean(cfg, s.store, key.value, s.result, call); }
  }

  // ---------------------------------------------------------------- a call alone

  /** The chain, case by case. */
  lemma AloneAs(cfg: ToolConfig, canonical: Json -> string, arrival: Arrival)
    requires cfg.Accepted() && Clean(cfg, arrival.found)
    ensures var call, key, s := arrival.call, CachedUnder(cfg, canonical, arrival.call), Alone(cfg, canonical, arrival);
            if BlankArgument(cfg.fields, call.args) then s == Step(arrival.found, ERROR, [])
            else if key.None? then s == Gated(cfg)(arrival.found, call)
            else
              var (looked, hit) := Got(arrival.found, key.value, call.now);
              if hit.Some? then s == Step(looked, hit.value, [])
              else
                var t := Gated(cfg)(looked, call);
                s == Step(Filled(cfg, canonical, call, t), t.result, t.trace)
  {
    if !BlankArgument(cfg.fields, arrival.call.args) {
      UnblockedCall(cfg, canonical, arrival.found, arrival.call);
    }
  }

  /** The call is not answered by its lookup. */
  ghost predicate GoesOn(cfg: ToolConfig, canonical: Json -> string, arrival: Arrival) {
    var key := CachedUnder(cfg, canonical, arrival.call);
    && !BlankArgument(cfg.fields, arrival.call.args)
    && (key.Some? ==> Got(arrival.found, key.value, arrival.call.now).1.None?)
  }

  /** Then the gated handler decides, whatever has become of the cache by the time it runs. */
  lemma AnsweredByGated(cfg: ToolConfig, canonical: Json -> string, arrival: Arrival, store: Store)
    requires cfg.Accepted() && Clean(cfg, arrival.found) && GoesOn(cfg, canonical, arrival)
    ensures var s, t := Alone(cfg, canonical, arrival), Gated(cfg)(store, arrival.call);
            s.result == t.result && s.trace == t.trace
  {
    var key := CachedUnder(cfg, canonical, arrival.call);
    AloneAs(cfg, canonical, arrival);
    GatedIgnoresCache(cfg, if key.None? then arrival.found else Got(arrival.found, key.value, arrival.call.now).0, store, arrival.call);
  }

  // ---------------------------------------------------------------- every interleaving

  ghost predicate AsAlone(cfg: ToolConfig, canonical: Json -> string, r: Returned) {
    && Clean(cfg, r.arrival.found)
    && r.result == Alone(cfg, canonical, r.arrival).result
    && r.trace == Alone(cfg, canonical, r.arrival).trace
  }

  ghost predicate Kept(cfg: ToolConfig, canonical: Json -> string, m: Machine) {
    && Clean(cfg, m.store)
    && (forall id :: id in m.flights ==> Clean(cfg, m.flights[id].found) && GoesOn(cfg, canonical, m.flights[id]))
    && (forall id :: id in m.returned ==> AsAlone(cfg, canonical, m.returned[id]))
  }

  lemma ReturnKeeps(cfg: ToolConfig, canonical: Json -> string, m: Machine, id: nat, store: Store, r: Returned)
    requires Kept(cfg, canonical, m) && Clean(cfg, store) && AsAlone(cfg, canonical, r)
    ensures Kept(cfg, canonical, Machine(store, m.flights, m.returned[id := r]))
    ensures Kept(cfg, canonical, Machine(store, m.flights - {id}, m.returned[id := r]))
  {
  }

  lemma FlightKeeps(cfg: ToolConfig, canonical: Json -> string, m: Machine, id: nat, store: Store, arrival: Arrival)
    requires Kept(cfg, canonical, m) && Clean(cfg, store) && Clean(cfg, arrival.found) && GoesOn(cfg, canonical, arrival)
    ensures Kept(cfg, canonical, Machine(store, m.flights[id := arrival], m.returned))
  {
  }

  lemma StartKeeps(cfg: ToolConfig, canonical: Json -> string, m: Machine, id: nat, call: Call)
    requires cfg.Accepted() && Kept(cfg, canonical, m)
    ensures Kept(cfg, canonical, Started(cfg, canonical, m, id, call))
  {
    var arrival, key := Arrival(call, m.store), CachedUnder(cfg, canonical, call);
    var looked := if key.None? then m.store else Got(m.store, key.value, call.now).0;
    if key.Some? { LookupStaysClean(cfg, m.store, key.value, call.now); }
    if BlankArgument(cfg.fields, call.args) {
      AloneAs(cfg, canonical, arrival);
      ReturnKeeps(cfg, canonical, m, id, m.store, Returned(arrival, ERROR, []));
    } else if GoesOn(cfg, canonical, arrival) {
      FlightKeeps(cfg, canonical, m, id, looked, arrival);
    } else {
      AloneAs(cfg, canonical, arrival);
      ReturnKeeps(cfg, canonical, m, id, looked, Returned(arrival, Got(m.store, key.value, call.now).1.value, []));
    }
  }

  lemma FinishKeeps(cfg: ToolConfig, canonical: Json -> string, m: Machine, id: nat)
    requires cfg.Accepted() && Kept(cfg, canonical, m) && id in m.flights
    ensures Kept(cfg, canonical, Finished(cfg, canonical, m, id))
  {
    var arrival := m.flights[id];
    var s := Gated(cfg)(m.store, arrival.call);
    AnsweredByGated(cfg, canonical, arrival, m.store);
    GatedIsSettled(cfg, m.store, arrival.call);
    FilledStaysClean(cfg, canonical, arrival.call, s);
    ReturnKeeps(cfg, canonical, m, id, Filled(cfg, canonical, arrival.call, s), Returned(arrival, s.result, s.trace));
  }

  lemma {:induction false} AlwaysKept(cfg: ToolConfig, canonical: Json -> string, machines: seq<Machine>, actions: seq<Action>, n: nat)
    requires cfg.Accepted() && Run(cfg, canonical, machines, actions) && n <= |actions|
    ensures Kept(cfg, canonical, machines[n])
  {
    if n > 0 {
      AlwaysKept(cfg, canonical, machines, actions, n - 1);
      assert StepAt(cfg, canonical, machines, actions, n - 1);
      match actions[n - 1]
      case Start(id, call) => StartKeeps(cfg, canonical, machines[n - 1], id, call);
      case Finish(id) => FinishKeeps(cfg, canonical, machines[n - 1], id);
    }
  }

  /** However the calls of an accepted tool interleave, each returns what the chain returns, and has done
      outside what the chain does, when it runs alone on the cache the call found; that cache was clean,
      so every discipline of a single call holds of each of them, and the cache stays clean. */
  lemma InterleavedCallsAreDisciplined(cfg: ToolConfig, canonical: Json -> string, machines: seq<Machine>, actions: seq<Action>,
                                       n: nat, id: nat)
    requires cfg.Accepted() && Run(cfg, canonical, machines, actions) && n <= |actions|
    requires id in machines[n].returned
    ensures Clean(cfg, machines[n].store)
    ensures var r := machines[n].returned[id];
            var call, s := r.arrival.call, Alone(cfg, canonical, r.arrival);
            && Clean(cfg, r.arrival.found) && r.result == s.result && r.trace == s.trace
            && TraceDisciplined(cfg, call, s)
            && OutcomeDisciplined(cfg, canonical, r.arrival.found, call, s)
            && Requests(r.trace) <= 1
            && (cfg.limited ==> Requests(r.trace) <= Charges(r.trace))
  {
    AlwaysKept(cfg, canonical, machines, actions, n);
    var r := machines[n].returned[id];
    assert AsAlone(cfg, canonical, r);
    CallIsDisciplined(cfg, canonical, r.arrival.found, r.arrival.call);
    DisciplinedCounts(cfg, r.arrival.call, Alone(cfg, canonical, r.arrival));
  }

  /** And each is decided, check by check, on the cache it found. */
  lemma InterleavedOutcome(cfg: ToolConfig, canonical: Json -> string, machines: seq<Machine>, actions: seq<Action>, n: nat, id: nat)
    requires cfg.Accepted() && Run(cfg, canonical, machines, actions) && n <= |actions|
    requires id in machines[n].returned
    ensures var r := machines[n].returned[id]; (r.result, r.trace) == Outcome(cfg, canonical, r.arrival.found, r.arrival.call)
  {
    AlwaysKept(cfg, canonical, machines, actions, n);
    assert AsAlone(cfg, canonical, machines[n].returned[id]);
    ChainOutcome(cfg, canonical, machines[n].returned[id].arrival.found, machines[n].returned[id].arrival.call);
  }

  // ---------------------------------------------------------------- a run as a history of its cache

  ghost function OpOf(cfg: ToolConfig, canonical: Json -> string, m: Machine, a: Action): Op<ToolResult>
    requires Enabled(m, a)
  {
    match a
    case Start(_, call) =>
      var key := CachedUnder(cfg, canonical, call);
      if key.Some? && !BlankArgument(cfg.fields, call.args) then GetOp(key.value, call.now) else Idle
    case Finish(id) =>
      var arrival := m.flights[id];
      var key, result := CachedUnder(cfg, canonical, arrival.call), Alone(cfg, canonical, arrival).result;
      if key.Some? && !result.isError then PutOp(key.value, result, arrival.call.now) else Idle
  }

  lemma StepIsOp(cfg: ToolConfig, canonical: Json -> string, m: Machine, a: Action)
    requires cfg.Accepted() && Kept(cfg, canonical, m) && Enabled(m, a)
    ensures Steps(if cfg.ttl.Some? then cfg.ttl.value else 0, m.store, OpOf(cfg, canonical, m, a), Next(cfg, canonical, m, a).store)
  {
    if a.Finish? {
      FinishIsOp(cfg, canonical, m, m.flights[a.id], Gated(cfg)(m.store, m.flights[a.id].call));
    }
  }

  lemma FinishIsOp(cfg: ToolConfig, canonical: Json -> string, m: Machine, arrival: Arrival, s: Step)
    requires cfg.Accepted() && Clean(cfg, arrival.found) && GoesOn(cfg, canonical, arrival)
    requires s == Gated(cfg)(m.store, arrival.call)
    ensures var key, result := CachedUnder(cfg, canonical, arrival.call), Alone(cfg, canonical, arrival).result;
            Steps(if cfg.ttl.Some? then cfg.ttl.value else 0, m.store,
                  if key.Some? && !result.isError then PutOp(key.value, result, arrival.call.now) else Idle,
                  Filled(cfg, canonical, arrival.call, s))
  {
    AnsweredByGated(cfg, canonical, arrival, m.store);
    GatedIgnoresCache(cfg, m.store, m.store, arrival.call);
    FilledIsOp(cfg, canonical, m.store, arrival.call, s);
  }

  lemma FilledIsOp(cfg: ToolConfig, canonical: Json -> string, store: Store, call: Call, s: Step)
    requires s.store == store
    ensures var key := CachedUnder(cfg, canonical, call);
            Steps(if cfg.ttl.Some? then cfg.ttl.value else 0, store,
                  if key.Some? && !s.result.isError then PutOp(key.value, s.result, call.now) else Idle,
                  Filled(cfg, canonical, call, s))
  {
  }

  /** What the steps of a run do to the cache, by position. */
  ghost predicate IsHistoryOf(cfg: ToolConfig, canonical: Json -> string, machines: seq<Machine>, actions: seq<Action>,
                              stores: seq<Store>, ops: seq<Op<ToolResult>>)
  {
    && |machines| == |actions| + 1 == |stores| && |ops| == |actions|
    && (forall i :: 0 <= i < |stores| ==> stores[i] == machines[i].store)
    && (forall i :: 0 <= i < |ops| ==> Enabled(machines[i], actions[i]) && ops[i] == OpOf(cfg, canonical, machines[i], actions[i]))
  }

  lemma RunIsHistory(cfg: ToolConfig, canonical: Json -> string, machines: seq<Machine>, actions: seq<Action>,
                     stores: seq<Store>, ops: seq<Op<ToolResult>>)
    requires cfg.Accepted() && cfg.ttl.Some? && Run(cfg, canonical, machines, actions)
    requires IsHistoryOf(cfg, canonical, machines, actions, stores, ops)
    ensures History(cfg.ttl.value, stores, ops) && stores[0] == map[]
  {
    forall i | 0 <= i < |ops| ensures ResponseCache.StepAt(cfg.ttl.value, stores, ops, i) {
      AlwaysKept(cfg, canonical, machines, actions, i);
      assert StepAt(cfg, canonical, machines, actions, i);
      StepIsOp(cfg, canonical, machines[i], actions[i]);
    }
  }

  /** However calls interleave, one that starts inside the window of the last answer kept under its key
      returns that answer at once and does nothing outside, unless 255 other keys were kept since. */
  lemma RepeatIsAnswered(cfg: ToolConfig, canonical: Json -> string, machines: seq<Machine>, actions: seq<Action>,
                         stores: seq<Store>, ops: seq<Op<ToolResult>>, i: nat, n: nat, id: nat, call: Call, key: string)
    requires cfg.Accepted() && cfg.ttl.Some? && Run(cfg, canonical, machines, actions)
    requires IsHistoryOf(cfg, canonical, machines, actions, stores, ops)
    requires i < n < |actions| && actions[n] == Start(id, call) && CachedUnder(cfg, canonical, call) == Some(key)
    requires !BlankArgument(cfg.fields, call.args)
    requires PutTimesIncrease(ops) && PutsKey(ops[i], key) && LeavesAlone(ops, i + 1, n, key, ops[i].now + cfg.ttl.value)
    requires call.now < ops[i].now + cfg.ttl.value && |PutKeys(ops, i + 1, n) - {key}| < 255
    ensures var m := machines[n + 1];
            id !in m.flights && id in m.returned && m.returned[id].result == ops[i].result && m.returned[id].trace == []
  {
    RunIsHistory(cfg, canonical, machines, actions, stores, ops);
    LastPutIsHit(cfg.ttl.value, stores, ops, i, n, key, call.now);
    assert StepAt(cfg, canonical, machines, actions, n);
  }

  // ---------------------------------------------------------------- one call at a time

  /** Run back to back, the two sections are the chain. */
  lemma SectionsMakeTheChain(cfg: ToolConfig, canonical: Json -> string, m: Machine, id: nat, call: Call)
    requires cfg.Accepted() && Clean(cfg, m.store) && Enabled(m, Start(id, call))
    ensures var begun := Started(cfg, canonical, m, id, call);
            var ended := if id in begun.flights then Finished(cfg, canonical, begun, id) else begun;
            var s := Assemble(cfg, canonical)(m.store, call);
            ended == Machine(s.store, m.flights, m.returned[id := Returned(Arrival(call, m.store), s.result, s.trace)])
  {
    var arrival := Arrival(call, m.store);
    assert m.flights[id := arrival] - {id} == m.flights;
    AloneAs(cfg, canonical, arrival);
  }
}
