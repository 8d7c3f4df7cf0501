/** The handler chain `New` builds around one grant (internal/mcpserver/server.go, lines 261-289). Each
    wrapper takes a handler and gives back a handler, as the source's closures do; a handler takes the
    tool's cache and one call to the cache it leaves, a result, and the trace of what it did outside. */
module Pipeline {
  import opened Wrappers
  import opened JsonValues
  import opened ResponseCache
  import CachedHandler
  import Controls
  import Gates

  datatype Elicited = Elicited(isElicit: bool, action: string)

  /** What happens when the innermost handler executes: nothing leaves the process, or a request does and
      fails, or it does and is answered. */
  datatype Upstream = NotSent | SentAndFailed | Answered(structured: Option<Json>, content: seq<Content>)

  /** One call, with everything its environment will say to it: the client's answer to a prompt, the
      clock, whether the bucket grants, and how the upstream would answer. `victim` settles which of
      several soonest-expiring entries a full cache gives up. */
  datatype Call = Call(args: Arguments, answer: Option<Elicited>, now: Instant, granted: bool, upstream: Upstream, victim: string)

  datatype Event = Prompted(message: string) | ChargeRefused | Charged | Requested(args: map<string, Json>)

  type Store = Entries<ToolResult>

  datatype Step = Step(store: Store, result: ToolResult, trace: seq<Event>)

  type Handler = (Store, Call) -> Step

  const ERROR := ToolResult(true, None, [], None)

  // ---------------------------------------------------------------- the wrappers

  /** A closed schema names every argument it takes; an open one (`None`) takes any. */
  predicate Takes(declared: Option<set<string>>, args: map<string, Json>) {
    declared.Some? ==> args.Keys <= declared.value
  }

  /** `toolHandler`: refuse what does not decode or is not declared, then execute. */
  ghost function ToolHandler(declared: Option<set<string>>): Handler {
    (store: Store, call: Call) =>
      var args := DecodeArgs(call.args);
      if args.None? || !Takes(declared, args.value) then Step(store, ERROR, [])
      else
        match call.upstream
        case NotSent => Step(store, ERROR, [])
        case SentAndFailed => Step(store, ERROR, [Requested(args.value)])
        case Answered(structured, content) => Step(store, ToolResult(false, structured, content, None), [Requested(args.value)])
  }

  ghost function WithRejectEmpty(next: Handler): Handler {
    (store: Store, call: Call) =>
      var s := next(store, call);
      if s.result.isError then s
      else if EmptyResult(s.result) then s.(result := ERROR)
      else s
  }

  ghost function WithRateLimit(limited: bool, next: Handler): Handler {
    if !limited then next
    else
      (store: Store, call: Call) =>
        if !call.granted then Step(store, ERROR, [ChargeRefused])
        else var s := next(store, call); s.(trace := [Charged] + s.trace)
  }

  ghost function WithConfirmation(message: string, next: Handler): Handler {
    (store: Store, call: Call) =>
      if call.answer.None? then Step(store, ToolResult(false, None, [], Some(message)), [Prompted(message)])
      else if !call.answer.value.isElicit || call.answer.value.action != "accept" then Step(store, ERROR, [])
      else next(store, call)
  }

  ghost function CacheArgs(args: Arguments): CachedHandler.Arguments<Json> {
    match args
    case Absent => CachedHandler.Absent
    case Undecodable => CachedHandler.Undecodable
    case Decoded(v) => CachedHandler.Decoded(v)
  }

  ghost function KeyOf(name: string, call: Call, canonical: Json -> string): Option<string> {
    CachedHandler.CacheKey(name, CacheArgs(call.args), canonical)
  }

  /** The value a call's arguments stand for, absent ones standing for the empty object. */
  function ArgumentsValue(args: Arguments): Json
    requires !args.Undecodable?
  {
    if args.Absent? then JObject(map[]) else args.value
  }

  /** Calls whose arguments decode have keys, and two of them share one exactly when they decode to one value. */
  lemma SharedKeyIff(name: string, a: Call, b: Call, canonical: Json -> string)
    requires forall x: Json, y: Json {:trigger canonical(x), canonical(y)} :: canonical(x) == canonical(y) ==> x == y
    requires canonical(JObject(map[])) == "{}"
    ensures KeyOf(name, a, canonical).Some? <==> !a.args.Undecodable?
    ensures !a.args.Undecodable? && !b.args.Undecodable? ==>
              (KeyOf(name, a, canonical) == KeyOf(name, b, canonical) <==> ArgumentsValue(a.args) == ArgumentsValue(b.args))
  {
    if !a.args.Undecodable? && !b.args.Undecodable? {
      CachedHandler.SameKeyIff(name, CacheArgs(a.args), CacheArgs(b.args), canonical, JObject(map[]));
    }
  }

  ghost function WithResponseCache(ttl: nat, name: string, canonical: Json -> string, next: Handler): Handler {
    (store: Store, call: Call) =>
      var key := KeyOf(name, call, canonical);
      if key.None? then next(store, call)
      else
        var (looked, hit) := Got(store, key.value, call.now);
        if hit.Some? then Step(looked, hit.value, [])
        else
          var s := next(looked, call);
          if s.result.isError then s
          else s.(store := Stored(s.store, key.value, Entry(s.result, call.now + ttl), call.now, call.victim))
  }

  /** One of the outcomes `put` allows: the named victim if it is a soonest entry, else some soonest one. */
  ghost function Stored(m: Store, key: string, e: Entry<ToolResult>, now: Instant, victim: string): (after: Store)
    ensures Puts(m, key, e, now, after)
  {
    var live := Purged(m, now);
    if |live| < MAX_CACHE_ENTRIES then live[key := e]
    else
      var chosen := if Soonest(live, victim) then victim else SomeSoonest(live);
      assert Evicts(live, chosen, live - {chosen});
      (live - {chosen})[key := e]
  }

  ghost function SomeSoonest(m: Store): (k: string)
    requires |m| > 0
    ensures Soonest(m, k)
  {
    assert |m.Keys| == |m|;
    SoonestExists(m, m.Keys);
    var k :| SoonestAmong(m, m.Keys, k);
    k
  }

  ghost predicate SoonestAmong(m: Store, among: set<string>, k: string)
    requires among <= m.Keys
  {
    k in among && forall other :: other in among ==> m[k].expires <= m[other].expires
  }

  lemma {:induction false} SoonestExists(m: Store, among: set<string>)
    requires among <= m.Keys && among != {}
    ensures exists k :: SoonestAmong(m, among, k)
    decreases |among|
  {
    var first :| first in among;
    var rest := among - {first};
    if rest == {} {
      assert among == {first};
      assert SoonestAmong(m, among, first);
    } else {
      SoonestExists(m, rest);
      var k :| SoonestAmong(m, rest, k);
      assert SoonestAmong(m, among, if m[first].expires <= m[k].expires then first else k);
    }
  }

  /** Nothing `put` allows is out of reach of the victim a call names. */
  lemma EveryPutIsReached(m: Store, key: string, e: Entry<ToolResult>, now: Instant, after: Store)
    requires Puts(m, key, e, now, after)
    ensures exists victim :: Stored(m, key, e, now, victim) == after
  {
    var live := Purged(m, now);
    if |live| < MAX_CACHE_ENTRIES {
      assert Stored(m, key, e, now, "") == after;
    } else {
      var victim :| Evicts(live, victim, live - {victim}) && after == (live - {victim})[key := e];
      assert Stored(m, key, e, now, victim) == after;
    }
  }

  predicate BlankArgument(fields: seq<string>, args: Arguments) {
    var m := DecodeArgs(args);
    m.Some? && exists i :: 0 <= i < |fields| && fields[i] in m.value && EmptyJson(m.value[fields[i]])
  }

  /** The loop of `withRejectEmptyArguments` over the guarded fields: an absent field is passed over. */
  method FindBlankArgument(fields: seq<string>, args: Arguments) returns (blank: bool)
    ensures blank == BlankArgument(fields, args)
  {
    var supplied := DecodeArgs(args);
    if supplied.None? { return false; }
    for i := 0 to |fields|
      invariant forall j :: 0 <= j < i ==> !(fields[j] in supplied.value && EmptyJson(supplied.value[fields[j]]))
    {
      if fields[i] in supplied.value && EmptyJson(supplied.value[fields[i]]) { return true; }
    }
    blank := false;
  }

  ghost function WithRejectEmptyArguments(fields: seq<string>, next: Handler): Handler {
    (store: Store, call: Call) => if BlankArgument(fields, call.args) then Step(store, ERROR, []) else next(store, call)
  }

  // ---------------------------------------------------------------- the assembled tool

  datatype ToolConfig = ToolConfig(name: string, declared: Option<set<string>>, limited: bool, rejectEmpty: bool,
                                   confirm: Option<string>, ttl: Option<nat>, fields: seq<string>)
  {
    /** What the build guarantees: no tool is both gated and cached, and a cache window is positive. */
    predicate Accepted() { ttl.Some? ==> ttl.value > 0 && confirm.None? }
  }

  function ConfigOf(g: Gates.Gating, tool: string, declared: Option<set<string>>, limited: bool): ToolConfig {
    ToolConfig(tool, declared, limited, tool in g.rejects,
               if tool in g.confirms then Some(g.confirms[tool]) else None,
               if tool in g.caches then Some(g.caches[tool]) else None,
               Gates.FieldsOf(g.fields, tool))
  }

  /** The wrapping order of `New`, innermost first: what a cache miss runs, and what stands around it. */
  ghost function Gated(cfg: ToolConfig): Handler {
    var inner := ToolHandler(cfg.declared);
    var metered := WithRateLimit(cfg.limited, if cfg.rejectEmpty then WithRejectEmpty(inner) else inner);
    if cfg.confirm.Some? then WithConfirmation(cfg.confirm.value, metered) else metered
  }

  ghost function Assemble(cfg: ToolConfig, canonical: Json -> string): Handler {
    var cached := if cfg.ttl.Some? then WithResponseCache(cfg.ttl.value, cfg.name, canonical, Gated(cfg)) else Gated(cfg);
    if cfg.fields != [] then WithRejectEmptyArguments(cfg.fields, cached) else cached
  }

  // ---------------------------------------------------------------- what every call keeps

  /** Fit to be answered again: no error, no prompt, and no empty answer where those are refused. */
  predicate Keepable(cfg: ToolConfig, r: ToolResult) {
    !r.isError && r.prompt.None? && (cfg.rejectEmpty ==> !EmptyResult(r))
  }

  ghost predicate Clean(cfg: ToolConfig, store: Store) {
    && Bounded(store)
    && (cfg.ttl.None? ==> store == map[])
    && forall k :: k in store ==> Keepable(cfg, store[k].result)
  }

  predicate Confirmed(call: Call) {
    call.answer.Some? && call.answer.value.isElicit && call.answer.value.action == "accept"
  }

  ghost predicate Hits(cfg: ToolConfig, canonical: Json -> string, store: Store, call: Call) {
    && cfg.ttl.Some? && KeyOf(cfg.name, call, canonical).Some?
    && Got(store, KeyOf(cfg.name, call, canonical).value, call.now).1.Some?
  }

  /** Every request follows exactly one successful charge of its own call and carries its declared
      arguments; charges and requests need the accept a gate asks for; a prompt is all its call does. */
  ghost predicate TraceDisciplined(cfg: ToolConfig, call: Call, s: Step) {
    && (forall i :: 0 <= i < |s.trace| && s.trace[i].Requested? ==>
         && s.trace == (if cfg.limited then [Charged] else []) + [s.trace[i]]
         && DecodeArgs(call.args) == Some(s.trace[i].args) && Takes(cfg.declared, s.trace[i].args)
         && (cfg.confirm.Some? ==> Confirmed(call)))
    && (forall i :: 0 <= i < |s.trace| && (s.trace[i].Charged? || s.trace[i].ChargeRefused?) ==>
         cfg.limited && i == 0 && (cfg.confirm.Some? ==> Confirmed(call)))
    && (forall i :: 0 <= i < |s.trace| && s.trace[i].Prompted? ==>
         cfg.confirm.Some? && s.trace == [Prompted(cfg.confirm.value)] && call.answer.None? && s.result.prompt == cfg.confirm)
  }

  ghost predicate OutcomeDisciplined(cfg: ToolConfig, canonical: Json -> string, store: Store, call: Call, s: Step) {
    && (BlankArgument(cfg.fields, call.args) ==> s.trace == [] && s.result.isError && s.store == store)
    && (Hits(cfg, canonical, store, call) && !BlankArgument(cfg.fields, call.args) ==> s.trace == [] && Keepable(cfg, s.result))
    && (cfg.confirm.Some? && call.answer.Some? && !Confirmed(call) ==> s.trace == [] && s.result.isError)
    && (!s.result.isError && s.result.prompt.None? ==> Keepable(cfg, s.result))
  }

  /** The shapes a trace past the cache can take. */
  ghost predicate Shaped(cfg: ToolConfig, call: Call, s: Step) {
    || s.trace == []
    || (cfg.confirm.Some? && s.trace == [Prompted(cfg.confirm.value)] && call.answer.None? && s.result.prompt == cfg.confirm)
    || ((cfg.confirm.Some? ==> Confirmed(call)) && s.result.prompt.None?
        && (|| (cfg.limited && s.trace == [ChargeRefused] && s.result.isError)
            || (cfg.limited && s.trace == [Charged] && s.result.isError)
            || (DecodeArgs(call.args).Some? && Takes(cfg.declared, DecodeArgs(call.args).value)
                && s.trace == (if cfg.limited then [Charged] else []) + [Requested(DecodeArgs(call.args).value)])))
  }

  ghost predicate Settled(cfg: ToolConfig, store: Store, call: Call, s: Step) {
    && s.store == store
    && Shaped(cfg, call, s)
    && (s.result.prompt.Some? ==> cfg.confirm.Some?)
    && (s.result.prompt.None? && !s.result.isError ==> Keepable(cfg, s.result))
    && (cfg.confirm.Some? && call.answer.Some? && !Confirmed(call) ==> s.trace == [] && s.result.isError)
  }

  lemma MeteredIsSettled(cfg: ToolConfig, store: Store, call: Call)
    requires cfg.confirm.Some? ==> Confirmed(call)
    ensures var inner := ToolHandler(cfg.declared);
            var s := WithRateLimit(cfg.limited, if cfg.rejectEmpty then WithRejectEmpty(inner) else inner)(store, call);
            Settled(cfg, store, call, s) && s.result.prompt.None?
  {
    var inner := ToolHandler(cfg.declared);
    var checked := if cfg.rejectEmpty then WithRejectEmpty(inner) else inner;
    var c := checked(store, call);
    assert c.store == store && c.result.prompt.None? && (!c.result.isError ==> Keepable(cfg, c.result));
    assert (c.trace == [] && c.result.isError)
           || (DecodeArgs(call.args).Some? && Takes(cfg.declared, DecodeArgs(call.args).value)
               && c.trace == [Requested(DecodeArgs(call.args).value)]);
    if !cfg.limited {
      assert [] + c.trace == c.trace;
    }
  }

  lemma GatedIsSettled(cfg: ToolConfig, store: Store, call: Call)
    ensures Settled(cfg, store, call, Gated(cfg)(store, call))
  {
    if cfg.confirm.Some? ==> Confirmed(call) {
      MeteredIsSettled(cfg, store, call);
    }
  }

  lemma ShapedIsDisciplined(cfg: ToolConfig, call: Call, s: Step)
    requires Shaped(cfg, call, s)
    ensures TraceDisciplined(cfg, call, s)
  {
  }

  lemma UnblockedCall(cfg: ToolConfig, canonical: Json -> string, store: Store, call: Call)
    requires cfg.Accepted() && Clean(cfg, store) && !BlankArgument(cfg.fields, call.args)
    ensures var s := Assemble(cfg, canonical)(store, call);
            var key := KeyOf(cfg.name, call, canonical);
            if cfg.ttl.None? || key.None? then s == Gated(cfg)(store, call)
            else
              var looked := Got(store, key.value, call.now).0;
              if Hits(cfg, canonical, store, call) then
                s.trace == [] && s.store == looked && s.result == store[key.value].result
              else
                var t := Gated(cfg)(looked, call);
                s == if t.result.isError then t
                     else t.(store := Stored(t.store, key.value, Entry(t.result, call.now + cfg.ttl.value), call.now, call.victim))
  {
  }

  /** One call of an accepted tool over a clean cache is disciplined and leaves the cache clean. */
  lemma CallIsDisciplined(cfg: ToolConfig, canonical: Json -> string, store: Store, call: Call)
    requires cfg.Accepted() && Clean(cfg, store)
    ensures var s := Assemble(cfg, canonical)(store, call);
            && TraceDisciplined(cfg, call, s)
            && OutcomeDisciplined(cfg, canonical, store, call, s)
            && Clean(cfg, s.store)
  {
    var s := Assemble(cfg, canonical)(store, call);
    if BlankArgument(cfg.fields, call.args) {
      assert s == Step(store, ERROR, []);
    } else {
      var key := KeyOf(cfg.name, call, canonical);
      UnblockedCall(cfg, canonical, store, call);
      if cfg.ttl.None? || key.None? {
        GatedIsSettled(cfg, store, call);
        ShapedIsDisciplined(cfg, call, s);
      } else {
        var looked := Got(store, key.value, call.now).0;
        LookupStaysClean(cfg, store, key.value, call.now);
        if !Hits(cfg, canonical, store, call) {
          var t := Gated(cfg)(looked, call);
          GatedIsSettled(cfg, looked, call);
          ShapedIsDisciplined(cfg, call, t);
          if !t.result.isError { StoreStaysClean(cfg, looked, key.value, t.result, call); }
        }
      }
    }
  }

  lemma LookupStaysClean(cfg: ToolConfig, store: Store, key: string, now: Instant)
    requires Clean(cfg, store)
    ensures Clean(cfg, Got(store, key, now).0)
  {
    if key in store { RemovalShrinks(store, key); }
  }

  lemma StoreStaysClean(cfg: ToolConfig, store: Store, key: string, r: ToolResult, call: Call)
    requires cfg.ttl.Some? && cfg.ttl.value > 0 && Clean(cfg, store) && Keepable(cfg, r)
    ensures Clean(cfg, Stored(store, key, Entry(r, call.now + cfg.ttl.value), call.now, call.victim))
  {
    var e := Entry(r, call.now + cfg.ttl.value);
    var after := Stored(store, key, e, call.now, call.victim);
    PutsBounded(store, key, e, call.now, after);
  }

  // ---------------------------------------------------------------- what a call comes to

  /** The request itself: what an executed grant returns, and what it sends. An answer comes back as the
      upstream gave it, unless it is empty and the tool refuses that. */
  ghost function Executed(cfg: ToolConfig, call: Call): (ToolResult, seq<Event>) {
    var args := DecodeArgs(call.args);
    if args.None? || (cfg.declared.Some? && exists name :: name in args.value && name !in cfg.declared.value) then (ERROR, [])
    else
      match call.upstream
      case NotSent => (ERROR, [])
      case SentAndFailed => (ERROR, [Requested(args.value)])
      case Answered(structured, content) =>
        var answer := ToolResult(false, structured, content, None);
        (if cfg.rejectEmpty && EmptyResult(answer) then ERROR else answer, [Requested(args.value)])
  }

  /** Past the cache: the gate, the charge, the request. */
  ghost function GatedOutcome(cfg: ToolConfig, call: Call): (ToolResult, seq<Event>) {
    if cfg.confirm.Some? && call.answer.None? then (ToolResult(false, None, [], cfg.confirm), [Prompted(cfg.confirm.value)])
    else if cfg.confirm.Some? && !Confirmed(call) then (ERROR, [])
    else if cfg.limited && !call.granted then (ERROR, [ChargeRefused])
    else var (result, sent) := Executed(cfg, call); (result, (if cfg.limited then [Charged] else []) + sent)
  }

  /** The arguments hold a guarded field, and nothing to speak of in it. */
  ghost predicate GivesBlank(cfg: ToolConfig, args: Arguments) {
    DecodeArgs(args).Some? && exists field :: field in DecodeArgs(args).value && field in cfg.fields && EmptyJson(DecodeArgs(args).value[field])
  }

  lemma GivesBlankIff(cfg: ToolConfig, args: Arguments)
    ensures BlankArgument(cfg.fields, args) <==> GivesBlank(cfg, args)
  {
    if GivesBlank(cfg, args) {
      var field :| field in DecodeArgs(args).value && field in cfg.fields && EmptyJson(DecodeArgs(args).value[field]);
      var i :| 0 <= i < |cfg.fields| && cfg.fields[i] == field;
    }
  }

  /** One call, decided check by check in the order it meets them: what it returns, and what it does
      outside. */
  ghost function Outcome(cfg: ToolConfig, canonical: Json -> string, store: Store, call: Call): (ToolResult, seq<Event>) {
    var key := if cfg.ttl.Some? then KeyOf(cfg.name, call, canonical) else None;
    if GivesBlank(cfg, call.args) then (ERROR, [])
    else if key.Some? && key.value in store && call.now < store[key.value].expires then (store[key.value].result, [])
    else GatedOutcome(cfg, call)
  }

  lemma ToolOutcome(cfg: ToolConfig, store: Store, call: Call)
    ensures var inner := ToolHandler(cfg.declared);
            var s := (if cfg.rejectEmpty then WithRejectEmpty(inner) else inner)(store, call);
            (s.result, s.trace) == Executed(cfg, call)
  {
  }

  lemma GatedDecides(cfg: ToolConfig, store: Store, call: Call)
    ensures var s := Gated(cfg)(store, call); (s.result, s.trace) == GatedOutcome(cfg, call)
  {
    var inner := ToolHandler(cfg.declared);
    var checked := if cfg.rejectEmpty then WithRejectEmpty(inner) else inner;
    ToolOutcome(cfg, store, call);
    var s := WithRateLimit(cfg.limited, checked)(store, call);
    assert [] + checked(store, call).trace == checked(store, call).trace;
    assert cfg.confirm.None? || Confirmed(call) ==> (s.result, s.trace) == GatedOutcome(cfg, call);
  }

  /** The chain of handlers decides every call of an accepted tool just so. */
  lemma ChainOutcome(cfg: ToolConfig, canonical: Json -> string, store: Store, call: Call)
    requires cfg.Accepted() && Clean(cfg, store)
    ensures var s := Assemble(cfg, canonical)(store, call); (s.result, s.trace) == Outcome(cfg, canonical, store, call)
  {
    GivesBlankIff(cfg, call.args);
    if !BlankArgument(cfg.fields, call.args) {
      var key := if cfg.ttl.Some? then KeyOf(cfg.name, call, canonical) else None;
      UnblockedCall(cfg, canonical, store, call);
      GatedDecides(cfg, if key.None? then store else Got(store, key.value, call.now).0, call);
    }
  }

  /** A success on a cached tool is kept for the window that began with its call. */
  lemma AnswerIsKept(cfg: ToolConfig, canonical: Json -> string, store: Store, call: Call)
    requires cfg.Accepted() && Clean(cfg, store) && cfg.ttl.Some? && KeyOf(cfg.name, call, canonical).Some?
    requires !BlankArgument(cfg.fields, call.args) && !Hits(cfg, canonical, store, call)
    requires !Assemble(cfg, canonical)(store, call).result.isError
    ensures var s, key := Assemble(cfg, canonical)(store, call), KeyOf(cfg.name, call, canonical).value;
            key in s.store && s.store[key] == Entry(s.result, call.now + cfg.ttl.value)
  {
    UnblockedCall(cfg, canonical, store, call);
  }

  /** So the next call with its arguments, inside that window, is answered the same and does nothing outside. */
  lemma RepeatIsFree(cfg: ToolConfig, canonical: Json -> string, store: Store, call: Call, again: Call)
    requires cfg.Accepted() && Clean(cfg, store) && cfg.ttl.Some? && KeyOf(cfg.name, call, canonical).Some?
    requires !BlankArgument(cfg.fields, call.args) && !Hits(cfg, canonical, store, call)
    requires !Assemble(cfg, canonical)(store, call).result.isError
    requires again.args == call.args && again.now < call.now + cfg.ttl.value
    ensures var s := Assemble(cfg, canonical)(store, call);
            var t := Assemble(cfg, canonical)(s.store, again);
            t.result == s.result && t.trace == []
  {
    AnswerIsKept(cfg, canonical, store, call);
    CallIsDisciplined(cfg, canonical, store, call);
    ChainOutcome(cfg, canonical, Assemble(cfg, canonical)(store, call).store, again);
  }

  // ---------------------------------------------------------------- all call sequences

  ghost function Play(cfg: ToolConfig, canonical: Json -> string, store: Store, calls: seq<Call>): seq<Step>
    decreases |calls|
  {
    if calls == [] then []
    else
      var s := Assemble(cfg, canonical)(store, calls[0]);
      [s] + Play(cfg, canonical, s.store, calls[1..])
  }

  /** The store the `i`-th call finds. */
  ghost function StoreBefore(cfg: ToolConfig, canonical: Json -> string, store: Store, calls: seq<Call>, i: nat): Store
    requires i <= |calls|
    decreases |calls|
  {
    if i == 0 then store
    else StoreBefore(cfg, canonical, Assemble(cfg, canonical)(store, calls[0]).store, calls[1..], i - 1)
  }

  /** The `i`-th call is played on the store its predecessors left, which they left clean. */
  lemma {:induction false} PlayedInTurn(cfg: ToolConfig, canonical: Json -> string, store: Store, calls: seq<Call>, i: nat)
    requires cfg.Accepted() && Clean(cfg, store) && i < |calls|
    ensures |Play(cfg, canonical, store, calls)| == |calls|
    ensures var before := StoreBefore(cfg, canonical, store, calls, i);
            Clean(cfg, before) && Play(cfg, canonical, store, calls)[i] == Assemble(cfg, canonical)(before, calls[i])
    decreases |calls|
  {
    var s := Assemble(cfg, canonical)(store, calls[0]);
    PlayLength(cfg, canonical, s.store, calls[1..]);
    if i > 0 {
      CallIsDisciplined(cfg, canonical, store, calls[0]);
      PlayedInTurn(cfg, canonical, s.store, calls[1..], i - 1);
      assert Play(cfg, canonical, store, calls)[i] == Play(cfg, canonical, s.store, calls[1..])[i - 1];
    }
  }

  /** For every accepted configuration and every sequence of calls, each call is disciplined and what the
      cache holds is never an error, a prompt, or an answer that counts as empty on a tool that refuses
      those. */
  lemma {:induction false} EveryCallIsDisciplined(cfg: ToolConfig, canonical: Json -> string, store: Store, calls: seq<Call>, i: nat)
    requires cfg.Accepted() && Clean(cfg, store) && i < |calls|
    ensures |Play(cfg, canonical, store, calls)| == |calls|
    ensures var before, s := StoreBefore(cfg, canonical, store, calls, i), Play(cfg, canonical, store, calls)[i];
            && Clean(cfg, before) && Clean(cfg, s.store)
            && s == Assemble(cfg, canonical)(before, calls[i])
            && TraceDisciplined(cfg, calls[i], s)
            && OutcomeDisciplined(cfg, canonical, before, calls[i], s)
  {
    PlayedInTurn(cfg, canonical, store, calls, i);
    CallIsDisciplined(cfg, canonical, StoreBefore(cfg, canonical, store, calls, i), calls[i]);
  }

  lemma {:induction false} PlayLength(cfg: ToolConfig, canonical: Json -> string, store: Store, calls: seq<Call>)
    ensures |Play(cfg, canonical, store, calls)| == |calls|
    decreases |calls|
  {
    if calls != [] {
      PlayLength(cfg, canonical, Assemble(cfg, canonical)(store, calls[0]).store, calls[1..]);
    }
  }

  function Requests(trace: seq<Event>): nat {
    if trace == [] then 0 else (if trace[0].Requested? then 1 else 0) + Requests(trace[1..])
  }

  function Charges(trace: seq<Event>): nat {
    if trace == [] then 0 else (if trace[0].Charged? then 1 else 0) + Charges(trace[1..])
  }

  lemma {:induction false} NoRequests(trace: seq<Event>)
    requires forall i :: 0 <= i < |trace| ==> !trace[i].Requested?
    ensures Requests(trace) == 0
  {
    if trace != [] { NoRequests(trace[1..]); }
  }

  lemma {:induction false} CountsOfOne(e: Event, rest: seq<Event>)
    ensures Requests([e] + rest) == (if e.Requested? then 1 else 0) + Requests(rest)
    ensures Charges([e] + rest) == (if e.Charged? then 1 else 0) + Charges(rest)
  {
    assert ([e] + rest)[1..] == rest;
  }

  /** A disciplined call sends one request at most, and none it was not charged for. */
  lemma DisciplinedCounts(cfg: ToolConfig, call: Call, s: Step)
    requires TraceDisciplined(cfg, call, s)
    ensures Requests(s.trace) <= 1
    ensures cfg.limited ==> Requests(s.trace) <= Charges(s.trace)
  {
    if i :| 0 <= i < |s.trace| && s.trace[i].Requested? {
      var e := s.trace[i];
      CountsOfOne(e, []);
      CountsOfOne(Charged, [e]);
      assert s.trace == if cfg.limited then [Charged] + [e] else [e] + [];
    } else {
      NoRequests(s.trace);
    }
  }

  ghost function TotalRequests(steps: seq<Step>): nat {
    if steps == [] then 0 else Requests(steps[0].trace) + TotalRequests(steps[1..])
  }

  ghost function TotalCharges(steps: seq<Step>): nat {
    if steps == [] then 0 else Charges(steps[0].trace) + TotalCharges(steps[1..])
  }

  /** A metered tool never sends more requests than it was charged for, and no tool more than it had calls. */
  lemma {:induction false} RequestsArePaidFor(cfg: ToolConfig, canonical: Json -> string, store: Store, calls: seq<Call>)
    requires cfg.Accepted() && Clean(cfg, store)
    ensures var steps := Play(cfg, canonical, store, calls);
            && (cfg.limited ==> TotalRequests(steps) <= TotalCharges(steps))
            && TotalRequests(steps) <= |calls|
    decreases |calls|
  {
    if calls != [] {
      CallIsDisciplined(cfg, canonical, store, calls[0]);
      var s := Assemble(cfg, canonical)(store, calls[0]);
      DisciplinedCounts(cfg, calls[0], s);
      RequestsArePaidFor(cfg, canonical, s.store, calls[1..]);
      assert Play(cfg, canonical, store, calls)[1..] == Play(cfg, canonical, s.store, calls[1..]);
    }
  }

  // ---------------------------------------------------------------- why the build refuses what it refuses

  /** Every tool of a server that builds runs an accepted configuration. */
  lemma BuiltToolsAreAccepted(chain: Controls.Chain, surface: Gates.Surface, tool: string, declared: Option<set<string>>, limited: bool)
    requires Gates.Build(chain, surface).Some?
    ensures ConfigOf(Gates.Build(chain, surface).value, tool, declared, limited).Accepted()
  {
    var nodes := Controls.ParseInlineNodes(chain);
    Controls.KeyedIff(nodes, "cache", Controls.ReadCache);
    var g := Gates.Build(chain, surface).value;
    if tool in g.caches {
      assert tool in Controls.Keyed(nodes, "cache", Controls.ReadCache).value;
      var sn :| sn in nodes && sn.node.name == "cache" && sn.node.args == [tool];
    }
  }

  /** On a cached tool, the cache picks up a confirmation prompt exactly when the tool is also gated, which
      is the pairing the build refuses. */
  lemma PromptIsCachedIff(cfg: ToolConfig, canonical: Json -> string, call: Call)
    requires cfg.ttl.Some? && call.answer.None? && KeyOf(cfg.name, call, canonical).Some?
    requires !BlankArgument(cfg.fields, call.args)
    ensures var key := KeyOf(cfg.name, call, canonical).value;
            var s := Assemble(cfg, canonical)(map[], call);
            (key in s.store && s.store[key].result.prompt.Some?) <==> cfg.confirm.Some?
  {
    GatedIsSettled(cfg, map[], call);
    var key, t := KeyOf(cfg.name, call, canonical).value, Gated(cfg)(map[], call);
    assert Purged<ToolResult>(map[], call.now) == map[];
    assert Got<ToolResult>(map[], key, call.now) == (map[], None);
  }
}
