/** The wrapper half of internal/mcpserver/cache.go. A call looks its key up, runs the wrapped handler
    unlocked on a miss, and stores a success under the instant the call started, so any number of
    calls interleave between their two locked sections. */
module CachedHandler {
  import opened Wrappers
  import opened ResponseCache

  /** The raw arguments of a call: no bytes, bytes that do not decode, or a decoded JSON value. */
  datatype Arguments<J> = Absent | Undecodable | Decoded(value: J)

  /** `cacheKey`: the tool name, a NUL, and the canonical re-encoding of the decoded arguments. */
  function CacheKey<J>(name: string, args: Arguments<J>, canonical: J -> string): Option<string> {
    match args
    case Absent => Some(name + [0 as char] + "{}")
    case Undecodable => None
    case Decoded(value) => Some(name + [0 as char] + canonical(value))
  }

  /** Two calls of one tool share a key exactly when both decode to one value, absent arguments counting
      as the empty object. */
  lemma SameKeyIff<J>(name: string, a: Arguments<J>, b: Arguments<J>, canonical: J -> string, empty: J)
    requires forall x: J, y: J {:trigger canonical(x), canonical(y)} :: canonical(x) == canonical(y) ==> x == y
    requires canonical(empty) == "{}"
    requires !a.Undecodable? && !b.Undecodable?
    ensures CacheKey(name, a, canonical) == CacheKey(name, b, canonical)
            <==> (if a.Absent? then empty else a.value) == (if b.Absent? then empty else b.value)
  {
    var prefix := name + [0 as char];
    var x := if a.Absent? then empty else a.value;
    var y := if b.Absent? then empty else b.value;
    assert CacheKey(name, a, canonical).value == prefix + canonical(x);
    assert CacheKey(name, b, canonical).value == prefix + canonical(y);
    assert (prefix + canonical(x))[|prefix|..] == canonical(x);
    assert (prefix + canonical(y))[|prefix|..] == canonical(y);
  }

  /** What the wrapped handler gives back: a result to keep, or anything else. */
  datatype Reply<R> = Success(result: R) | Failure

  datatype Flight = Flight(key: Option<string>, started: Instant)

  /** A success the wrapped handler gave, and the call it gave it to. */
  datatype Answer<R> = Answer(key: string, started: Instant, result: R)

  datatype Returned<R> = Returned(flight: Flight, reply: Reply<R>, hit: bool)

  /** Calls are known by identifiers of their own: one that is neither in flight nor replied to is new. */
  datatype System<R> = System(entries: Entries<R>, flights: map<nat, Flight>, answers: seq<Answer<R>>,
                              replied: map<nat, Returned<R>>)

  datatype Action<R> = Begin(id: nat, key: Option<string>, now: Instant) | Complete(id: nat, reply: Reply<R>)

  /** What the first locked section finds: the entries it leaves, and a hit or nothing. */
  function LookedUp<R>(entries: Entries<R>, key: Option<string>, now: Instant): (Entries<R>, Option<R>) {
    if key.None? then (entries, None) else Got(entries, key.value, now)
  }

  ghost predicate Begins<R>(s: System<R>, id: nat, key: Option<string>, now: Instant, t: System<R>) {
    var flight := Flight(key, now);
    && id !in s.flights && id !in s.replied
    && var (entries, hit) := LookedUp(s.entries, key, now);
       if hit.Some? then
         t == s.(entries := entries, replied := s.replied[id := Returned(flight, Success(hit.value), true)])
       else
         t == s.(entries := entries, flights := s.flights[id := flight])
  }

  ghost predicate Completes<R>(ttl: nat, s: System<R>, id: nat, reply: Reply<R>, t: System<R>) {
    && id in s.flights
    && var flight := s.flights[id];
       && t.flights == s.flights - {id}
       && t.replied == s.replied[id := Returned(flight, reply, false)]
       && if flight.key.Some? && reply.Success? then
            && t.answers == s.answers + [Answer(flight.key.value, flight.started, reply.result)]
            && Puts(s.entries, flight.key.value, Entry(reply.result, flight.started + ttl), flight.started, t.entries)
          else t.answers == s.answers && t.entries == s.entries
  }

  ghost predicate Next<R>(ttl: nat, s: System<R>, a: Action<R>, t: System<R>) {
    match a
    case Begin(id, key, now) => Begins(s, id, key, now, t)
    case Complete(id, reply) => Completes(ttl, s, id, reply, t)
  }

  ghost predicate StepAt<R>(ttl: nat, states: seq<System<R>>, actions: seq<Action<R>>, i: nat)
    requires i < |actions| < |states|
  {
    Next(ttl, states[i], actions[i], states[i + 1])
  }

  ghost predicate Run<R>(ttl: nat, states: seq<System<R>>, actions: seq<Action<R>>) {
    && |states| == |actions| + 1
    && states[0] == System(map[], map[], [], map[])
    && forall i :: 0 <= i < |actions| ==> StepAt(ttl, states, actions, i)
  }

  /** The two locked sections of the wrapper, on the cache object. */
  class CachedTool<R> {
    const cache: Cache<R>

    constructor (cache: Cache<R>)
      ensures this.cache == cache
    {
      this.cache := cache;
    }

    /** Up to the call of the wrapped handler: a hit, or nothing and the call goes on. */
    method Lookup(key: Option<string>, now: Instant) returns (hit: Option<R>)
      requires cache.Valid()
      modifies cache
      ensures cache.Valid()
      ensures (cache.entries, hit) == LookedUp(old(cache.entries), key, now)
    {
      hit := None;
      if key.Some? {
        hit := cache.Get(key.value, now);
      }
    }

    /** After it: only a success under a computable key is stored, stamped with the call's start. */
    method Store(flight: Flight, reply: Reply<R>)
      requires cache.Valid()
      modifies cache
      ensures cache.Valid()
      ensures if flight.key.Some? && reply.Success?
              then Puts(old(cache.entries), flight.key.value, Entry(reply.result, flight.started + cache.ttl),
                        flight.started, cache.entries)
              else cache.entries == old(cache.entries)
    {
      if flight.key.Some? && reply.Success? {
        cache.Put(flight.key.value, reply.result, flight.started);
      }
    }
  }

  /** Every entry is an answer the wrapped handler gave under its key, one window before it expires. */
  ghost predicate EntriesAnswered<R>(ttl: nat, s: System<R>) {
    forall k :: k in s.entries ==>
      exists a :: a in s.answers && a.key == k && a.result == s.entries[k].result && s.entries[k].expires == a.started + ttl
  }

  /** A return is the call's own reply, or an answer to a call with its key that started within the window. */
  ghost predicate Justified<R>(ttl: nat, answers: seq<Answer<R>>, r: Returned<R>) {
    r.hit ==>
      && r.flight.key.Some? && r.reply.Success?
      && exists a :: a in answers && a.key == r.flight.key.value && a.result == r.reply.result
                     && r.flight.started < a.started + ttl
  }

  ghost predicate Sound<R>(ttl: nat, s: System<R>) {
    && EntriesAnswered(ttl, s)
    && (forall id :: id in s.replied ==> Justified(ttl, s.answers, s.replied[id]))
  }

  lemma NextSound<R>(ttl: nat, s: System<R>, a: Action<R>, t: System<R>)
    requires Sound(ttl, s) && Next(ttl, s, a, t)
    ensures Sound(ttl, t)
  {
    match a
    case Begin(id, key, now) => BeginSound(ttl, s, id, key, now, t);
    case Complete(id, reply) => CompleteSound(ttl, s, id, reply, t);
  }

  lemma BeginSound<R>(ttl: nat, s: System<R>, id: nat, key: Option<string>, now: Instant, t: System<R>)
    requires Sound(ttl, s) && Begins(s, id, key, now, t)
    ensures Sound(ttl, t)
  {
    assert forall k :: k in t.entries ==> k in s.entries && t.entries[k] == s.entries[k];
    assert EntriesAnswered(ttl, t);
    var (entries, hit) := LookedUp(s.entries, key, now);
    if hit.Some? {
      HitJustified(ttl, s, key, now);
    }
  }

  lemma HitJustified<R>(ttl: nat, s: System<R>, key: Option<string>, now: Instant)
    requires EntriesAnswered(ttl, s) && LookedUp(s.entries, key, now).1.Some?
    ensures Justified(ttl, s.answers, Returned(Flight(key, now), Success(LookedUp(s.entries, key, now).1.value), true))
  {
    assert key.value in s.entries && now < s.entries[key.value].expires;
  }

  lemma CompleteSound<R>(ttl: nat, s: System<R>, id: nat, reply: Reply<R>, t: System<R>)
    requires Sound(ttl, s) && Completes(ttl, s, id, reply, t)
    ensures Sound(ttl, t)
  {
    var flight := s.flights[id];
    if flight.key.Some? && reply.Success? {
      StoreAnswered(ttl, s, flight, reply.result, t);
    }
    forall other | other in t.replied ensures Justified(ttl, t.answers, t.replied[other]) {
      if other != id { StaysJustified(ttl, s.answers, t.answers, s.replied[other]); }
    }
  }

  lemma StaysJustified<R>(ttl: nat, answers: seq<Answer<R>>, more: seq<Answer<R>>, r: Returned<R>)
    requires Justified(ttl, answers, r) && answers <= more
    ensures Justified(ttl, more, r)
  {
  }

  lemma StoreAnswered<R>(ttl: nat, s: System<R>, flight: Flight, result: R, t: System<R>)
    requires EntriesAnswered(ttl, s) && flight.key.Some?
    requires t.answers == s.answers + [Answer(flight.key.value, flight.started, result)]
    requires Puts(s.entries, flight.key.value, Entry(result, flight.started + ttl), flight.started, t.entries)
    ensures EntriesAnswered(ttl, t)
  {
    forall k | k in t.entries
      ensures exists a :: a in t.answers && a.key == k && a.result == t.entries[k].result && t.entries[k].expires == a.started + ttl
    {
      if k == flight.key.value {
        assert Answer(k, flight.started, result) in t.answers;
      } else {
        assert k in s.entries && t.entries[k] == s.entries[k];
        var a :| a in s.answers && a.key == k && a.result == s.entries[k].result && s.entries[k].expires == a.started + ttl;
        assert a in t.answers;
      }
    }
  }

  /** Under every interleaving the cached handler answers with the call's own reply or with one the
      wrapped handler gave the same key to a call that started less than a window earlier. */
  lemma {:induction false} CachedAnswersAreFresh<R>(ttl: nat, states: seq<System<R>>, actions: seq<Action<R>>, n: nat)
    requires Run(ttl, states, actions) && n <= |actions|
    ensures Sound(ttl, states[n])
  {
    if n > 0 {
      CachedAnswersAreFresh(ttl, states, actions, n - 1);
      assert StepAt(ttl, states, actions, n - 1);
      NextSound(ttl, states[n - 1], actions[n - 1], states[n]);
    }
  }

  /** The step that runs the wrapped handler: a call begins and misses. */
  ghost predicate Forwards<R>(s: System<R>, a: Action<R>, id: nat) {
    a.Begin? && a.id == id && LookedUp(s.entries, a.key, a.now).1.None?
  }

  ghost function TimesForwarded<R>(states: seq<System<R>>, actions: seq<Action<R>>, n: nat, id: nat): nat
    requires n <= |actions| <= |states|
  {
    if n == 0 then 0
    else TimesForwarded(states, actions, n - 1, id) + if Forwards(states[n - 1], actions[n - 1], id) then 1 else 0
  }

  ghost predicate Accounted<R>(s: System<R>, id: nat, times: nat) {
    && !(id in s.flights && id in s.replied)
    && (id in s.flights ==> times == 1)
    && (id in s.replied ==> times == if s.replied[id].hit then 0 else 1)
    && (id !in s.flights && id !in s.replied ==> times == 0)
  }

  lemma NextAccounts<R>(ttl: nat, s: System<R>, a: Action<R>, t: System<R>, id: nat, times: nat)
    requires Next(ttl, s, a, t) && Accounted(s, id, times)
    ensures Accounted(t, id, times + if Forwards(s, a, id) then 1 else 0)
  {
    match a
    case Begin(_, key, now) => assert Begins(s, a.id, key, now, t);
    case Complete(_, reply) => assert t.flights == s.flights - {a.id};
  }

  /** Over any sequence of actions a call runs the wrapped handler once, and then is in flight or was given
      its own reply, or not at all, when a hit answered it: the cached handler makes no call the plain one
      would not. */
  lemma {:induction false} ForwardedOnceUnlessHit<R>(ttl: nat, states: seq<System<R>>, actions: seq<Action<R>>, n: nat, id: nat)
    requires Run(ttl, states, actions) && n <= |actions|
    ensures Accounted(states[n], id, TimesForwarded(states, actions, n, id))
  {
    if n > 0 {
      ForwardedOnceUnlessHit(ttl, states, actions, n - 1, id);
      assert StepAt(ttl, states, actions, n - 1);
      NextAccounts(ttl, states[n - 1], actions[n - 1], states[n], id, TimesForwarded(states, actions, n - 1, id));
    }
  }

  /** The wrapped handler answers every keyed call the way `plain` does. */
  ghost predicate Constant<R>(states: seq<System<R>>, actions: seq<Action<R>>, plain: string -> Reply<R>)
    requires |states| == |actions| + 1
  {
    forall i {:trigger actions[i]} :: 0 <= i < |actions| && actions[i].Complete? && actions[i].id in states[i].flights ==>
      var flight := states[i].flights[actions[i].id];
      flight.key.Some? ==> actions[i].reply == plain(flight.key.value)
  }

  ghost predicate Agrees<R>(s: System<R>, plain: string -> Reply<R>) {
    && (forall a :: a in s.answers ==> plain(a.key) == Success(a.result))
    && (forall id :: id in s.replied && s.replied[id].flight.key.Some? ==>
         s.replied[id].reply == plain(s.replied[id].flight.key.value))
  }

  /** Over a handler whose answer depends only on the key, the cached handler returns exactly what the
      plain one would, successes and failures alike. */
  lemma {:induction false} CachedRefinesPlain<R>(ttl: nat, states: seq<System<R>>, actions: seq<Action<R>>,
                                                 plain: string -> Reply<R>, n: nat)
    requires Run(ttl, states, actions) && Constant(states, actions, plain) && n <= |actions|
    ensures Agrees(states[n], plain)
  {
    if n > 0 {
      CachedRefinesPlain(ttl, states, actions, plain, n - 1);
      CachedAnswersAreFresh(ttl, states, actions, n);
      var s, a, t := states[n - 1], actions[n - 1], states[n];
      assert StepAt(ttl, states, actions, n - 1);
      if a.Begin? {
        assert t.answers == s.answers;
      }
    }
  }

  // ---------------------------------------------------------------- a run as a history of its cache

  /** What a step does to the cache: a lookup, a store, or nothing. */
  function OpOf<R>(s: System<R>, a: Action<R>): Op<R> {
    match a
    case Begin(_, key, now) => if key.Some? then GetOp(key.value, now) else Idle
    case Complete(id, reply) =>
      if id in s.flights && s.flights[id].key.Some? && reply.Success?
      then PutOp(s.flights[id].key.value, reply.result, s.flights[id].started) else Idle
  }

  function Ops<R>(states: seq<System<R>>, actions: seq<Action<R>>): (ops: seq<Op<R>>)
    requires |actions| <= |states|
    ensures |ops| == |actions|
  {
    seq(|actions|, i requires 0 <= i < |actions| => OpOf(states[i], actions[i]))
  }

  function Caches<R>(states: seq<System<R>>): (caches: seq<Entries<R>>)
    ensures |caches| == |states|
  {
    seq(|states|, i requires 0 <= i < |states| => states[i].entries)
  }

  lemma StepIsOp<R>(ttl: nat, s: System<R>, a: Action<R>, t: System<R>)
    requires Next(ttl, s, a, t)
    ensures Steps(ttl, s.entries, OpOf(s, a), t.entries)
  {
  }

  lemma RunIsHistory<R>(ttl: nat, states: seq<System<R>>, actions: seq<Action<R>>)
    requires Run(ttl, states, actions)
    ensures History(ttl, Caches(states), Ops(states, actions)) && Caches(states)[0] == map[]
  {
    forall i | 0 <= i < |actions| ensures ResponseCache.StepAt(ttl, Caches(states), Ops(states, actions), i) {
      assert StepAt(ttl, states, actions, i);
      StepIsOp(ttl, states[i], actions[i], states[i + 1]);
    }
  }

  /** A call that begins inside the window of the last answer stored under its key is answered with it and
      goes no further, unless 255 other keys were stored in between. */
  lemma {:induction false} RepeatIsAnswered<R>(ttl: nat, states: seq<System<R>>, actions: seq<Action<R>>, i: nat, n: nat, key: string)
    requires ttl > 0 && Run(ttl, states, actions) && i < n < |actions|
    requires actions[n].Begin? && actions[n].key == Some(key)
    requires var ops := Ops(states, actions);
             && PutTimesIncrease(ops) && PutsKey(ops[i], key) && LeavesAlone(ops, i + 1, n, key, ops[i].now + ttl)
             && actions[n].now < ops[i].now + ttl && |PutKeys(ops, i + 1, n) - {key}| < 255
    ensures var id, t := actions[n].id, states[n + 1];
            && id !in t.flights && id in t.replied && t.replied[id].reply == Success(Ops(states, actions)[i].result)
  {
    RunIsHistory(ttl, states, actions);
    LastPutIsHit(ttl, Caches(states), Ops(states, actions), i, n, key, actions[n].now);
    assert StepAt(ttl, states, actions, n);
  }

  /** One that begins when every answer stored under its key so far is a window old, or none is, goes on
      to the wrapped handler. */
  lemma StaleIsForwarded<R>(ttl: nat, states: seq<System<R>>, actions: seq<Action<R>>, n: nat)
    requires Run(ttl, states, actions) && n < |actions| && actions[n].Begin?
    requires actions[n].key.Some? ==>
      forall j :: 0 <= j < n && PutsKey(Ops(states, actions)[j], actions[n].key.value) ==> Ops(states, actions)[j].now + ttl <= actions[n].now
    ensures actions[n].id in states[n + 1].flights
  {
    RunIsHistory(ttl, states, actions);
    assert StepAt(ttl, states, actions, n);
    var a := actions[n];
    if a.key.Some? && Got(states[n].entries, a.key.value, a.now).1.Some? {
      var j := HitIsLastPut(ttl, Caches(states), Ops(states, actions), n, a.key.value, a.now);
    }
  }
}
