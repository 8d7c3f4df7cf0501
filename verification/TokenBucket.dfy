/** The durable token bucket of internal/mcpserver/ratelimitredis.go.

    The store runs one script atomically per charge, so a bucket shared by any number of pods is a
    sequence of script runs, each carrying the clock reading of the pod that issued it. Time is in
    seconds and tokens are exact reals. */
module TokenBucket {
  import opened Wrappers

  /** The parsed `rate-limit` node: how many calls, and the window in nanoseconds. */
  datatype RateConfig = RateConfig(count: int, window: int) {
    predicate Accepted() { count > 0 && window > 0 }
  }

  datatype Params = Params(capacity: real, refill: real, ttl: int) {
    predicate Valid() {
      && capacity >= 1.0
      && refill > 0.0
      && ttl as real * refill >= capacity
    }
  }

  const NANOSECOND := 1.0 / 1_000_000_000.0
  const BUCKET_TTL_FACTOR := 2.0
  const MIN_BUCKET_TTL := 60
  const REDIS_WAIT_POLL := 1.0

  function Ceil(x: real): (n: int)
    ensures n as real - 1.0 < x <= n as real
  {
    -(-x).Floor
  }

  function Min(x: real, y: real): real { if x <= y then x else y }
  function Max(x: real, y: real): real { if x >= y then x else y }

  function WindowSeconds(cfg: RateConfig): real { cfg.window as real * NANOSECOND }

  function NewBucket(cfg: RateConfig): Params
    requires cfg.Accepted()
  {
    var window := WindowSeconds(cfg);
    var ttl := Ceil(window * BUCKET_TTL_FACTOR);
    Params(cfg.count as real, cfg.count as real / window, if ttl < MIN_BUCKET_TTL then MIN_BUCKET_TTL else ttl)
  }

  /** Every accepted rate gives a bucket that refills fully in one window, and a key that outlives
      two of them. */
  lemma NewBucketOutlivesItsWindow(cfg: RateConfig)
    requires cfg.Accepted()
    ensures NewBucket(cfg).Valid()
    ensures NewBucket(cfg).refill * WindowSeconds(cfg) == NewBucket(cfg).capacity
    ensures NewBucket(cfg).capacity == cfg.count as real && WindowSeconds(cfg) * 1_000_000_000.0 == cfg.window as real
    ensures NewBucket(cfg).ttl as real >= 2.0 * WindowSeconds(cfg) && NewBucket(cfg).ttl >= 60
    ensures NewBucket(cfg).ttl == 60 || NewBucket(cfg).ttl as real - 1.0 < 2.0 * WindowSeconds(cfg)
  {
    var p, window := NewBucket(cfg), WindowSeconds(cfg);
    assert window > 0.0;
    DivideThenMultiply(cfg.count as real, window);
    assert p.ttl as real >= window * BUCKET_TTL_FACTOR;
    MultiplyMonotone(window, p.ttl as real, p.refill);
    calc {
      p.ttl as real * p.refill;
    >= window * p.refill;
    == p.refill * window;
    == p.capacity;
    }
  }

  lemma DivideThenMultiply(x: real, y: real)
    requires y > 0.0
    ensures x / y * y == x
    ensures x > 0.0 ==> x / y > 0.0
    ensures x >= 0.0 ==> x / y >= 0.0
  {
  }

  lemma MultiplyMonotone(x: real, y: real, factor: real)
    requires x <= y && factor >= 0.0
    ensures x * factor <= y * factor
  {
    assert (y - x) * factor >= 0.0;
  }

  // ---------------------------------------------------------------- the script

  /** The hash stored under one key. */
  datatype Fields = Fields(tokens: real, ts: real)

  datatype Reply = Reply(allowed: bool, retry: real)

  /** Tokens that `seconds` of refill bring back. */
  function Refill(p: Params, seconds: real): real { seconds * p.refill }

  lemma RefillAdds(p: Params, a: real, b: real)
    ensures Refill(p, a + b) == Refill(p, a) + Refill(p, b)
  {
  }

  /** Tokens available to a run at `now`: a clock behind `ts` refills nothing. */
  function Level(p: Params, f: Fields, now: real): real {
    if now > f.ts then Min(p.capacity, f.tokens + Refill(p, now - f.ts)) else f.tokens
  }

  function Spend(p: Params, level: real, ts: real): (Fields, Reply)
    requires p.refill > 0.0
  {
    if level >= 1.0 then (Fields(level - 1.0, ts), Reply(true, 0.0))
    else (Fields(level, ts), Reply(false, (1.0 - level) / p.refill))
  }

  /** One run of the script. A missing key is a full bucket stamped now. */
  function Script(p: Params, key: Option<Fields>, now: real): (Fields, Reply)
    requires p.refill > 0.0
  {
    match key
    case None => Spend(p, p.capacity, now)
    case Some(f) => Spend(p, Level(p, f, now), Max(f.ts, now))
  }

  ghost predicate Bounded(p: Params, key: Option<Fields>) {
    key.Some? ==> 0.0 <= key.value.tokens <= p.capacity
  }

  /** One stored key, rewritten in place by each run of the script. */
  class BucketKey {
    var state: Option<Fields>
    var expires: real

    constructor ()
      ensures state == None
    {
      state := None;
      expires := 0.0;
    }

    /** The script, line by line. `serverNow` is the store's own clock, which alone decides expiry. */
    method Run(p: Params, now: real, serverNow: real) returns (reply: Reply)
      requires p.Valid()
      modifies this
      ensures state == Some(Script(p, old(state), now).0) && reply == Script(p, old(state), now).1
      ensures expires == serverNow + p.ttl as real
    {
      var tokens, ts := p.capacity, now;
      if state.Some? {
        tokens, ts := state.value.tokens, state.value.ts;
      }
      if now > ts {
        tokens := Min(p.capacity, tokens + Refill(p, now - ts));
        ts := now;
      }
      var allowed, retry := false, 0.0;
      if tokens >= 1.0 {
        tokens := tokens - 1.0;
        allowed := true;
      } else {
        retry := (1.0 - tokens) / p.refill;
      }
      state := Some(Fields(tokens, ts));
      expires := serverNow + p.ttl as real;
      reply := Reply(allowed, retry);
    }

    /** The store drops a key whose expiry has passed. */
    method Expire(serverNow: real)
      modifies this`state
      ensures state == if serverNow >= expires then None else old(state)
    {
      if serverNow >= expires {
        state := None;
      }
    }

    /** A store that drops each key the instant it expires, and runs the script for every reading. */
    method Serve(p: Params, ticks: seq<Tick>) returns (replies: seq<Reply>)
      requires p.Valid() && Punctual(p, expires, ticks)
      modifies this
      ensures replies == ExpiringReplies(p, old(state), ticks)
    {
      replies := [];
      for i := 0 to |ticks|
        invariant Punctual(p, expires, ticks[i..])
        invariant replies + ExpiringReplies(p, state, ticks[i..]) == ExpiringReplies(p, old(state), ticks)
      {
        assert ticks[i..][1..] == ticks[i + 1..];
        Expire(ticks[i].server);
        var reply := Run(p, ticks[i].now, ticks[i].server);
        replies := replies + [reply];
      }
    }
  }

  // ---------------------------------------------------------------- runs of many pods

  function After(p: Params, key: Option<Fields>, clocks: seq<real>): Option<Fields>
    requires p.refill > 0.0
    decreases |clocks|
  {
    if clocks == [] then key else After(p, Some(Script(p, key, clocks[0]).0), clocks[1..])
  }

  function Replies(p: Params, key: Option<Fields>, clocks: seq<real>): seq<Reply>
    requires p.refill > 0.0
    decreases |clocks|
  {
    if clocks == [] then []
    else var (f, reply) := Script(p, key, clocks[0]); [reply] + Replies(p, Some(f), clocks[1..])
  }

  function Grants(replies: seq<Reply>): nat {
    if replies == [] then 0 else (if replies[0].allowed then 1 else 0) + Grants(replies[1..])
  }

  /** Refill lost to the capacity bound during one run. */
  function Spilled(p: Params, f: Fields, now: real): real {
    if now > f.ts then f.tokens + Refill(p, now - f.ts) - Level(p, f, now) else 0.0
  }

  function TotalSpilled(p: Params, f: Fields, clocks: seq<real>): real
    requires p.refill > 0.0
    decreases |clocks|
  {
    if clocks == [] then 0.0
    else Spilled(p, f, clocks[0]) + TotalSpilled(p, Script(p, Some(f), clocks[0]).0, clocks[1..])
  }

  lemma ScriptConserves(p: Params, f: Fields, now: real)
    requires p.Valid() && Bounded(p, Some(f))
    ensures var (g, reply) := Script(p, Some(f), now);
            && Bounded(p, Some(g))
            && g.ts == Max(f.ts, now)
            && Spilled(p, f, now) >= 0.0
            && g.tokens + (if reply.allowed then 1.0 else 0.0)
               == f.tokens + Refill(p, g.ts - f.ts) - Spilled(p, f, now)
            && (reply.allowed ==> reply.retry == 0.0)
            && (!reply.allowed ==> reply.retry > 0.0 && g.tokens == Level(p, f, now)
                                   && g.tokens + reply.retry * p.refill == 1.0)
  {
    if now > f.ts {
      MultiplyMonotone(0.0, now - f.ts, p.refill);
    }
    var level := Level(p, f, now);
    DivideThenMultiply(1.0 - level, p.refill);
  }

  /** Over any runs by any pods with any clocks, tokens are conserved exactly: what is left plus what
      was granted is what was there plus refill over the advance of `ts`, less what spilled. */
  lemma {:induction false} TokensConserved(p: Params, f: Fields, clocks: seq<real>)
    requires p.Valid() && Bounded(p, Some(f))
    ensures var end := After(p, Some(f), clocks);
            && end.Some?
            && Bounded(p, end)
            && end.value.ts >= f.ts
            && (forall i :: 0 <= i < |clocks| ==> end.value.ts >= clocks[i])
            && TotalSpilled(p, f, clocks) >= 0.0
            && end.value.tokens + Grants(Replies(p, Some(f), clocks)) as real
               == f.tokens + Refill(p, end.value.ts - f.ts) - TotalSpilled(p, f, clocks)
    decreases |clocks|
  {
    if clocks != [] {
      var (g, reply) := Script(p, Some(f), clocks[0]);
      ScriptConserves(p, f, clocks[0]);
      TokensConserved(p, g, clocks[1..]);
      var end, rest := After(p, Some(g), clocks[1..]).value, Replies(p, Some(g), clocks[1..]);
      assert ([reply] + rest)[1..] == rest;
      assert end.ts - f.ts == (end.ts - g.ts) + (g.ts - f.ts);
      RefillAdds(p, end.ts - g.ts, g.ts - f.ts);
      assert forall i :: 0 < i < |clocks| ==> clocks[i] == clocks[1..][i - 1];
    }
  }

  lemma {:induction false} RunsCompose(p: Params, key: Option<Fields>, a: seq<real>, b: seq<real>)
    requires p.refill > 0.0
    ensures After(p, key, a + b) == After(p, After(p, key, a), b)
    ensures Replies(p, key, a + b) == Replies(p, key, a) + Replies(p, After(p, key, a), b)
    ensures |Replies(p, key, a)| == |a|
    decreases |a|
  {
    if a == [] {
      assert a + b == b;
    } else {
      assert (a + b)[1..] == a[1..] + b;
      RunsCompose(p, Some(Script(p, key, a[0]).0), a[1..], b);
    }
  }

  /** The stored clock after some runs; before there is a key, the reading that will create it. */
  function Stamp(p: Params, key: Option<Fields>, clocks: seq<real>, i: nat): real
    requires p.refill > 0.0 && i <= |clocks|
  {
    match After(p, key, clocks[..i])
    case Some(f) => f.ts
    case None => if clocks == [] then 0.0 else clocks[0]
  }

  /** Between any two points of a run the store grants at most a full bucket plus the refill over the
      advance of the stored clock, however many pods charge it and however far their clocks lag. */
  lemma {:induction false} GrantsBoundedBetween(p: Params, key: Option<Fields>, clocks: seq<real>, i: nat, j: nat)
    requires p.Valid() && Bounded(p, key) && i <= j <= |clocks|
    ensures |Replies(p, key, clocks)| == |clocks|
    ensures Bounded(p, After(p, key, clocks[..i])) && Bounded(p, After(p, key, clocks[..j]))
    ensures Stamp(p, key, clocks, i) <= Stamp(p, key, clocks, j)
    ensures Grants(Replies(p, key, clocks)[i..j]) as real
            <= p.capacity + Refill(p, Stamp(p, key, clocks, j) - Stamp(p, key, clocks, i))
  {
    SegmentOfRun(p, key, clocks, i, j);
    if key.None? && i == 0 {
      FirstRunsBounded(p, clocks[..j]);
      assert clocks[0..j] == clocks[..j];
      assert j > 0 ==> clocks[..j][0] == clocks[0];
    } else {
      RunsReachBounded(p, key, clocks[..i]);
      TokensConserved(p, After(p, key, clocks[..i]).value, clocks[i..j]);
    }
  }

  lemma {:induction false} FirstRunsBounded(p: Params, clocks: seq<real>)
    requires p.Valid()
    ensures Bounded(p, After(p, None, clocks))
    ensures clocks == [] ==> Grants(Replies(p, None, clocks)) == 0
    ensures clocks != [] ==>
      var end := After(p, None, clocks);
      && end.Some? && clocks[0] <= end.value.ts
      && Grants(Replies(p, None, clocks)) as real <= p.capacity + Refill(p, end.value.ts - clocks[0])
  {
    if clocks != [] {
      var (f, reply) := Script(p, None, clocks[0]);
      TokensConserved(p, f, clocks[1..]);
      var rest := Replies(p, Some(f), clocks[1..]);
      assert ([reply] + rest)[1..] == rest;
    }
  }

  lemma {:induction false} SegmentOfRun(p: Params, key: Option<Fields>, clocks: seq<real>, i: nat, j: nat)
    requires p.refill > 0.0 && i <= j <= |clocks|
    ensures |Replies(p, key, clocks)| == |clocks|
    ensures After(p, key, clocks[..j]) == After(p, After(p, key, clocks[..i]), clocks[i..j])
    ensures Replies(p, key, clocks)[i..j] == Replies(p, After(p, key, clocks[..i]), clocks[i..j])
  {
    assert clocks[..j] == clocks[..i] + clocks[i..j];
    assert clocks == clocks[..j] + clocks[j..];
    RunsCompose(p, key, clocks[..i], clocks[i..j]);
    RunsCompose(p, key, clocks[..j], clocks[j..]);
    RunsCompose(p, After(p, key, clocks[..i]), clocks[i..j], []);
    RunsCompose(p, After(p, key, clocks[..j]), clocks[j..], []);
  }

  lemma {:induction false} RunsReachBounded(p: Params, key: Option<Fields>, clocks: seq<real>)
    requires p.Valid() && Bounded(p, key)
    requires key.None? ==> clocks != []
    ensures After(p, key, clocks).Some? && Bounded(p, After(p, key, clocks))
  {
    if key.None? {
      TokensConserved(p, Script(p, key, clocks[0]).0, clocks[1..]);
    } else {
      TokensConserved(p, key.value, clocks);
    }
  }

  // ---------------------------------------------------------------- key expiry

  /** A run that finds its key gone cannot tell exactly when the stored bucket was already full again
      and its clock does not lag. */
  lemma VanishingUnseenIff(p: Params, f: Fields, now: real)
    requires p.Valid() && Bounded(p, Some(f))
    ensures Script(p, None, now) == Script(p, Some(f), now)
            <==> now >= f.ts && f.tokens + Refill(p, now - f.ts) >= p.capacity
  {
    if now >= f.ts {
      MultiplyMonotone(0.0, now - f.ts, p.refill);
    }
    if now == f.ts {
      assert (now - f.ts) * p.refill == 0.0;
    }
  }

  /** One run: the clock reading its pod sent, the store's own clock, and whether the store had dropped
      the key by then. */
  datatype Tick = Tick(now: real, server: real, vanished: bool)

  function Clocks(ticks: seq<Tick>): seq<real> {
    seq(|ticks|, i requires 0 <= i < |ticks| => ticks[i].now)
  }

  function ExpiringReplies(p: Params, key: Option<Fields>, ticks: seq<Tick>): seq<Reply>
    requires p.refill > 0.0
    decreases |ticks|
  {
    if ticks == [] then []
    else
      var (f, reply) := Script(p, if ticks[0].vanished then None else key, ticks[0].now);
      [reply] + ExpiringReplies(p, Some(f), ticks[1..])
  }

  /** How far the pods' clocks may stand ahead of the store's; a negative bound means behind it. */
  datatype Drift = Drift(slowest: real, fastest: real) {
    function Skew(): real { fastest - slowest }
  }

  /** A run the store allows after one at `last` on its own clock: that clock never goes back, every pod
      keeps within the drift, and a key goes no sooner than `ttl` after the last run. */
  ghost predicate Legal(p: Params, d: Drift, last: real, ticks: seq<Tick>)
    decreases |ticks|
  {
    ticks == [] ||
    (&& last <= ticks[0].server
     && d.slowest <= ticks[0].now - ticks[0].server <= d.fastest
     && (ticks[0].vanished ==> last + p.ttl as real <= ticks[0].server)
     && Legal(p, d, ticks[0].server, ticks[1..]))
  }

  /** A key goes exactly when its expiry passes. */
  ghost predicate Punctual(p: Params, expires: real, ticks: seq<Tick>)
    decreases |ticks|
  {
    ticks == [] ||
    (&& (ticks[0].vanished <==> ticks[0].server >= expires)
     && Punctual(p, ticks[0].server + p.ttl as real, ticks[1..]))
  }

  lemma LongEnough(p: Params, room: real, gap: real)
    requires p.Valid() && room <= gap && Refill(p, room) >= p.capacity
    ensures gap > 0.0 && Refill(p, gap) >= p.capacity
  {
    MultiplyMonotone(room, gap, p.refill);
    if gap <= 0.0 { MultiplyMonotone(gap, 0.0, p.refill); }
  }

  /** What a pod stamped at most `fastest` ahead has refilled by a run no more than `slowest` behind. */
  lemma {:induction false} LegalTickUnseen(p: Params, d: Drift, f: Fields, last: real, tick: Tick)
    requires p.Valid() && Bounded(p, Some(f)) && f.ts <= last + d.fastest
    requires Refill(p, p.ttl as real - d.Skew()) >= p.capacity
    requires Legal(p, d, last, [tick])
    ensures Script(p, if tick.vanished then None else Some(f), tick.now) == Script(p, Some(f), tick.now)
  {
    if tick.vanished {
      LongEnough(p, p.ttl as real - d.Skew(), tick.now - f.ts);
      VanishingUnseenIff(p, f, tick.now);
    }
  }

  /** While the pods' clocks spread by no more than the ttl less a full refill, every decision and every
      retry is what a key that never expires would have given. */
  lemma {:induction false} ExpiryUnobservable(p: Params, d: Drift, f: Fields, last: real, ticks: seq<Tick>)
    requires p.Valid() && Bounded(p, Some(f)) && f.ts <= last + d.fastest && Legal(p, d, last, ticks)
    requires Refill(p, p.ttl as real - d.Skew()) >= p.capacity
    ensures ExpiringReplies(p, Some(f), ticks) == Replies(p, Some(f), Clocks(ticks))
    decreases |ticks|
  {
    if ticks != [] {
      assert [ticks[0]][1..] == [];
      LegalTickUnseen(p, d, f, last, ticks[0]);
      ScriptConserves(p, f, ticks[0].now);
      ExpiryUnobservable(p, d, Script(p, Some(f), ticks[0].now).0, ticks[0].server, ticks[1..]);
      assert Clocks(ticks)[1..] == Clocks(ticks[1..]);
    }
  }

  /** A run from the first use of a bucket, its key not there yet. */
  ghost predicate FirstUse(p: Params, d: Drift, ticks: seq<Tick>) {
    ticks != [] && Legal(p, d, ticks[0].server, ticks)
  }

  ghost predicate Unseen(p: Params, ticks: seq<Tick>)
    requires p.refill > 0.0
  {
    ExpiringReplies(p, None, ticks) == Replies(p, None, Clocks(ticks))
  }

  lemma FirstUseUnseen(p: Params, d: Drift, ticks: seq<Tick>)
    requires p.Valid() && FirstUse(p, d, ticks)
    requires Refill(p, p.ttl as real - d.Skew()) >= p.capacity
    ensures Unseen(p, ticks)
  {
    ExpiryUnobservable(p, d, Script(p, None, ticks[0].now).0, ticks[0].server, ticks[1..]);
    assert Clocks(ticks)[1..] == Clocks(ticks[1..]);
  }

  // ---------------------------------------------------------------- a spread too wide

  /** `n` runs at one instant, from pods that read one time. */
  function Burst(now: real, server: real, n: nat): seq<Tick> { seq(n, _ => Tick(now, server, false)) }

  /** The bucket is drained through the fastest clock and asked again through the slowest as soon as its
      key is gone. */
  function DrainThenAsk(p: Params, d: Drift, n: nat): seq<Tick> {
    Burst(d.fastest, 0.0, n) + AskAgain(p, d, n)
  }

  function AskAgain(p: Params, d: Drift, n: nat): seq<Tick> {
    var ttl := p.ttl as real;
    if n == 0 then [] else [Tick(ttl + d.slowest, ttl, true)] + Burst(ttl + d.slowest, ttl, n - 1)
  }

  lemma {:induction false} BurstIsLegal(p: Params, d: Drift, now: real, server: real, n: nat, rest: seq<Tick>)
    requires p.ttl > 0 && d.slowest <= now - server <= d.fastest
    requires Legal(p, d, server, rest) && Punctual(p, server + p.ttl as real, rest)
    ensures Legal(p, d, server, Burst(now, server, n) + rest) && Punctual(p, server + p.ttl as real, Burst(now, server, n) + rest)
  {
    if n == 0 {
      assert Burst(now, server, n) + rest == rest;
    } else {
      BurstIsLegal(p, d, now, server, n - 1, rest);
      assert (Burst(now, server, n) + rest)[1..] == Burst(now, server, n - 1) + rest;
    }
  }

  lemma {:induction false} DrainThenAskIsLegal(p: Params, d: Drift, n: nat)
    requires p.ttl > 0 && d.slowest <= d.fastest && n > 0
    ensures FirstUse(p, d, DrainThenAsk(p, d, n)) && Punctual(p, p.ttl as real, DrainThenAsk(p, d, n))
  {
    var ttl, later := p.ttl as real, Burst(p.ttl as real + d.slowest, p.ttl as real, n - 1);
    BurstIsLegal(p, d, ttl + d.slowest, ttl, n - 1, []);
    assert later + [] == later;
    assert AskAgain(p, d, n)[1..] == later;
    BurstIsLegal(p, d, d.fastest, 0.0, n, AskAgain(p, d, n));
  }

  /** A burst spends whole tokens, one a run. */
  lemma {:induction false} BurstSpends(p: Params, f: Fields, now: real, server: real, n: nat)
    requires p.Valid() && now <= f.ts && f.tokens >= n as real
    ensures var clocks := Clocks(Burst(now, server, n));
            && After(p, Some(f), clocks) == Some(Fields(f.tokens - n as real, f.ts))
            && Grants(Replies(p, Some(f), clocks)) == n
    decreases n
  {
    if n > 0 {
      BurstSpends(p, Fields(f.tokens - 1.0, f.ts), now, server, n - 1);
      assert Clocks(Burst(now, server, n))[1..] == Clocks(Burst(now, server, n - 1));
    }
  }

  /** While no key is dropped, an expiring bucket is an immortal one. */
  lemma {:induction false} UnexpiredPrefix(p: Params, key: Option<Fields>, ticks: seq<Tick>, rest: seq<Tick>)
    requires p.refill > 0.0 && forall i :: 0 <= i < |ticks| ==> !ticks[i].vanished
    ensures ExpiringReplies(p, key, ticks + rest)
            == Replies(p, key, Clocks(ticks)) + ExpiringReplies(p, After(p, key, Clocks(ticks)), rest)
    decreases |ticks|
  {
    if ticks == [] {
      assert ticks + rest == rest;
    } else {
      assert (ticks + rest)[1..] == ticks[1..] + rest;
      assert Clocks(ticks)[1..] == Clocks(ticks[1..]);
      UnexpiredPrefix(p, Some(Script(p, key, ticks[0].now).0), ticks[1..], rest);
    }
  }

  lemma {:induction false} StampStaysWithin(p: Params, f: Fields, clocks: seq<real>, latest: real)
    requires p.refill > 0.0 && f.ts <= latest && forall i :: 0 <= i < |clocks| ==> clocks[i] <= latest
    ensures After(p, Some(f), clocks).Some? && After(p, Some(f), clocks).value.ts <= latest
    decreases |clocks|
  {
    if clocks != [] {
      StampStaysWithin(p, Script(p, Some(f), clocks[0]).0, clocks[1..], latest);
    }
  }

  /** The immortal bucket has not refilled. */
  lemma {:induction false} ImmortalFallsShort(p: Params, d: Drift, n: nat)
    requires p.Valid() && n as real == p.capacity && Refill(p, p.ttl as real - d.Skew()) < p.capacity
    ensures Grants(Replies(p, Some(Fields(0.0, d.fastest)), Clocks(AskAgain(p, d, n)))) < n
  {
    var drained, clocks := Fields(0.0, d.fastest), Clocks(AskAgain(p, d, n));
    var now := p.ttl as real + d.slowest;
    TokensConserved(p, drained, clocks);
    StampStaysWithin(p, drained, clocks, Max(d.fastest, now));
    var end := After(p, Some(drained), clocks).value;
    MultiplyMonotone(end.ts - d.fastest, Max(0.0, now - d.fastest), p.refill);
    assert now - d.fastest == p.ttl as real - d.Skew();
  }

  /** The one that vanished is full. */
  lemma {:induction false} NewKeyGrantsAll(p: Params, d: Drift, n: nat, key: Option<Fields>)
    requires p.Valid() && n as real == p.capacity
    ensures Grants(ExpiringReplies(p, key, AskAgain(p, d, n))) == n
  {
    var ttl := p.ttl as real;
    var later, f := Burst(ttl + d.slowest, ttl, n - 1), Script(p, None, ttl + d.slowest).0;
    assert AskAgain(p, d, n)[1..] == later == later + [];
    UnexpiredPrefix(p, Some(f), later, []);
    BurstSpends(p, f, ttl + d.slowest, ttl, n - 1);
    var first, others := Script(p, None, ttl + d.slowest).1, ExpiringReplies(p, Some(f), later);
    assert others == Replies(p, Some(f), Clocks(later));
    assert ([first] + others)[1..] == others;
  }

  lemma {:induction false} DrainedByTheBurst(p: Params, d: Drift, n: nat)
    requires p.Valid() && n as real == p.capacity
    ensures After(p, None, Clocks(Burst(d.fastest, 0.0, n))) == Some(Fields(0.0, d.fastest))
  {
    BurstSpends(p, Fields(p.capacity - 1.0, d.fastest), d.fastest, 0.0, n - 1);
    assert Clocks(Burst(d.fastest, 0.0, n))[1..] == Clocks(Burst(d.fastest, 0.0, n - 1));
  }

  /** A wider spread is seen: every key lives out its ttl, and still the run that an immortal bucket
      would deny is granted. */
  lemma {:induction false} WideSpreadSeesExpiry(p: Params, d: Drift, n: nat)
    requires p.Valid() && n as real == p.capacity && d.slowest <= d.fastest
    requires Refill(p, p.ttl as real - d.Skew()) < p.capacity
    ensures p.ttl > 0 && FirstUse(p, d, DrainThenAsk(p, d, n)) && Punctual(p, p.ttl as real, DrainThenAsk(p, d, n))
    ensures !Unseen(p, DrainThenAsk(p, d, n))
  {
    if p.ttl <= 0 { MultiplyMonotone(p.ttl as real, 0.0, p.refill); }
    DrainThenAskIsLegal(p, d, n);
    var drain, ask := Burst(d.fastest, 0.0, n), AskAgain(p, d, n);
    var key := Some(Fields(0.0, d.fastest));
    DrainedByTheBurst(p, d, n);
    UnexpiredPrefix(p, None, drain, ask);
    assert Clocks(drain + ask) == Clocks(drain) + Clocks(ask);
    RunsCompose(p, None, Clocks(drain), Clocks(ask));
    NewKeyGrantsAll(p, d, n, key);
    ImmortalFallsShort(p, d, n);
    if Unseen(p, drain + ask) {
      SameSuffix(Replies(p, None, Clocks(drain)), ExpiringReplies(p, key, ask), Replies(p, key, Clocks(ask)));
      assert false;
    }
  }

  lemma SameSuffix(a: seq<Reply>, b: seq<Reply>, c: seq<Reply>)
    requires a + b == a + c
    ensures b == c
  {
    assert b == (a + b)[|a|..] == (a + c)[|a|..] == c;
  }

  /** Key expiry cannot be observed, in any run any pods can make from a bucket's first use, exactly when
      the spread of their clocks leaves room in the ttl for one whole window. A store that drops keys the
      instant they expire is enough to observe it otherwise. */
  lemma ExpiryUnobservableIff(cfg: RateConfig, d: Drift)
    requires cfg.Accepted() && d.slowest <= d.fastest
    ensures var p := NewBucket(cfg);
            && p.refill > 0.0
            && ((forall ticks: seq<Tick> :: FirstUse(p, d, ticks) ==> Unseen(p, ticks))
                <==> d.Skew() <= p.ttl as real - WindowSeconds(cfg))
            && ((forall ticks: seq<Tick> :: FirstUse(p, d, ticks) && Punctual(p, ticks[0].server + p.ttl as real, ticks) ==> Unseen(p, ticks))
                <==> d.Skew() <= p.ttl as real - WindowSeconds(cfg))
  {
    var p, room := NewBucket(cfg), NewBucket(cfg).ttl as real - d.Skew();
    NewBucketOutlivesItsWindow(cfg);
    RefillsWithinIff(p, WindowSeconds(cfg), room);
    if WindowSeconds(cfg) <= room {
      forall ticks: seq<Tick> | FirstUse(p, d, ticks) ensures Unseen(p, ticks) { FirstUseUnseen(p, d, ticks); }
    } else {
      WideSpreadSeesExpiry(p, d, cfg.count);
    }
  }

  lemma RefillsWithinIff(p: Params, window: real, room: real)
    requires p.Valid() && p.refill * window == p.capacity
    ensures Refill(p, room) >= p.capacity <==> window <= room
  {
    if window <= room { MultiplyMonotone(window, room, p.refill); } else { assert (window - room) * p.refill > 0.0; }
  }
}
