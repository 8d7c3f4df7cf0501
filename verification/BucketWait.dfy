/** The blocking half of internal/mcpserver/ratelimitredis.go: charge, and while denied, sleep out a
    projected refill that still fits inside the caller's deadline. A context whose deadline has passed
    ends the wait, whether the sleep notices or the next charge does. */
module BucketWait {
  import opened Wrappers
  import opened TokenBucket

  /** What surrounds one attempt: whether the store answers, the other pods' runs that land on the key
      first, and how late the attempt starts, a sleeping timer firing late included. */
  datatype Attempt = Attempt(up: bool, others: seq<real>, late: real)

  datatype Outcome = Granted | Refused | Expired | Unreachable | Pending

  datatype Charge = Charge(at: real, reply: Reply)

  datatype Sleep = Sleep(from: real, until: real)

  /** Everything a `Wait` did: its own runs and sleeps, the key it left, and the clock it returned at. */
  datatype WaitLog = WaitLog(outcome: Outcome, runs: seq<Charge>, sleeps: seq<Sleep>, key: Option<Fields>, end: real)

  predicate PastDeadline(deadline: Option<real>, instant: real) {
    deadline.Some? && instant > deadline.value
  }

  /** `Wait` over a finite stretch of the environment: `Pending` when the stretch ends first. */
  function WaitFrom(p: Params, key: Option<Fields>, now: real, deadline: Option<real>, env: seq<Attempt>,
                    runs: seq<Charge>, sleeps: seq<Sleep>): WaitLog
    requires p.refill > 0.0
    decreases |env|
  {
    if env == [] then WaitLog(Pending, runs, sleeps, key, now)
    else
      var at := now + env[0].late;
      var shared := After(p, key, env[0].others);
      if PastDeadline(deadline, at) then WaitLog(Expired, runs, sleeps, shared, at)
      else if !env[0].up then WaitLog(Unreachable, runs, sleeps, shared, at)
      else
        var (f, reply) := Script(p, shared, at);
        var more := runs + [Charge(at, reply)];
        if reply.allowed then WaitLog(Granted, more, sleeps, Some(f), at)
        else if PastDeadline(deadline, at + reply.retry) then WaitLog(Refused, more, sleeps, Some(f), at)
        else
          var until := at + Min(reply.retry, REDIS_WAIT_POLL);
          WaitFrom(p, Some(f), until, deadline, env[1..], more, sleeps + [Sleep(at, until)])
  }

  class RedisBucket {
    const params: Params
    const key: BucketKey

    constructor (params: Params, key: BucketKey)
      ensures this.params == params && this.key == key
    {
      this.params := params;
      this.key := key;
    }

    /** Other pods' runs, in the order the store serialised them. */
    method OthersRun(clocks: seq<real>)
      requires params.Valid()
      modifies key
      ensures key.state == After(params, old(key.state), clocks)
    {
      var i := 0;
      while i < |clocks|
        invariant 0 <= i <= |clocks|
        invariant After(params, key.state, clocks[i..]) == After(params, old(key.state), clocks)
      {
        assert clocks[i..][1..] == clocks[i + 1..];
        var _ := key.Run(params, clocks[i], clocks[i]);
        i := i + 1;
      }
    }

    method Wait(start: real, deadline: Option<real>, env: seq<Attempt>) returns (log: WaitLog)
      requires params.Valid()
      modifies key
      ensures log == WaitFrom(params, old(key.state), start, deadline, env, [], [])
      ensures key.state == log.key
    {
      var now, i := start, 0;
      var runs: seq<Charge>, sleeps: seq<Sleep> := [], [];
      while i < |env|
        invariant 0 <= i <= |env|
        invariant WaitFrom(params, key.state, now, deadline, env[i..], runs, sleeps)
               == WaitFrom(params, old(key.state), start, deadline, env, [], [])
      {
        now := now + env[i].late;
        OthersRun(env[i].others);
        if PastDeadline(deadline, now) {
          return WaitLog(Expired, runs, sleeps, key.state, now);
        }
        if !env[i].up {
          return WaitLog(Unreachable, runs, sleeps, key.state, now);
        }
        var reply := key.Run(params, now, now);
        runs := runs + [Charge(now, reply)];
        if reply.allowed {
          return WaitLog(Granted, runs, sleeps, key.state, now);
        }
        if PastDeadline(deadline, now + reply.retry) {
          return WaitLog(Refused, runs, sleeps, key.state, now);
        }
        var until := now + Min(reply.retry, REDIS_WAIT_POLL);
        sleeps := sleeps + [Sleep(now, until)];
        now := until;
        assert env[i..][1..] == env[i + 1..];
        i := i + 1;
      }
      log := WaitLog(Pending, runs, sleeps, key.state, now);
    }
  }

  // ---------------------------------------------------------------- any contention

  ghost predicate AllDenied(runs: seq<Charge>) {
    forall i :: 0 <= i < |runs| ==> !runs[i].reply.allowed
  }

  ghost predicate InTime(runs: seq<Charge>, deadline: Option<real>) {
    deadline.Some? ==> forall i :: 0 <= i < |runs| ==> runs[i].at <= deadline.value
  }

  /** Sleeps move forward, last at most one poll, and end inside the deadline. */
  ghost predicate SleepsFit(sleeps: seq<Sleep>, deadline: Option<real>) {
    forall i :: 0 <= i < |sleeps| ==>
      && sleeps[i].from < sleeps[i].until <= sleeps[i].from + REDIS_WAIT_POLL
      && (deadline.Some? ==> sleeps[i].until <= deadline.value)
  }

  ghost predicate AllUp(env: seq<Attempt>) {
    forall i :: 0 <= i < |env| ==> env[i].up
  }

  ghost predicate NoneLate(env: seq<Attempt>) {
    forall i :: 0 <= i < |env| ==> env[i].late <= 0.0
  }

  /** Each denied run is slept off for its own retry, or for one second of a longer one. */
  ghost predicate Paced(runs: seq<Charge>, sleeps: seq<Sleep>) {
    && |sleeps| <= |runs|
    && forall i :: 0 <= i < |sleeps| ==> SleptOff(runs[i], sleeps[i])
  }

  predicate SleptOff(run: Charge, s: Sleep) {
    s.from == run.at && s.until == run.at + (if run.reply.retry > 1.0 then 1.0 else run.reply.retry)
  }

  /** How a wait ended, against what it did. */
  ghost predicate Justified(log: WaitLog, deadline: Option<real>) {
    var n := |log.runs|;
    match log.outcome
    case Granted => n > 0 && AllDenied(log.runs[..n - 1]) && log.runs[n - 1].reply.allowed && log.runs[n - 1].at == log.end
                    && (deadline.Some? ==> log.end <= deadline.value)
    case Refused => n > 0 && AllDenied(log.runs) && log.runs[n - 1].at == log.end
                    && deadline.Some? && log.end + log.runs[n - 1].reply.retry > deadline.value
    case Expired => AllDenied(log.runs) && deadline.Some? && log.end > deadline.value
    case _ => AllDenied(log.runs)
  }

  /** Whatever other pods do meanwhile, a wait ends granted exactly when its last run was allowed, every
      earlier run having been denied; refused, when the refill its last run projected is past the
      deadline; expired, when an attempt started after it. No run was charged past the deadline, so no
      grant is late, and no sleep was due to end past it. */
  lemma {:induction false} WaitIsSound(p: Params, key: Option<Fields>, now: real, deadline: Option<real>, env: seq<Attempt>,
                                       runs: seq<Charge>, sleeps: seq<Sleep>)
    requires p.Valid() && Bounded(p, key) && AllDenied(runs) && InTime(runs, deadline) && SleepsFit(sleeps, deadline)
    ensures var log := WaitFrom(p, key, now, deadline, env, runs, sleeps);
            && Bounded(p, log.key)
            && SleepsFit(log.sleeps, deadline)
            && InTime(log.runs, deadline)
            && Justified(log, deadline)
    decreases |env|
  {
    if env != [] {
      var at := now + env[0].late;
      var shared := After(p, key, env[0].others);
      SharedBounded(p, key, env[0].others);
      if !PastDeadline(deadline, at) && env[0].up {
        var (f, reply) := Script(p, shared, at);
        RunBounded(p, shared, at);
        var more := runs + [Charge(at, reply)];
        assert more[..|runs|] == runs;
        if !reply.allowed && !PastDeadline(deadline, at + reply.retry) {
          var until := at + Min(reply.retry, REDIS_WAIT_POLL);
          WaitIsSound(p, Some(f), until, deadline, env[1..], more, sleeps + [Sleep(at, until)]);
        }
      }
    }
  }

  /** One attempt ends the wait or leads to the next, with a key in bounds and the deadline ahead. */
  lemma OneAttempt(p: Params, key: Option<Fields>, now: real, deadline: Option<real>, env: seq<Attempt>,
                   runs: seq<Charge>, sleeps: seq<Sleep>)
    returns (ends: bool, f: Fields, until: real, more: seq<Charge>, longer: seq<Sleep>)
    requires p.Valid() && Bounded(p, key) && env != []
    ensures var log := WaitFrom(p, key, now, deadline, env, runs, sleeps);
            if ends then
              && log.outcome != Pending
              && (log.outcome == Unreachable ==> !env[0].up)
              && (log.outcome == Expired ==> PastDeadline(deadline, now + env[0].late))
            else
              && Bounded(p, Some(f)) && !PastDeadline(deadline, until) && |more| == |runs| + 1
              && log == WaitFrom(p, Some(f), until, deadline, env[1..], more, longer)
  {
    var at, shared := now + env[0].late, After(p, key, env[0].others);
    SharedBounded(p, key, env[0].others);
    RunBounded(p, shared, at);
    var reply := Script(p, shared, at).1;
    f, until := Script(p, shared, at).0, at + Min(reply.retry, REDIS_WAIT_POLL);
    more, longer := runs + [Charge(at, reply)], sleeps + [Sleep(at, until)];
    ends := PastDeadline(deadline, at) || !env[0].up || reply.allowed || PastDeadline(deadline, at + reply.retry);
  }

  /** A store that answers never leaves a wait unreachable, and with no attempt late it never expires. */
  lemma {:induction false} WaitFailsFor(p: Params, key: Option<Fields>, now: real, deadline: Option<real>, env: seq<Attempt>,
                                        runs: seq<Charge>, sleeps: seq<Sleep>)
    requires p.Valid() && Bounded(p, key)
    ensures var log := WaitFrom(p, key, now, deadline, env, runs, sleeps);
            && (AllUp(env) ==> log.outcome != Unreachable)
            && (NoneLate(env) && (deadline.Some? ==> now <= deadline.value) ==> log.outcome != Expired)
            && (log.outcome == Pending ==> |log.runs| == |runs| + |env|)
    decreases |env|
  {
    if env != [] {
      LaterAttempts(env);
      var ends, f, until, more, longer := OneAttempt(p, key, now, deadline, env, runs, sleeps);
      if !ends {
        WaitFailsFor(p, Some(f), until, deadline, env[1..], more, longer);
      }
    }
  }

  lemma LaterAttempts(env: seq<Attempt>)
    requires env != []
    ensures AllUp(env) ==> env[0].up && AllUp(env[1..])
    ensures NoneLate(env) ==> env[0].late <= 0.0 && NoneLate(env[1..])
  {
  }

  /** Under any contention a wait sleeps off each denied run but the last, and nothing else. */
  lemma {:induction false} WaitIsPaced(p: Params, key: Option<Fields>, now: real, deadline: Option<real>, env: seq<Attempt>,
                                       runs: seq<Charge>, sleeps: seq<Sleep>)
    requires p.Valid() && |sleeps| == |runs| && Paced(runs, sleeps)
    ensures var log := WaitFrom(p, key, now, deadline, env, runs, sleeps);
            Paced(log.runs, log.sleeps) && |log.runs| <= |log.sleeps| + 1
    decreases |env|
  {
    if env != [] {
      var at := now + env[0].late;
      var (f, reply) := Script(p, After(p, key, env[0].others), at);
      if !PastDeadline(deadline, at) && env[0].up && !reply.allowed && !PastDeadline(deadline, at + reply.retry) {
        var until := at + Min(reply.retry, REDIS_WAIT_POLL);
        PacedOnce(runs, sleeps, Charge(at, reply), Sleep(at, until));
        WaitIsPaced(p, Some(f), until, deadline, env[1..], runs + [Charge(at, reply)], sleeps + [Sleep(at, until)]);
      } else {
        assert forall i :: 0 <= i < |sleeps| ==> (runs + [Charge(at, reply)])[i] == runs[i];
      }
    }
  }

  lemma PacedOnce(runs: seq<Charge>, sleeps: seq<Sleep>, run: Charge, s: Sleep)
    requires |sleeps| == |runs| && Paced(runs, sleeps) && SleptOff(run, s)
    ensures Paced(runs + [run], sleeps + [s])
  {
  }

  lemma {:induction false} SharedBounded(p: Params, key: Option<Fields>, clocks: seq<real>)
    requires p.Valid() && Bounded(p, key)
    ensures Bounded(p, After(p, key, clocks))
  {
    if key.Some? || clocks != [] {
      RunsReachBounded(p, key, clocks);
    }
  }

  lemma RunBounded(p: Params, key: Option<Fields>, now: real)
    requires p.Valid() && Bounded(p, key)
    ensures Bounded(p, Some(Script(p, key, now).0))
    ensures !Script(p, key, now).1.allowed ==> key.Some? && Script(p, key, now).1.retry > 0.0
  {
    if key.Some? {
      ScriptConserves(p, key.value, now);
    }
  }

  // ---------------------------------------------------------------- what each run found

  /** The clocks the store has run on this key once these runs are done: each run's own, after the other
      pods' that came before it. */
  function Landed(env: seq<Attempt>, runs: seq<Charge>): seq<real>
    requires |runs| <= |env|
  {
    if runs == [] then []
    else var last := |runs| - 1; Landed(env, runs[..last]) + env[last].others + [runs[last].at]
  }

  /** When the `i`-th attempt starts: at once or after the sleep before it, and as late as it is. */
  function Starts(start: real, env: seq<Attempt>, sleeps: seq<Sleep>, i: nat): real
    requires i < |env| && i <= |sleeps|
  {
    (if i == 0 then start else sleeps[i - 1].until) + env[i].late
  }

  ghost predicate ServedAt(p: Params, key: Option<Fields>, start: real, env: seq<Attempt>, runs: seq<Charge>,
                           sleeps: seq<Sleep>, i: nat)
    requires p.refill > 0.0 && i < |runs| <= |env| && i <= |sleeps|
  {
    && env[i].up && runs[i].at == Starts(start, env, sleeps, i)
    && runs[i].reply == Script(p, After(p, key, Landed(env, runs[..i]) + env[i].others), runs[i].at).1
  }

  ghost predicate Served(p: Params, key: Option<Fields>, start: real, env: seq<Attempt>, runs: seq<Charge>, sleeps: seq<Sleep>)
    requires p.refill > 0.0
  {
    && |sleeps| <= |runs| <= |env| && |runs| <= |sleeps| + 1
    && forall i :: 0 <= i < |runs| ==> ServedAt(p, key, start, env, runs, sleeps, i)
  }

  /** An attempt that ends a wait without a run of its own. */
  predicate CutShort(outcome: Outcome) { outcome == Expired || outcome == Unreachable }

  /** What a wait leaves: the key that all that landed makes of the first one, and the clock. */
  ghost predicate Leaves(p: Params, key: Option<Fields>, start: real, env: seq<Attempt>, log: WaitLog)
    requires p.refill > 0.0 && |log.sleeps| <= |log.runs| <= |env|
  {
    var n := |log.runs|;
    if CutShort(log.outcome) then
      && n == |log.sleeps| < |env| && log.end == Starts(start, env, log.sleeps, n)
      && log.key == After(p, key, Landed(env, log.runs) + env[n].others)
      && (log.outcome == Unreachable ==> !env[n].up)
    else
      log.key == After(p, key, Landed(env, log.runs))
  }

  lemma {:induction false} ServedOnce(p: Params, key: Option<Fields>, start: real, env: seq<Attempt>, runs: seq<Charge>,
                                      sleeps: seq<Sleep>, run: Charge)
    requires p.refill > 0.0 && |sleeps| == |runs| < |env| && Served(p, key, start, env, runs, sleeps)
    requires env[|runs|].up && run.at == Starts(start, env, sleeps, |runs|)
    requires run.reply == Script(p, After(p, key, Landed(env, runs) + env[|runs|].others), run.at).1
    ensures Served(p, key, start, env, runs + [run], sleeps)
    ensures Landed(env, runs + [run]) == Landed(env, runs) + env[|runs|].others + [run.at]
  {
    var more := runs + [run];
    assert more[..|runs|] == runs;
    forall i | 0 <= i < |more| ensures ServedAt(p, key, start, env, more, sleeps, i) {
      if i < |runs| {
        assert ServedAt(p, key, start, env, runs, sleeps, i);
        assert more[..i] == runs[..i];
      }
    }
  }

  lemma SleepsOnServed(p: Params, key: Option<Fields>, start: real, env: seq<Attempt>, runs: seq<Charge>, sleeps: seq<Sleep>, s: Sleep)
    requires p.refill > 0.0 && |runs| == |sleeps| + 1 && Served(p, key, start, env, runs, sleeps)
    ensures Served(p, key, start, env, runs, sleeps + [s])
  {
    forall i | 0 <= i < |runs| ensures ServedAt(p, key, start, env, runs, sleeps + [s], i) {
      assert ServedAt(p, key, start, env, runs, sleeps, i);
    }
  }

  /** The rest of a wait that has come this far. */
  function Onward(p: Params, first: Option<Fields>, start: real, deadline: Option<real>, all: seq<Attempt>,
                  runs: seq<Charge>, sleeps: seq<Sleep>): WaitLog
    requires p.refill > 0.0 && |runs| <= |all|
  {
    WaitFrom(p, After(p, first, Landed(all, runs)), if sleeps == [] then start else sleeps[|sleeps| - 1].until,
             deadline, all[|runs|..], runs, sleeps)
  }

  /** The next attempt ends the wait, or leads to the one after it. */
  lemma NextAttempt(p: Params, first: Option<Fields>, start: real, deadline: Option<real>, all: seq<Attempt>,
                    runs: seq<Charge>, sleeps: seq<Sleep>)
    returns (ends: bool, more: seq<Charge>, longer: seq<Sleep>)
    requires p.Valid() && |runs| == |sleeps| < |all| && Served(p, first, start, all, runs, sleeps)
    ensures var log := Onward(p, first, start, deadline, all, runs, sleeps);
            if ends then Served(p, first, start, all, log.runs, log.sleeps) && Leaves(p, first, start, all, log)
            else
              && |runs| + 1 == |more| == |longer| && Served(p, first, start, all, more, longer)
              && log == Onward(p, first, start, deadline, all, more, longer)
  {
    var n, before := |runs|, Landed(all, runs);
    var at, others := Starts(start, all, sleeps, n), all[n].others;
    var shared := After(p, After(p, first, before), others);
    RunsCompose(p, first, before, others);
    var (f, reply) := Script(p, shared, at);
    more, longer := runs + [Charge(at, reply)], sleeps + [Sleep(at, at + Min(reply.retry, REDIS_WAIT_POLL))];
    if PastDeadline(deadline, at) || !all[n].up {
      ends := true;
    } else {
      ServedOnce(p, first, start, all, runs, sleeps, Charge(at, reply));
      RunsCompose(p, first, before + others, [at]);
      assert After(p, first, Landed(all, more)) == Some(f);
      ends := reply.allowed || PastDeadline(deadline, at + reply.retry);
      if !ends {
        SleepsOnServed(p, first, start, all, more, sleeps, longer[n]);
        assert all[n..][1..] == all[n + 1..];
      }
    }
  }

  /** Every run of a wait starts when the sleep before it ends, and is answered as the script answers after
      all that landed on the key until then, the other pods' runs and the wait's own. */
  lemma {:induction false} WaitIsServed(p: Params, first: Option<Fields>, start: real, deadline: Option<real>, all: seq<Attempt>,
                                        runs: seq<Charge>, sleeps: seq<Sleep>)
    requires p.Valid() && |runs| == |sleeps| && Served(p, first, start, all, runs, sleeps)
    ensures var log := Onward(p, first, start, deadline, all, runs, sleeps);
            Served(p, first, start, all, log.runs, log.sleeps) && Leaves(p, first, start, all, log)
    decreases |all| - |runs|
  {
    if |runs| < |all| {
      var ends, more, longer := NextAttempt(p, first, start, deadline, all, runs, sleeps);
      if !ends {
        WaitIsServed(p, first, start, deadline, all, more, longer);
      }
    }
  }

  // ---------------------------------------------------------------- a lone waiter in exact time

  function Quiet(n: nat): (env: seq<Attempt>)
    ensures |env| == n && (n > 0 ==> env[1..] == Quiet(n - 1))
  {
    seq(n, _ => Attempt(true, [], 0.0))
  }

  /** How far the key's clock is ahead of the waiter's. */
  function Lag(f: Fields, now: real): real { Max(0.0, f.ts - now) }

  /** The retry a denied run at `now` reports. */
  function Deficit(p: Params, f: Fields, now: real): real
    requires p.refill > 0.0
  {
    (1.0 - Level(p, f, now)) / p.refill
  }

  /** Seconds until the bucket holds one token for this waiter. */
  function Need(p: Params, f: Fields, now: real): real
    requires p.refill > 0.0
  {
    if Level(p, f, now) >= 1.0 then 0.0 else Lag(f, now) + Deficit(p, f, now)
  }

  /** Attempts that always suffice. */
  function AttemptsEnough(p: Params, f: Fields, now: real): int
    requires p.refill > 0.0
  {
    if Level(p, f, now) >= 1.0 then 1
    else
      var r := Deficit(p, f, now);
      (if Lag(f, now) > 0.0 && r > 0.0 then Ceil(Lag(f, now) / Min(r, REDIS_WAIT_POLL)) else 0) + Ceil(r) + 1
  }

  lemma DeficitIsPositive(p: Params, f: Fields, now: real)
    requires p.Valid() && Level(p, f, now) < 1.0
    ensures Deficit(p, f, now) > 0.0 && Level(p, f, now) + Refill(p, Deficit(p, f, now)) == 1.0
  {
    DivideThenMultiply(1.0 - Level(p, f, now), p.refill);
  }

  lemma DeficitShrinks(p: Params, level: real, seconds: real)
    requires p.Valid()
    ensures (1.0 - (level + Refill(p, seconds))) / p.refill == (1.0 - level) / p.refill - seconds
  {
    DivideThenMultiply(1.0 - level, p.refill);
    DivideThenMultiply(1.0 - (level + Refill(p, seconds)), p.refill);
    Cancel((1.0 - (level + Refill(p, seconds))) / p.refill, (1.0 - level) / p.refill - seconds, p.refill);
  }

  lemma Cancel(x: real, y: real, factor: real)
    requires factor > 0.0 && x * factor == y * factor
    ensures x == y
  {
    assert (x - y) * factor == 0.0;
  }

  lemma DivideLess(x: real, y: real)
    requires y > 0.0
    ensures (x - y) / y == x / y - 1.0
  {
    DivideThenMultiply(x, y);
    DivideThenMultiply(x - y, y);
    QuotientLess(x, y, x / y, (x - y) / y);
  }

  lemma QuotientLess(x: real, y: real, q: real, r: real)
    requires y > 0.0 && q * y == x && r * y == x - y
    ensures r == q - 1.0
  {
    assert (q - 1.0) * y == q * y - y;
    Cancel(r, q - 1.0, y);
  }

  lemma CeilDown(lag: real, step: real)
    requires 0.0 < step
    ensures Ceil((lag - step) / step) == Ceil(lag / step) - 1
    ensures lag > 0.0 ==> Ceil(lag / step) >= 1
  {
    DivideLess(lag, step);
    DivideThenMultiply(lag, step);
  }

  /** A denied run leaves the key bounded and asks for a sleep of at most its own retry. */
  lemma DeniedSleep(p: Params, f: Fields, now: real)
    requires p.Valid() && Bounded(p, Some(f)) && Level(p, f, now) < 1.0
    ensures 0.0 < Min(Deficit(p, f, now), REDIS_WAIT_POLL) <= Deficit(p, f, now)
    ensures Bounded(p, Some(Fields(Level(p, f, now), Max(f.ts, now))))
  {
    ScriptConserves(p, f, now);
    DeficitIsPositive(p, f, now);
  }

  /** After one denied run and the sleep it asks for, the need is shorter by exactly the sleep. */
  lemma DeniedStep(p: Params, f: Fields, now: real)
    requires p.Valid() && Bounded(p, Some(f)) && Level(p, f, now) < 1.0
    ensures var r := Deficit(p, f, now);
            var sleep := Min(r, REDIS_WAIT_POLL);
            var g := Fields(Level(p, f, now), Max(f.ts, now));
            && Need(p, g, now + sleep) == Need(p, f, now) - sleep
            && Lag(g, now + sleep) == Max(0.0, Lag(f, now) - sleep)
            && (Lag(f, now) >= sleep ==> Level(p, g, now + sleep) == Level(p, f, now))
            && (Lag(f, now) < sleep ==>
                 Level(p, g, now + sleep) >= 1.0 || Deficit(p, g, now + sleep) == r - (sleep - Lag(f, now)))
            && (f.ts <= now ==> Ceil(Need(p, g, now + sleep)) == Ceil(Need(p, f, now)) - 1)
  {
    DeniedSleep(p, f, now);
    DeficitIsPositive(p, f, now);
    var level, r, lag := Level(p, f, now), Deficit(p, f, now), Lag(f, now);
    var sleep := Min(r, REDIS_WAIT_POLL);
    var g := Fields(level, Max(f.ts, now));
    if lag < sleep {
      LevelRises(p, g, now + sleep, sleep - lag, r);
      DeficitShrinks(p, level, sleep - lag);
    }
  }

  /** And one attempt fewer is enough. */
  lemma DeniedAttempts(p: Params, f: Fields, now: real)
    requires p.Valid() && Bounded(p, Some(f)) && Level(p, f, now) < 1.0
    ensures var sleep := Min(Deficit(p, f, now), REDIS_WAIT_POLL);
            var g := Fields(Level(p, f, now), Max(f.ts, now));
            AttemptsEnough(p, g, now + sleep) <= AttemptsEnough(p, f, now) - 1
  {
    DeniedSleep(p, f, now);
    DeniedStep(p, f, now);
    var sleep := Min(Deficit(p, f, now), REDIS_WAIT_POLL);
    if Lag(f, now) > 0.0 { CeilDown(Lag(f, now), sleep); }
  }

  lemma LevelRises(p: Params, g: Fields, now: real, seconds: real, r: real)
    requires p.Valid() && now - g.ts == seconds && 0.0 < seconds <= r
    requires g.tokens + Refill(p, r) == 1.0
    ensures Level(p, g, now) == g.tokens + Refill(p, seconds) <= 1.0
  {
    MultiplyMonotone(seconds, r, p.refill);
  }

  function Slept(sleeps: seq<Sleep>): real {
    if sleeps == [] then 0.0
    else Slept(sleeps[..|sleeps| - 1]) + sleeps[|sleeps| - 1].until - sleeps[|sleeps| - 1].from
  }

  /** A quiet attempt either grants, refuses, or sleeps and tries again. */
  lemma QuietAttempt(p: Params, f: Fields, now: real, deadline: Option<real>, n: nat, runs: seq<Charge>, sleeps: seq<Sleep>)
    requires p.Valid() && n > 0 && !PastDeadline(deadline, now)
    ensures var log := WaitFrom(p, Some(f), now, deadline, Quiet(n), runs, sleeps);
            var level, r := Level(p, f, now), Deficit(p, f, now);
            var g, until := Fields(level, Max(f.ts, now)), now + Min(r, REDIS_WAIT_POLL);
            if level >= 1.0 then
              log.outcome == Granted && log.end == now && log.sleeps == sleeps && |log.runs| == |runs| + 1
            else if PastDeadline(deadline, now + r) then
              log.outcome == Refused && log.end == now && log.sleeps == sleeps && |log.runs| == |runs| + 1
            else
              log == WaitFrom(p, Some(g), until, deadline, Quiet(n - 1), runs + [Charge(now, Reply(false, r))], sleeps + [Sleep(now, until)])
  {
    assert now + Quiet(n)[0].late == now;
  }

  /** The log of a wait begun at `now` after `ran` runs and `slept` seconds of sleep, granted exactly
      `need` seconds later, or refused exactly when that instant lies past the deadline. With no lag
      the script ran once per started second of `need` and once more, and a refusal came at once. */
  predicate OnTime(log: WaitLog, now: real, deadline: Option<real>, need: real, ran: nat, slept: real, lagging: bool) {
    && log.outcome == (if deadline.Some? && now + need > deadline.value then Refused else Granted)
    && Slept(log.sleeps) == slept + (log.end - now)
    && (log.outcome == Granted ==> log.end == now + need)
    && !PastDeadline(deadline, log.end)
    && (!lagging ==> |log.runs| == ran + 1 + (if log.outcome == Granted then Ceil(need) else 0))
  }

  /** A denied run uses up one attempt of the measure. */
  ghost predicate UsesOneUp(p: Params, enough: (Fields, real) -> int, f: Fields, now: real)
    requires p.refill > 0.0
  {
    && enough(f, now) >= 1
    && (Level(p, f, now) < 1.0 ==>
         enough(Fields(Level(p, f, now), Max(f.ts, now)), now + Min(Deficit(p, f, now), REDIS_WAIT_POLL)) <= enough(f, now) - 1)
  }

  /** Any measure that every denied run uses up bounds the attempts. */
  lemma {:induction false} LoneWaitFinishes(p: Params, f: Fields, now: real, deadline: Option<real>, n: nat,
                                            runs: seq<Charge>, sleeps: seq<Sleep>, enough: (Fields, real) -> int)
    requires p.Valid() && Bounded(p, Some(f)) && !PastDeadline(deadline, now)
    requires n >= enough(f, now)
    requires forall h: Fields, at: real :: Bounded(p, Some(h)) ==> UsesOneUp(p, enough, h, at)
    ensures WaitFrom(p, Some(f), now, deadline, Quiet(n), runs, sleeps).outcome != Pending
    decreases n
  {
    assert UsesOneUp(p, enough, f, now);
    QuietAttempt(p, f, now, deadline, n, runs, sleeps);
    if Level(p, f, now) < 1.0 && !PastDeadline(deadline, now + Deficit(p, f, now)) {
      var r := Deficit(p, f, now);
      var g, until := Fields(Level(p, f, now), Max(f.ts, now)), now + Min(r, REDIS_WAIT_POLL);
      DeniedSleep(p, f, now);
      LoneWaitFinishes(p, g, until, deadline, n - 1, runs + [Charge(now, Reply(false, r))], sleeps + [Sleep(now, until)], enough);
    }
  }

  lemma AttemptsUsedUp(p: Params, enough: (Fields, real) -> int)
    requires p.Valid() && forall h: Fields, at: real :: enough(h, at) == AttemptsEnough(p, h, at)
    ensures forall h: Fields, at: real :: Bounded(p, Some(h)) ==> UsesOneUp(p, enough, h, at)
  {
    forall h: Fields, at: real | Bounded(p, Some(h)) ensures UsesOneUp(p, enough, h, at) {
      if Level(p, h, at) < 1.0 {
        DeniedAttempts(p, h, at);
        AtLeastOneAttempt(p, h, at);
      }
    }
  }

  lemma AtLeastOneAttempt(p: Params, f: Fields, now: real)
    requires p.Valid() && Bounded(p, Some(f)) && Level(p, f, now) < 1.0
    ensures AttemptsEnough(p, f, now) >= 1
  {
    DeniedSleep(p, f, now);
    if Lag(f, now) > 0.0 { CeilDown(Lag(f, now), Min(Deficit(p, f, now), REDIS_WAIT_POLL)); }
  }

  lemma {:induction false} LoneWaitOnTime(p: Params, f: Fields, now: real, deadline: Option<real>, n: nat,
                                          runs: seq<Charge>, sleeps: seq<Sleep>)
    requires p.Valid() && Bounded(p, Some(f)) && !PastDeadline(deadline, now)
    requires WaitFrom(p, Some(f), now, deadline, Quiet(n), runs, sleeps).outcome != Pending
    ensures OnTime(WaitFrom(p, Some(f), now, deadline, Quiet(n), runs, sleeps),
                   now, deadline, Need(p, f, now), |runs|, Slept(sleeps), f.ts > now)
    decreases n
  {
    if Level(p, f, now) >= 1.0 || PastDeadline(deadline, now + Deficit(p, f, now)) {
      LoneWaitEnds(p, f, now, deadline, n, runs, sleeps);
    } else {
      var r := Deficit(p, f, now);
      var g, until := Fields(Level(p, f, now), Max(f.ts, now)), now + Min(r, REDIS_WAIT_POLL);
      var more, longer := runs + [Charge(now, Reply(false, r))], sleeps + [Sleep(now, until)];
      var log := WaitFrom(p, Some(g), until, deadline, Quiet(n - 1), more, longer);
      DeniedSleep(p, f, now);
      QuietAttempt(p, f, now, deadline, n, runs, sleeps);
      assert WaitFrom(p, Some(f), now, deadline, Quiet(n), runs, sleeps) == log;
      LoneWaitOnTime(p, g, until, deadline, n - 1, more, longer);
      SleptOnceMore(sleeps, Sleep(now, until));
      LoneWaitSleeps(p, f, now, deadline, log, |runs|, Slept(sleeps));
    }
  }

  lemma LoneWaitEnds(p: Params, f: Fields, now: real, deadline: Option<real>, n: nat, runs: seq<Charge>, sleeps: seq<Sleep>)
    requires p.Valid() && !PastDeadline(deadline, now) && n > 0
    requires Level(p, f, now) >= 1.0 || PastDeadline(deadline, now + Deficit(p, f, now))
    ensures OnTime(WaitFrom(p, Some(f), now, deadline, Quiet(n), runs, sleeps),
                   now, deadline, Need(p, f, now), |runs|, Slept(sleeps), f.ts > now)
  {
    QuietAttempt(p, f, now, deadline, n, runs, sleeps);
  }

  /** On time after one denied run and its sleep is on time from the start. */
  lemma LoneWaitSleeps(p: Params, f: Fields, now: real, deadline: Option<real>, log: WaitLog, ran: nat, slept: real)
    requires p.Valid() && Bounded(p, Some(f))
    requires Level(p, f, now) < 1.0 && !PastDeadline(deadline, now + Deficit(p, f, now))
    requires var sleep := Min(Deficit(p, f, now), REDIS_WAIT_POLL);
             var g := Fields(Level(p, f, now), Max(f.ts, now));
             OnTime(log, now + sleep, deadline, Need(p, g, now + sleep), ran + 1, slept + sleep, g.ts > now + sleep)
    ensures OnTime(log, now, deadline, Need(p, f, now), ran, slept, f.ts > now)
  {
    DeniedSleep(p, f, now);
    DeniedStep(p, f, now);
    var until := now + Min(Deficit(p, f, now), REDIS_WAIT_POLL);
    OnTimeEarlier(log, now, until, deadline, Need(p, f, now), ran, slept, f.ts > now, Max(f.ts, now) > until);
  }

  /** A wait that is on time after one denied run and its sleep is on time as a whole. */
  lemma OnTimeEarlier(log: WaitLog, now: real, until: real, deadline: Option<real>, need: real,
                      ran: nat, slept: real, lagging: bool, laggingAfter: bool)
    requires OnTime(log, until, deadline, need - (until - now), ran + 1, slept + (until - now), laggingAfter)
    requires !lagging ==> !laggingAfter && Ceil(need - (until - now)) == Ceil(need) - 1
    requires !lagging ==> !PastDeadline(deadline, now + need)
    ensures OnTime(log, now, deadline, need, ran, slept, lagging)
  {
  }

  lemma {:induction false} SleptOnceMore(sleeps: seq<Sleep>, s: Sleep)
    ensures Slept(sleeps + [s]) == Slept(sleeps) + s.until - s.from
  {
    assert (sleeps + [s])[..|sleeps|] == sleeps;
  }

  /** Alone, a waiter is granted, or refused, on time. */
  lemma {:induction false} LoneWait(p: Params, f: Fields, now: real, deadline: Option<real>, n: nat,
                                    runs: seq<Charge>, sleeps: seq<Sleep>)
    requires p.Valid() && Bounded(p, Some(f)) && !PastDeadline(deadline, now)
    requires n >= AttemptsEnough(p, f, now)
    ensures OnTime(WaitFrom(p, Some(f), now, deadline, Quiet(n), runs, sleeps),
                   now, deadline, Need(p, f, now), |runs|, Slept(sleeps), f.ts > now)
  {
    var enough := (h: Fields, at: real) => AttemptsEnough(p, h, at);
    AttemptsUsedUp(p, enough);
    LoneWaitFinishes(p, f, now, deadline, n, runs, sleeps, enough);
    LoneWaitOnTime(p, f, now, deadline, n, runs, sleeps);
  }
}
