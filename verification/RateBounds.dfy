/** What the token bucket of internal/mcpserver/ratelimitredis.go admits, stated by clock readings and
    grants alone: a run is granted exactly when no stretch of runs ending with it would hold more grants
    than a full bucket and the refill since. */
module RateBounds {
  import opened Wrappers
  import opened TokenBucket

  /** The latest clock reading so far, from the one the key was stamped with. */
  function Latest(ts: real, clocks: seq<real>): real
    decreases |clocks|
  {
    if clocks == [] then ts else Latest(Max(ts, clocks[0]), clocks[1..])
  }

  /** By `until`, with `spare` tokens left over, no stretch of runs has had more than its due: the runs so
      far had what the key held and its refill; those from any one of them on, a full bucket and the
      refill since that run. */
  ghost predicate WithinDue(p: Params, f: Fields, clocks: seq<real>, until: real, spare: real)
    requires p.refill > 0.0
  {
    var replies := Replies(p, Some(f), clocks);
    && |replies| == |clocks|
    && Grants(replies) as real + spare <= f.tokens + Refill(p, until - f.ts)
    && forall i :: 0 <= i < |clocks| ==> StretchWithinDue(p, f.ts, clocks, replies, i, until, spare)
  }

  ghost predicate StretchWithinDue(p: Params, ts: real, clocks: seq<real>, replies: seq<Reply>, i: nat, until: real, spare: real)
    requires i < |clocks| == |replies|
  {
    Grants(replies[i..]) as real + spare <= p.capacity + Refill(p, until - Latest(ts, clocks[..i + 1]))
  }

  lemma {:induction false} StampIsLatest(p: Params, f: Fields, clocks: seq<real>)
    requires p.refill > 0.0
    ensures After(p, Some(f), clocks).Some? && After(p, Some(f), clocks).value.ts == Latest(f.ts, clocks)
    ensures f.ts <= Latest(f.ts, clocks)
    ensures |Replies(p, Some(f), clocks)| == |clocks|
    decreases |clocks|
  {
    if clocks != [] {
      StampIsLatest(p, Script(p, Some(f), clocks[0]).0, clocks[1..]);
    }
  }

  /** What one run leaves, without a case for clocks that lag: the refill, cut at a full bucket, less the
      token spent. */
  lemma RunLeaves(p: Params, f: Fields, now: real, y: real, later: real)
    requires p.Valid() && Bounded(p, Some(f))
    ensures var (g, reply) := Script(p, Some(f), now);
            var spent := if reply.allowed then 1.0 else 0.0;
            && g.ts == Max(f.ts, now)
            && (y <= g.tokens + Refill(p, later - g.ts) <==>
                 y + spent <= p.capacity + Refill(p, later - g.ts) && y + spent <= f.tokens + Refill(p, later - f.ts))
  {
    var g := Script(p, Some(f), now).0;
    assert later - f.ts == (later - g.ts) + (g.ts - f.ts);
    RefillAdds(p, later - g.ts, g.ts - f.ts);
  }

  lemma LaterStretch(p: Params, ts: real, clocks: seq<real>, reply: Reply, rest: seq<Reply>, i: nat, until: real, spare: real)
    requires 0 < i < |clocks| == |rest| + 1
    ensures StretchWithinDue(p, ts, clocks, [reply] + rest, i, until, spare)
            <==> StretchWithinDue(p, Max(ts, clocks[0]), clocks[1..], rest, i - 1, until, spare)
  {
    assert ([reply] + rest)[i..] == rest[i - 1..];
    assert clocks[..i + 1][1..] == clocks[1..][..i];
  }

  lemma {:induction false} FirstStretch(p: Params, f: Fields, clocks: seq<real>, rest: seq<Reply>, until: real, spare: real)
    requires p.Valid() && Bounded(p, Some(f)) && |clocks| == |rest| + 1
    ensures var (g, reply) := Script(p, Some(f), clocks[0]);
            var replies := [reply] + rest;
            && Grants(replies) == (if reply.allowed then 1 else 0) + Grants(rest)
            && (Grants(rest) as real + spare <= g.tokens + Refill(p, until - g.ts) <==>
                 && Grants(replies) as real + spare <= f.tokens + Refill(p, until - f.ts)
                 && StretchWithinDue(p, f.ts, clocks, replies, 0, until, spare))
  {
    var (g, reply) := Script(p, Some(f), clocks[0]);
    var replies := [reply] + rest;
    assert replies[1..] == rest && replies[0..] == replies;
    RunLeaves(p, f, clocks[0], Grants(rest) as real + spare, until);
    assert clocks[..1][1..] == [] && Latest(f.ts, clocks[..1]) == g.ts;
  }

  /** The bounds of a run's remainder are the bounds of the run. */
  lemma WithinDueSplits(p: Params, f: Fields, clocks: seq<real>, until: real, spare: real)
    requires p.Valid() && Bounded(p, Some(f)) && clocks != []
    ensures WithinDue(p, f, clocks, until, spare) <==> WithinDue(p, Script(p, Some(f), clocks[0]).0, clocks[1..], until, spare)
  {
    var (g, reply) := Script(p, Some(f), clocks[0]);
    var rest, tail := Replies(p, Some(g), clocks[1..]), clocks[1..];
    StampIsLatest(p, f, clocks);
    StampIsLatest(p, g, tail);
    var replies := Replies(p, Some(f), clocks);
    assert replies == [reply] + rest && g.ts == Max(f.ts, clocks[0]);
    FirstStretch(p, f, clocks, rest, until, spare);
    forall i | 0 < i < |clocks|
      ensures StretchWithinDue(p, f.ts, clocks, replies, i, until, spare) <==> StretchWithinDue(p, g.ts, tail, rest, i - 1, until, spare)
    {
      LaterStretch(p, f.ts, clocks, reply, rest, i, until, spare);
    }
    assert forall i :: 0 <= i < |tail| ==>
      (StretchWithinDue(p, g.ts, tail, rest, i, until, spare) <==> StretchWithinDue(p, f.ts, clocks, replies, i + 1, until, spare));
  }

  /** Over any runs by any pods with any clocks, what is left in the bucket is the most that keeps every
      stretch within its due: no token is lost but to a full bucket, and none is kept beyond it. */
  lemma {:induction false} TokensAreTheLeastDue(p: Params, f: Fields, clocks: seq<real>, spare: real)
    requires p.Valid() && Bounded(p, Some(f))
    ensures var end := After(p, Some(f), clocks);
            && end.Some? && Bounded(p, end)
            && (spare <= end.value.tokens <==> WithinDue(p, f, clocks, Latest(f.ts, clocks), spare))
    decreases |clocks|
  {
    if clocks == [] {
      assert Refill(p, f.ts - f.ts) == 0.0;
    } else {
      var g := Script(p, Some(f), clocks[0]).0;
      ScriptConserves(p, f, clocks[0]);
      TokensAreTheLeastDue(p, g, clocks[1..], spare);
      WithinDueSplits(p, f, clocks, Latest(f.ts, clocks), spare);
    }
  }

  lemma DueLater(p: Params, granted: real, allowance: real, ts: real, from: real, until: real, spare: real, less: real)
    requires less == spare - Refill(p, until - from)
    ensures granted + spare <= allowance + Refill(p, until - ts) <==> granted + less <= allowance + Refill(p, from - ts)
  {
    assert until - ts == (from - ts) + (until - from);
    RefillAdds(p, from - ts, until - from);
  }

  lemma StretchLater(p: Params, ts: real, clocks: seq<real>, replies: seq<Reply>, i: nat, from: real, until: real, spare: real, less: real)
    requires i < |clocks| == |replies| && less == spare - Refill(p, until - from)
    ensures StretchWithinDue(p, ts, clocks, replies, i, until, spare) <==> StretchWithinDue(p, ts, clocks, replies, i, from, less)
  {
    DueLater(p, Grants(replies[i..]) as real, p.capacity, Latest(ts, clocks[..i + 1]), from, until, spare, less);
  }

  lemma WithinDueLater(p: Params, f: Fields, clocks: seq<real>, from: real, until: real, spare: real, less: real)
    requires p.refill > 0.0 && less == spare - Refill(p, until - from)
    ensures WithinDue(p, f, clocks, until, spare) <==> WithinDue(p, f, clocks, from, less)
  {
    var replies := Replies(p, Some(f), clocks);
    StampIsLatest(p, f, clocks);
    DueLater(p, Grants(replies) as real, f.tokens, f.ts, from, until, spare, less);
    forall i | 0 <= i < |clocks|
      ensures StretchWithinDue(p, f.ts, clocks, replies, i, until, spare) <==> StretchWithinDue(p, f.ts, clocks, replies, i, from, less)
    {
      StretchLater(p, f.ts, clocks, replies, i, from, until, spare, less);
    }
  }

  lemma OneRunGrantedIff(p: Params, f: Fields, now: real)
    requires p.Valid() && Bounded(p, Some(f))
    ensures Script(p, Some(f), now).1.allowed <==> 1.0 - Refill(p, Max(f.ts, now) - f.ts) <= f.tokens
  {
    if now <= f.ts { assert Refill(p, f.ts - f.ts) == 0.0; }
  }

  /** Every decision: after any runs by any pods, a run is granted exactly when one more grant keeps every
      stretch that ends with it within its due. */
  lemma {:induction false} GrantedIff(p: Params, f: Fields, clocks: seq<real>, now: real)
    requires p.Valid() && Bounded(p, Some(f))
    ensures Script(p, After(p, Some(f), clocks), now).1.allowed
            <==> WithinDue(p, f, clocks, Max(Latest(f.ts, clocks), now), 1.0)
  {
    var from, end := Latest(f.ts, clocks), After(p, Some(f), clocks);
    var until := Max(from, now);
    StampIsLatest(p, f, clocks);
    var less := 1.0 - Refill(p, until - from);
    TokensAreTheLeastDue(p, f, clocks, less);
    OneRunGrantedIff(p, end.value, now);
    WithinDueLater(p, f, clocks, from, until, 1.0, less);
  }

  /** A denied run's retry is exact: run again on a clock `wait` past the stamp it left, with nobody in
      between, it is granted exactly when `wait` is no shorter. */
  lemma RetryIsExact(p: Params, f: Fields, now: real, wait: real)
    requires p.Valid() && Bounded(p, Some(f)) && !Script(p, Some(f), now).1.allowed && wait >= 0.0
    ensures var (g, reply) := Script(p, Some(f), now);
            reply.retry > 0.0 && (Script(p, Some(g), g.ts + wait).1.allowed <==> wait >= reply.retry)
  {
    var (g, reply) := Script(p, Some(f), now);
    ScriptConserves(p, f, now);
    OneRunGrantedIff(p, g, g.ts + wait);
    assert g.ts + wait - g.ts == wait;
    RefillsEnoughIff(p, wait, reply.retry, 1.0 - g.tokens);
  }

  lemma RefillsEnoughIff(p: Params, wait: real, enough: real, missing: real)
    requires p.refill > 0.0 && enough * p.refill == missing
    ensures missing <= Refill(p, wait) <==> wait >= enough
  {
    ScaleBy(enough, wait, p.refill);
  }

  /** Calls that arrive together are granted for as long as whole tokens last. */
  lemma {:induction false} BurstIsGranted(p: Params, f: Fields, now: real, n: nat)
    requires p.Valid() && Bounded(p, Some(f))
    requires n as real <= p.capacity && n as real <= f.tokens + Refill(p, Max(f.ts, now) - f.ts)
    ensures Grants(Replies(p, Some(f), seq(n, _ => now))) == n
    decreases n
  {
    if n > 0 {
      var (g, reply) := Script(p, Some(f), now);
      ScriptConserves(p, f, now);
      if now <= f.ts { assert Refill(p, 0.0) == 0.0; }
      assert Refill(p, g.ts - g.ts) == 0.0;
      BurstIsGranted(p, g, now, n - 1);
      assert seq(n, _ => now)[1..] == seq(n - 1, _ => now);
      var rest := Replies(p, Some(g), seq(n - 1, _ => now));
      assert ([reply] + rest)[1..] == rest;
    }
  }

  // ---------------------------------------------------------------- the rate a guardfile states

  lemma {:induction false} MissingKeyIsFull(p: Params, clocks: seq<real>, now: real)
    requires p.refill > 0.0
    ensures Script(p, None, now) == Script(p, Some(Fields(p.capacity, now)), now)
    ensures clocks != [] ==>
      && After(p, None, clocks) == After(p, Some(Fields(p.capacity, clocks[0])), clocks)
      && Replies(p, None, clocks) == Replies(p, Some(Fields(p.capacity, clocks[0])), clocks)
  {
  }

  /** `granted` calls are within `count` per window over a stretch that lasted `elapsed` seconds, a full
      burst at its start included. */
  predicate WithinRate(cfg: RateConfig, granted: int, elapsed: real) {
    granted as real * WindowSeconds(cfg) <= cfg.count as real * (WindowSeconds(cfg) + elapsed)
  }

  lemma DueIsTheRate(cfg: RateConfig, granted: int, elapsed: real)
    requires cfg.Accepted()
    ensures granted as real <= NewBucket(cfg).capacity + Refill(NewBucket(cfg), elapsed) <==> WithinRate(cfg, granted, elapsed)
  {
    NewBucketOutlivesItsWindow(cfg);
    var p, window := NewBucket(cfg), WindowSeconds(cfg);
    assert (p.capacity + elapsed * p.refill) * window == cfg.count as real * (window + elapsed) by {
      assert elapsed * p.refill * window == elapsed * (p.refill * window);
      assert elapsed * p.capacity == p.capacity * elapsed;
    }
    ScaleBy(granted as real, p.capacity + Refill(p, elapsed), window);
  }

  lemma ScaleBy(x: real, y: real, factor: real)
    requires factor > 0.0
    ensures x <= y <==> x * factor <= y * factor
  {
    if x <= y { MultiplyMonotone(x, y, factor); } else { assert (x - y) * factor > 0.0; }
  }

  lemma {:induction false} DueFromFirstUse(cfg: RateConfig, clocks: seq<real>, until: real)
    requires cfg.Accepted() && clocks != []
    ensures var p := NewBucket(cfg);
            p.refill > 0.0 && (WithinDue(p, Fields(p.capacity, clocks[0]), clocks, until, 1.0) <==>
                                 && |Replies(p, None, clocks)| == |clocks|
                                 && StretchesWithinRate(cfg, clocks, Replies(p, None, clocks), until))
  {
    var p := NewBucket(cfg);
    NewBucketOutlivesItsWindow(cfg);
    var f, replies := Fields(p.capacity, clocks[0]), Replies(p, None, clocks);
    MissingKeyIsFull(p, clocks, until);
    StampIsLatest(p, f, clocks);
    forall i | 0 <= i < |clocks|
      ensures StretchWithinDue(p, f.ts, clocks, replies, i, until, 1.0) <==> StretchWithinRate(cfg, clocks, replies, i, until)
    {
      DueIsTheRate(cfg, Grants(replies[i..]) + 1, until - Latest(clocks[0], clocks[..i + 1]));
    }
    FirstStretchIsAll(p, f, clocks, replies, until);
  }

  lemma {:induction false} FirstStretchIsAll(p: Params, f: Fields, clocks: seq<real>, replies: seq<Reply>, until: real)
    requires clocks != [] && |replies| == |clocks| && f == Fields(p.capacity, clocks[0])
    ensures StretchWithinDue(p, f.ts, clocks, replies, 0, until, 1.0)
            <==> Grants(replies) as real + 1.0 <= f.tokens + Refill(p, until - f.ts)
  {
    assert replies[0..] == replies && clocks[..1] == [clocks[0]] && [clocks[0]][1..] == [];
    assert Latest(clocks[0], [clocks[0]]) == clocks[0];
  }

  /** One more grant at `until` is within the rate over the stretch that begins with run `i`. */
  ghost predicate StretchWithinRate(cfg: RateConfig, clocks: seq<real>, replies: seq<Reply>, i: nat, until: real)
    requires i < |clocks| == |replies|
  {
    WithinRate(cfg, Grants(replies[i..]) + 1, until - Latest(clocks[0], clocks[..i + 1]))
  }

  ghost predicate StretchesWithinRate(cfg: RateConfig, clocks: seq<real>, replies: seq<Reply>, until: real)
    requires |clocks| == |replies|
  {
    forall i :: 0 <= i < |clocks| ==> StretchWithinRate(cfg, clocks, replies, i, until)
  }

  /** From a bucket's first use on, whatever pods charge it with whatever clocks, a call is granted exactly
      when the configured rate allows one more over every stretch that ends with it. */
  lemma {:induction false} RateIsExact(cfg: RateConfig, clocks: seq<real>, now: real)
    requires cfg.Accepted()
    ensures var p := NewBucket(cfg);
            && p.refill > 0.0
            && var replies := Replies(p, None, clocks);
               && |replies| == |clocks|
               && (Script(p, After(p, None, clocks), now).1.allowed <==>
                     clocks == [] || StretchesWithinRate(cfg, clocks, replies, Max(Latest(clocks[0], clocks), now)))
  {
    var p := NewBucket(cfg);
    NewBucketOutlivesItsWindow(cfg);
    if clocks != [] {
      MissingKeyIsFull(p, clocks, now);
      StampIsLatest(p, Fields(p.capacity, clocks[0]), clocks);
      GrantedIff(p, Fields(p.capacity, clocks[0]), clocks, now);
      DueFromFirstUse(cfg, clocks, Max(Latest(clocks[0], clocks), now));
    }
  }
}
