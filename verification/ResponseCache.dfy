/** internal/mcpserver/cache.go: one tool's bounded, expiring map of upstream answers. */
module ResponseCache {
  import opened Wrappers

  const MAX_CACHE_ENTRIES := 256

  /** Instants count from the zero time, so 0 is exactly the instant `IsZero` recognises. */
  type Instant = nat

  datatype Entry<R> = Entry(result: R, expires: Instant)

  type Entries<R> = map<string, Entry<R>>

  predicate Live<R>(e: Entry<R>, now: Instant) { now < e.expires }

  function Purged<R>(m: Entries<R>, now: Instant): Entries<R> {
    map k | k in m && Live(m[k], now) :: m[k]
  }

  predicate Soonest<R>(m: Entries<R>, key: string) {
    key in m && forall k :: k in m ==> m[key].expires <= m[k].expires
  }

  ghost predicate Evicts<R>(m: Entries<R>, victim: string, rest: Entries<R>) {
    Soonest(m, victim) && rest == m - {victim}
  }

  /** What one `put` may leave behind. Map iteration order breaks expiry ties, so a full map admits
      every soonest-expiring victim. */
  ghost predicate Puts<R>(m: Entries<R>, key: string, e: Entry<R>, now: Instant, after: Entries<R>) {
    var live := Purged(m, now);
    if |live| < MAX_CACHE_ENTRIES then after == live[key := e]
    else exists victim :: Evicts(live, victim, live - {victim}) && after == (live - {victim})[key := e]
  }

  function Got<R>(m: Entries<R>, key: string, now: Instant): (Entries<R>, Option<R>) {
    if key !in m then (m, None)
    else if Live(m[key], now) then (m, Some(m[key].result))
    else (m - {key}, None)
  }

  ghost predicate Bounded<R>(m: Entries<R>) {
    |m| <= MAX_CACHE_ENTRIES && forall k :: k in m ==> m[k].expires > 0
  }

  /** The cache object, its map mutated in place by both operations. */
  class Cache<R> {
    const ttl: nat
    var entries: Entries<R>

    ghost predicate Valid() reads this { ttl > 0 && Bounded(entries) }

    constructor (ttl: nat)
      requires ttl > 0
      ensures Valid() && this.ttl == ttl && entries == map[]
    {
      this.ttl := ttl;
      entries := map[];
    }

    method Get(key: string, now: Instant) returns (hit: Option<R>)
      requires Valid()
      modifies this`entries
      ensures Valid()
      ensures entries == Got(old(entries), key, now).0 && hit == Got(old(entries), key, now).1
    {
      if key !in entries {
        return None;
      }
      var entry := entries[key];
      if entry.expires <= now {
        entries := entries - {key};
        RemovalShrinks(old(entries), key);
        return None;
      }
      hit := Some(entry.result);
    }

    method Put(key: string, result: R, now: Instant)
      requires Valid()
      modifies this`entries
      ensures Valid()
      ensures Puts(old(entries), key, Entry(result, now + ttl), now, entries)
      ensures key in entries && entries[key] == Entry(result, now + ttl)
    {
      PurgeExpired(now);
      ghost var live := entries;
      PurgeShrinks(old(entries), now);
      while |entries| >= MAX_CACHE_ENTRIES
        invariant Bounded(entries)
        invariant entries == live || (|entries| < MAX_CACHE_ENTRIES && |live| == MAX_CACHE_ENTRIES
                                      && exists victim :: Evicts(live, victim, entries))
        decreases |entries|
      {
        var oldest := FindSoonest();
        RemovalShrinks(entries, oldest);
        assert Evicts(entries, oldest, entries - {oldest});
        entries := entries - {oldest};
      }
      if entries != live {
        var victim :| Evicts(live, victim, entries);
        assert Evicts(live, victim, live - {victim});
      }
      InsertionGrows(entries, key, Entry(result, now + ttl));
      entries := entries[key := Entry(result, now + ttl)];
    }

    /** The purge loop: keys are visited in whatever order the map yields them. */
    method PurgeExpired(now: Instant)
      modifies this`entries
      ensures entries == Purged(old(entries), now)
    {
      var unseen := entries.Keys;
      while unseen != {}
        invariant unseen <= entries.Keys <= old(entries).Keys
        invariant forall k :: k in entries ==> entries[k] == old(entries)[k] && (k in unseen || Live(entries[k], now))
        invariant forall k :: k in old(entries) && Live(old(entries)[k], now) ==> k in entries
        decreases |unseen|
      {
        var k :| k in unseen;
        unseen := unseen - {k};
        if entries[k].expires <= now {
          entries := entries - {k};
        }
      }
    }

    /** The inner scan: `found` starts at the zero time, which no entry's expiry equals. */
    method FindSoonest() returns (oldest: string)
      requires Bounded(entries) && |entries| > 0
      ensures Soonest(entries, oldest)
    {
      var found: Instant := 0;
      oldest := "";
      var unseen := entries.Keys;
      assert |unseen| == |entries|;
      while unseen != {}
        invariant unseen <= entries.Keys
        invariant found == 0 ==> unseen == entries.Keys
        invariant found != 0 ==> oldest in entries && entries[oldest].expires == found
        invariant found != 0 ==> forall k :: k in entries && k !in unseen ==> found <= entries[k].expires
        decreases |unseen|
      {
        var k :| k in unseen;
        unseen := unseen - {k};
        if found == 0 || entries[k].expires < found {
          oldest, found := k, entries[k].expires;
        }
      }
    }
  }

  lemma RemovalShrinks<R>(m: Entries<R>, key: string)
    requires key in m
    ensures |m - {key}| == |m| - 1
  {
    assert (m - {key}).Keys == m.Keys - {key};
    assert |m.Keys| == |m| && |(m - {key}).Keys| == |m - {key}|;
  }

  lemma InsertionGrows<R>(m: Entries<R>, key: string, e: Entry<R>)
    ensures |m[key := e]| <= |m| + 1
  {
    assert m[key := e].Keys == m.Keys + {key};
    assert |m.Keys| == |m| && |m[key := e].Keys| == |m[key := e]|;
  }

  lemma PurgeShrinks<R>(m: Entries<R>, now: Instant)
    ensures |Purged(m, now)| <= |m|
  {
    SubsetNoLarger(Purged(m, now).Keys, m.Keys);
    assert |m.Keys| == |m| && |Purged(m, now).Keys| == |Purged(m, now)|;
  }

  lemma SubsetNoLarger<T>(a: set<T>, b: set<T>)
    requires a <= b
    ensures |a| <= |b|
  {
    assert b == a + (b - a);
    assert |b| == |a| + |b - a|;
  }

  // ---------------------------------------------------------------- histories

  /** One thing that happens while the cache lives; `Idle` is anything that leaves it alone. */
  datatype Op<R> = GetOp(key: string, now: Instant) | PutOp(key: string, result: R, now: Instant) | Idle

  ghost predicate Steps<R>(ttl: nat, m: Entries<R>, op: Op<R>, after: Entries<R>) {
    match op
    case GetOp(key, now) => after == Got(m, key, now).0
    case PutOp(key, result, now) => Puts(m, key, Entry(result, now + ttl), now, after)
    case Idle => after == m
  }

  /** `states` is a history of `ops` on one cache, calls from any number of handlers serialised by its lock. */
  ghost predicate StepAt<R>(ttl: nat, states: seq<Entries<R>>, ops: seq<Op<R>>, i: nat)
    requires i < |ops| && |states| == |ops| + 1
  {
    Steps(ttl, states[i], ops[i], states[i + 1])
  }

  ghost predicate History<R>(ttl: nat, states: seq<Entries<R>>, ops: seq<Op<R>>) {
    |states| == |ops| + 1 && forall i :: 0 <= i < |ops| ==> StepAt(ttl, states, ops, i)
  }

  lemma PutsBounded<R>(m: Entries<R>, key: string, e: Entry<R>, now: Instant, after: Entries<R>)
    requires Bounded(m) && e.expires > 0 && Puts(m, key, e, now, after)
    ensures Bounded(after) && key in after && after[key] == e
  {
    var live := Purged(m, now);
    PurgeShrinks(m, now);
    if |live| < MAX_CACHE_ENTRIES {
      InsertionGrows(live, key, e);
    } else {
      var victim :| Evicts(live, victim, live - {victim}) && after == (live - {victim})[key := e];
      RemovalShrinks(live, victim);
      InsertionGrows(live - {victim}, key, e);
    }
  }

  /** Every history keeps the map within its bound, and every put leaves its key with a full window. */
  lemma {:induction false} HistoryBounded<R>(ttl: nat, states: seq<Entries<R>>, ops: seq<Op<R>>, n: nat)
    requires ttl > 0 && History(ttl, states, ops) && Bounded(states[0]) && n <= |ops|
    ensures Bounded(states[n]) && |states[n]| <= 256
    ensures n > 0 && ops[n - 1].PutOp? ==>
      ops[n - 1].key in states[n] && states[n][ops[n - 1].key] == Entry(ops[n - 1].result, ops[n - 1].now + ttl)
  {
    if n > 0 {
      HistoryBounded(ttl, states, ops, n - 1);
      assert StepAt(ttl, states, ops, n - 1);
      StepBounded(ttl, states[n - 1], ops[n - 1], states[n]);
    }
  }

  lemma StepBounded<R>(ttl: nat, m: Entries<R>, op: Op<R>, after: Entries<R>)
    requires ttl > 0 && Bounded(m) && Steps(ttl, m, op, after)
    ensures Bounded(after)
    ensures op.PutOp? ==> op.key in after && after[op.key] == Entry(op.result, op.now + ttl)
  {
    match op
    case GetOp(key, now) =>
      if key in m { RemovalShrinks(m, key); }
    case PutOp(key, result, now) =>
      PutsBounded(m, key, Entry(result, now + ttl), now, after);
    case Idle =>
  }

  function PutKey<R>(op: Op<R>): set<string> { if op.PutOp? then {op.key} else {} }

  /** Keys put at positions `from <= i < to`. */
  function PutKeys<R>(ops: seq<Op<R>>, from: nat, to: nat): set<string>
    requires from <= to <= |ops|
  {
    if to == from then {} else PutKeys(ops, from, to - 1) + PutKey(ops[to - 1])
  }

  /** Put times strictly increase along the history. */
  ghost predicate PutTimesIncrease<R>(ops: seq<Op<R>>) {
    forall i, j :: 0 <= i < j < |ops| && ops[i].PutOp? && ops[j].PutOp? ==> ops[i].now < ops[j].now
  }

  /** `key` still holds its entry, and every other entry expiring no sooner was put by a later call. */
  ghost predicate NewerAreLater<R>(m: Entries<R>, key: string, deadline: Instant, later: set<string>) {
    && key in m && m[key].expires == deadline
    && forall k :: k in m && k != key && m[k].expires >= deadline ==> k in later
  }

  lemma AtLeastOthers(live: set<string>, key: string, others: set<string>)
    requires key in live && live - {key} <= others
    ensures |others| >= |live| - 1
  {
    SubsetNoLarger(live - {key}, others);
    assert |live - {key}| == |live| - 1;
  }

  lemma PutKeepsOrCrowdsOut<R>(m: Entries<R>, key: string, deadline: Instant, later: set<string>,
                               other: string, e: Entry<R>, now: Instant, after: Entries<R>)
    requires NewerAreLater(m, key, deadline, later) && now < deadline && other != key
    requires Puts(m, other, e, now, after)
    ensures NewerAreLater(after, key, deadline, later + {other}) || |later - {key}| >= MAX_CACHE_ENTRIES - 1
  {
    var live := Purged(m, now);
    assert NewerAreLater(live, key, deadline, later);
    if |live| >= MAX_CACHE_ENTRIES {
      var victim :| Evicts(live, victim, live - {victim}) && after == (live - {victim})[other := e];
      if victim == key {
        assert forall k :: k in live && k != key ==> k in later;
        AtLeastOthers(live.Keys, key, later - {key});
        assert |live.Keys| == |live|;
      }
    }
  }

  /** The entry is there, and newer than all but later puts; or others have crowded it out. */
  ghost predicate Survives<R>(m: Entries<R>, key: string, deadline: Instant, later: set<string>) {
    NewerAreLater(m, key, deadline, later) || |later - {key}| >= MAX_CACHE_ENTRIES - 1
  }

  lemma StepKeepsOrCrowdsOut<R>(ttl: nat, m: Entries<R>, op: Op<R>, after: Entries<R>,
                                key: string, deadline: Instant, later: set<string>)
    requires Steps(ttl, m, op, after) && Survives(m, key, deadline, later) && Before(op, deadline) && !PutsKey(op, key)
    ensures Survives(after, key, deadline, later + PutKey(op))
  {
    SubsetNoLarger(later - {key}, later + PutKey(op) - {key});
    if op.PutOp? {
      if NewerAreLater(m, key, deadline, later) {
        PutKeepsOrCrowdsOut(m, key, deadline, later, op.key, Entry(op.result, op.now + ttl), op.now, after);
      }
    }
  }

  lemma StartsNewest<R>(ttl: nat, states: seq<Entries<R>>, ops: seq<Op<R>>, i: nat)
    requires ttl > 0 && History(ttl, states, ops) && states[0] == map[] && PutTimesIncrease(ops)
    requires i < |ops| && ops[i].PutOp?
    ensures NewerAreLater(states[i + 1], ops[i].key, ops[i].now + ttl, {})
  {
    HistoryBounded(ttl, states, ops, i + 1);
    var m, key := states[i + 1], ops[i].key;
    forall k | k in m && k != key
      ensures m[k].expires < ops[i].now + ttl
    {
      var j := ExpiryIsPutTime(ttl, states, ops, i + 1, k);
    }
  }

  predicate PutsKey<R>(op: Op<R>, key: string) { op.PutOp? && op.key == key }

  /** Operation `j` is the last put of the key before `n`. */
  ghost predicate LastPut<R>(ops: seq<Op<R>>, j: nat, n: nat, key: string) {
    j < n <= |ops| && PutsKey(ops[j], key) && forall l :: j < l < n ==> !PutsKey(ops[l], key)
  }

  /** Whatever the history, an entry is the answer of the last put of its key, expiring one window after it. */
  lemma {:induction false} ExpiryIsPutTime<R>(ttl: nat, states: seq<Entries<R>>, ops: seq<Op<R>>, n: nat, key: string)
    returns (j: nat)
    requires History(ttl, states, ops) && states[0] == map[] && n <= |ops| && key in states[n]
    ensures LastPut(ops, j, n, key) && states[n][key] == Entry(ops[j].result, ops[j].now + ttl)
  {
    assert StepAt(ttl, states, ops, n - 1);
    if PutsKey(ops[n - 1], key) {
      j := n - 1;
    } else {
      j := ExpiryIsPutTime(ttl, states, ops, n - 1, key);
    }
  }

  predicate Before<R>(op: Op<R>, deadline: Instant) { op.Idle? || op.now < deadline }

  /** No put of `key`, and nothing at all once its window is over. */
  ghost predicate LeavesAlone<R>(ops: seq<Op<R>>, from: nat, to: nat, key: string, deadline: Instant) {
    forall j :: from <= j < to && j < |ops| ==> Before(ops[j], deadline) && !PutsKey(ops[j], key)
  }

  lemma {:induction false} SurvivesUntilCrowdedOut<R>(ttl: nat, states: seq<Entries<R>>, ops: seq<Op<R>>, i: nat, n: nat,
                                                      key: string, deadline: Instant)
    requires History(ttl, states, ops) && i <= n <= |ops|
    requires NewerAreLater(states[i], key, deadline, {}) && LeavesAlone(ops, i, n, key, deadline)
    ensures Survives(states[n], key, deadline, PutKeys(ops, i, n))
    decreases n
  {
    if n > i {
      var op := ops[n - 1];
      assert StepAt(ttl, states, ops, n - 1) && Before(op, deadline) && !PutsKey(op, key);
      SurvivesUntilCrowdedOut(ttl, states, ops, i, n - 1, key, deadline);
      StepKeepsOrCrowdsOut(ttl, states[n - 1], op, states[n], key, deadline, PutKeys(ops, i, n - 1));
    }
  }

  /** With strictly increasing put times, an entry still inside its window and not put again leaves the
      cache only after at least 255 other keys were put. */
  lemma {:induction false} LostOnlyAfter255Others<R>(ttl: nat, states: seq<Entries<R>>, ops: seq<Op<R>>, i: nat, n: nat)
    requires ttl > 0 && History(ttl, states, ops) && states[0] == map[] && PutTimesIncrease(ops)
    requires i < n <= |ops| && ops[i].PutOp? && LeavesAlone(ops, i + 1, n, ops[i].key, ops[i].now + ttl)
    requires ops[i].key !in states[n]
    ensures |PutKeys(ops, i + 1, n) - {ops[i].key}| >= 255
  {
    var key, deadline, from := ops[i].key, ops[i].now + ttl, i + 1;
    StartsNewest(ttl, states, ops, i);
    SurvivesUntilCrowdedOut(ttl, states, ops, from, n, key, deadline);
  }

  /** A get that hits gives the answer of the last put of its key, made less than a window before. */
  lemma HitIsLastPut<R>(ttl: nat, states: seq<Entries<R>>, ops: seq<Op<R>>, n: nat, key: string, now: Instant) returns (j: nat)
    requires History(ttl, states, ops) && states[0] == map[] && n <= |ops| && Got(states[n], key, now).1.Some?
    ensures LastPut(ops, j, n, key) && now < ops[j].now + ttl && Got(states[n], key, now).1.value == ops[j].result
  {
    j := ExpiryIsPutTime(ttl, states, ops, n, key);
  }

  /** And a get within a window of the last put of its key, with put times increasing, does hit, unless
      255 other keys were put in between. */
  lemma {:induction false} LastPutIsHit<R>(ttl: nat, states: seq<Entries<R>>, ops: seq<Op<R>>, i: nat, n: nat, key: string, now: Instant)
    requires ttl > 0 && History(ttl, states, ops) && states[0] == map[] && PutTimesIncrease(ops)
    requires i < n <= |ops| && PutsKey(ops[i], key) && LeavesAlone(ops, i + 1, n, key, ops[i].now + ttl)
    requires now < ops[i].now + ttl && |PutKeys(ops, i + 1, n) - {key}| < 255
    ensures Got(states[n], key, now).1 == Some(ops[i].result)
  {
    if key !in states[n] {
      LostOnlyAfter255Others(ttl, states, ops, i, n);
    } else {
      var j := ExpiryIsPutTime(ttl, states, ops, n, key);
      OnlyOneLastPut(ops, i, j, n, key, ops[i].now + ttl);
    }
  }

  lemma OnlyOneLastPut<R>(ops: seq<Op<R>>, i: nat, j: nat, n: nat, key: string, deadline: Instant)
    requires i < n <= |ops| && PutsKey(ops[i], key) && LeavesAlone(ops, i + 1, n, key, deadline) && LastPut(ops, j, n, key)
    ensures i == j
  {
    assert forall l :: i < l < n ==> !PutsKey(ops[l], key);
  }

  /** What a put leaves besides its own entry: nothing expired, every live entry while fewer than 256 are
      live, and otherwise all but one that expires no later than the rest. */
  lemma PutLeavesTheLive<R>(m: Entries<R>, key: string, e: Entry<R>, now: Instant, after: Entries<R>)
    requires Puts(m, key, e, now, after)
    ensures forall k :: k in after && k != key ==> k in m && after[k] == m[k] && now < m[k].expires
    ensures |set k | k in m && now < m[k].expires| < 256 ==> forall k :: k in m && now < m[k].expires ==> k in after
    ensures forall k, other :: k in m && now < m[k].expires && k !in after && other in m && now < m[other].expires ==>
      m[k].expires <= m[other].expires && (other != k ==> other in after)
  {
    var live := Purged(m, now);
    assert live.Keys == set k | k in m && now < m[k].expires;
    assert |live.Keys| == |live|;
  }

  /** The bound is reached by 255 others and no more: on a full map of live entries, re-putting a key
      that is already there still evicts, and a sole soonest entry is what goes. */
  lemma RefreshingAPresentKeyEvicts<R>(m: Entries<R>, oldest: string, key: string, e: Entry<R>, now: Instant, after: Entries<R>)
    requires |m| == MAX_CACHE_ENTRIES && oldest in m && key in m && key != oldest
    requires forall k :: k in m ==> Live(m[k], now)
    requires forall k :: k in m && k != oldest ==> m[oldest].expires < m[k].expires
    requires Puts(m, key, e, now, after)
    ensures oldest !in after && |after| == MAX_CACHE_ENTRIES - 1
  {
    assert Purged(m, now) == m;
    var victim :| Evicts(m, victim, m - {victim}) && after == (m - {victim})[key := e];
    assert victim == oldest;
    SwapKeepsSize(m, oldest, key, e);
  }

  lemma SwapKeepsSize<R>(m: Entries<R>, out: string, key: string, e: Entry<R>)
    requires out in m && key in m && key != out
    ensures |(m - {out})[key := e]| == |m| - 1
  {
    RemovalShrinks(m, out);
    var rest := m - {out};
    assert rest[key := e].Keys == rest.Keys;
    assert |rest[key := e].Keys| == |rest[key := e]| && |rest.Keys| == |rest|;
  }
}
