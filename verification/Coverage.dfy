/** internal/mcpserver/coverage.go: the count of every array in a payload, keyed by its dotted path.
    Each map is iterated in an order of the runtime's choosing, so the counts are a function of the
    payload and of those orders; this file says when they do not depend on the latter. */
module Coverage {
  import opened Wrappers
  import opened Text
  import opened JsonValues

  type Object = map<string, Json>

  const MAX_COUNT_DEPTH := 4

  function PathTo(prefix: string, key: string): string { if prefix != "" then prefix + "." + key else key }

  // ---------------------------------------------------------------- what there is to count

  /** `path` leads through objects only, by at most `keys` keys, to an array. */
  predicate ArrayPath(obj: Object, path: seq<string>, keys: nat)
    decreases keys
  {
    && path != [] && keys > 0 && path[0] in obj
    && if |path| == 1 then obj[path[0]].JArray?
       else obj[path[0]].JObject? && ArrayPath(obj[path[0]].fields, path[1..], keys - 1)
  }

  function LengthAt(obj: Object, path: seq<string>, keys: nat): nat
    requires ArrayPath(obj, path, keys)
    decreases keys
  {
    if |path| == 1 then |obj[path[0]].items| else LengthAt(obj[path[0]].fields, path[1..], keys - 1)
  }

  /** The key an array is counted under, below `prefix`. */
  function Dotted(prefix: string, path: seq<string>): string
    requires path != []
    decreases |path|
  {
    if |path| == 1 then PathTo(prefix, path[0]) else Dotted(PathTo(prefix, path[0]), path[1..])
  }

  ghost predicate CountedAt(obj: Object, prefix: string, keys: nat, path: seq<string>, name: string, n: nat) {
    ArrayPath(obj, path, keys) && Dotted(prefix, path) == name && LengthAt(obj, path, keys) == n
  }

  /** Some array of that length is counted under that label. */
  ghost predicate Counted(obj: Object, prefix: string, keys: nat, name: string, n: nat) {
    exists path :: CountedAt(obj, prefix, keys, path, name, n)
  }

  ghost predicate Labelled(obj: Object, prefix: string, keys: nat, name: string) {
    exists n: nat :: Counted(obj, prefix, keys, name, n)
  }

  /** `after` is `before` with the arrays of `obj` counted in: every label there is, each holding the length
      of an array it labels, and every other entry as it was. */
  ghost predicate CountsInto(obj: Object, prefix: string, keys: nat, before: map<string, nat>, after: map<string, nat>) {
    && (forall name :: name in after <==> name in before || Labelled(obj, prefix, keys, name))
    && (forall name :: name in after ==>
         if Labelled(obj, prefix, keys, name) then Counted(obj, prefix, keys, name, after[name])
         else after[name] == before[name])
  }

  // ---------------------------------------------------------------- counting

  /** One turn of the loop over a map: the key it yields, and the order its value is then iterated in. */
  datatype Visit = Visit(key: string, inner: seq<Visit>)

  ghost predicate Visits(visits: seq<Visit>, key: string) { exists i :: 0 <= i < |visits| && visits[i].key == key }

  /** The keys come once each. */
  ghost predicate Enumerates(visits: seq<Visit>, among: set<string>) {
    && (forall i, j :: 0 <= i < j < |visits| ==> visits[i].key != visits[j].key)
    && (forall i :: 0 <= i < |visits| ==> visits[i].key in among)
    && (forall key :: key in among ==> Visits(visits, key))
  }

  /** The value visited, when it is an object the walk descends into, is iterated in some order too. */
  ghost predicate InnerOrdered(v: Visit, obj: Object, keys: nat)
    decreases keys, 0
  {
    v.key in obj && obj[v.key].JObject? && keys > 1 ==> Ordered(v.inner, obj[v.key].fields, keys - 1)
  }

  /** An order in which the runtime may walk the object, `keys` levels deep. */
  ghost predicate Ordered(visits: seq<Visit>, obj: Object, keys: nat)
    decreases keys, 1
  {
    Enumerates(visits, obj.Keys) && forall i :: 0 <= i < |visits| ==> InnerOrdered(visits[i], obj, keys)
  }

  function CountOne(obj: Object, prefix: string, keys: nat, v: Visit, counts: map<string, nat>): map<string, nat>
    decreases keys, 0
  {
    if v.key !in obj then counts
    else
      match obj[v.key]
      case JArray(items) => counts[PathTo(prefix, v.key) := |items|]
      case JObject(fields) => if keys > 1 then CountVisits(fields, PathTo(prefix, v.key), keys - 1, v.inner, counts) else counts
      case _ => counts
  }

  /** The counts after the loop has made these visits. */
  function CountVisits(obj: Object, prefix: string, keys: nat, visits: seq<Visit>, counts: map<string, nat>): map<string, nat>
    decreases keys, 1, |visits|
  {
    if visits == [] then counts
    else
      var n := |visits| - 1;
      CountOne(obj, prefix, keys, visits[n], CountVisits(obj, prefix, keys, visits[..n], counts))
  }

  class Counts {
    var entries: map<string, nat>

    constructor ()
      ensures entries == map[]
    {
      entries := map[];
    }
  }

  /** The recursion, reporting the order the runtime happened to choose. */
  method CollectArrayCounts(obj: Object, prefix: string, depth: nat, counts: Counts) returns (ghost visits: seq<Visit>)
    requires 1 <= depth <= MAX_COUNT_DEPTH
    modifies counts
    ensures Ordered(visits, obj, MAX_COUNT_DEPTH + 1 - depth)
    ensures counts.entries == CountVisits(obj, prefix, MAX_COUNT_DEPTH + 1 - depth, visits, old(counts.entries))
    decreases MAX_COUNT_DEPTH - depth
  {
    ghost var keys, before := MAX_COUNT_DEPTH + 1 - depth, counts.entries;
    visits := [];
    var unseen := obj.Keys;
    while unseen != {}
      invariant OrderedSoFar(visits, obj, keys, unseen)
      invariant counts.entries == CountVisits(obj, prefix, keys, visits, before)
      decreases |unseen|
    {
      var key :| key in unseen;
      var path := PathTo(prefix, key);
      ghost var inner: seq<Visit> := [];
      match obj[key] {
        case JArray(items) =>
          counts.entries := counts.entries[path := |items|];
        case JObject(fields) =>
          if depth < MAX_COUNT_DEPTH {
            inner := CollectArrayCounts(fields, path, depth + 1, counts);
          }
        case _ =>
      }
      OneMoreVisit(obj, prefix, keys, visits, Visit(key, inner), unseen, before);
      unseen := unseen - {key};
      visits := visits + [Visit(key, inner)];
    }
    assert obj.Keys - unseen == obj.Keys;
  }

  /** The visits made so far are the start of an order. */
  ghost predicate OrderedSoFar(visits: seq<Visit>, obj: Object, keys: nat, unseen: set<string>) {
    && unseen <= obj.Keys && Enumerates(visits, obj.Keys - unseen)
    && forall i :: 0 <= i < |visits| ==> InnerOrdered(visits[i], obj, keys)
  }

  lemma {:induction false} OneMoreVisit(obj: Object, prefix: string, keys: nat, visits: seq<Visit>, v: Visit,
                                        unseen: set<string>, before: map<string, nat>)
    requires OrderedSoFar(visits, obj, keys, unseen) && v.key in unseen && InnerOrdered(v, obj, keys)
    ensures OrderedSoFar(visits + [v], obj, keys, unseen - {v.key})
    ensures CountVisits(obj, prefix, keys, visits + [v], before)
            == CountOne(obj, prefix, keys, v, CountVisits(obj, prefix, keys, visits, before))
  {
    EnumeratesOneMore(visits, obj.Keys - unseen, v);
    assert obj.Keys - unseen + {v.key} == obj.Keys - (unseen - {v.key});
    assert (visits + [v])[..|visits|] == visits;
  }

  lemma EnumeratesOneMore(visits: seq<Visit>, among: set<string>, v: Visit)
    requires Enumerates(visits, among) && v.key !in among
    ensures Enumerates(visits + [v], among + {v.key})
  {
    var more := visits + [v];
    forall key | key in among + {v.key} ensures Visits(more, key) {
      if key == v.key {
        assert more[|visits|].key == key;
      } else {
        var i :| 0 <= i < |visits| && visits[i].key == key;
        assert more[i].key == key;
      }
    }
  }

  /** What a payload's coverage block counts under an order: nothing is an empty map. */
  function CountsUnder(result: Json, order: seq<Visit>): map<string, nat> {
    match result
    case JArray(items) => map["result" := |items|]
    case JObject(fields) => CountVisits(fields, "", MAX_COUNT_DEPTH, order, map[])
    case _ => map[]
  }

  /** The counts some order gives. */
  ghost predicate CountsInSomeOrder(result: Json, counts: map<string, nat>) {
    exists order :: (result.JObject? ==> Ordered(order, result.fields, MAX_COUNT_DEPTH)) && counts == CountsUnder(result, order)
  }

  method CountArrays(result: Json) returns (counts: map<string, nat>)
    ensures CountsInSomeOrder(result, counts)
  {
    ghost var order: seq<Visit> := [];
    match result {
      case JArray(items) => counts := map["result" := |items|];
      case JObject(fields) =>
        var collected := new Counts();
        order := CollectArrayCounts(fields, "", 1, collected);
        counts := collected.entries;
      case _ => counts := map[];
    }
    assert counts == CountsUnder(result, order);
  }

  /** A payload that is no object: an array counts once, under `result`, and anything else not at all. */
  lemma OtherPayloads(result: Json, order: seq<Visit>, name: string)
    requires !result.JObject?
    ensures name in CountsUnder(result, order) <==> result.JArray? && name == "result"
    ensures result.JArray? ==> CountsUnder(result, order)["result"] == |result.items|
  {
  }

  // ---------------------------------------------------------------- what every order agrees on

  lemma NothingCounts(prefix: string, keys: nat, before: map<string, nat>)
    ensures CountsInto(map[], prefix, keys, before, before)
  {
  }

  /** Paths of an extended object: the old ones, and those that start with the new key. */
  lemma ExtendedPaths(done: Object, key: string, value: Json, path: seq<string>, keys: nat)
    requires key !in done
    ensures var more := done[key := value];
            && (path != [] && path[0] != key ==> (ArrayPath(more, path, keys) <==> ArrayPath(done, path, keys)))
            && (path != [] && path[0] != key && ArrayPath(done, path, keys) ==> LengthAt(more, path, keys) == LengthAt(done, path, keys))
            && (path != [] && path[0] == key ==> !ArrayPath(done, path, keys))
  {
  }

  /** What one new key contributes to a label. */
  ghost predicate Adds(key: string, value: Json, prefix: string, keys: nat, name: string, n: nat) {
    match value
    case JArray(items) => keys > 0 && name == PathTo(prefix, key) && n == |items|
    case JObject(fields) => keys > 0 && Counted(fields, PathTo(prefix, key), keys - 1, name, n)
    case _ => false
  }

  lemma ExtendedCounts(done: Object, key: string, value: Json, prefix: string, keys: nat, name: string, n: nat)
    requires key !in done
    ensures Counted(done[key := value], prefix, keys, name, n)
            <==> Counted(done, prefix, keys, name, n) || Adds(key, value, prefix, keys, name, n)
  {
    var more := done[key := value];
    if Counted(more, prefix, keys, name, n) {
      var path :| CountedAt(more, prefix, keys, path, name, n);
      ExtendedPaths(done, key, value, path, keys);
      if path[0] != key {
        assert CountedAt(done, prefix, keys, path, name, n);
      } else if |path| > 1 {
        assert CountedAt(value.fields, PathTo(prefix, key), keys - 1, path[1..], name, n);
      }
    }
    if Counted(done, prefix, keys, name, n) {
      var path :| CountedAt(done, prefix, keys, path, name, n);
      ExtendedPaths(done, key, value, path, keys);
      assert CountedAt(more, prefix, keys, path, name, n);
    }
    if Adds(key, value, prefix, keys, name, n) {
      if value.JArray? {
        assert CountedAt(more, prefix, keys, [key], name, n);
      } else {
        var rest :| CountedAt(value.fields, PathTo(prefix, key), keys - 1, rest, name, n);
        assert ([key] + rest)[1..] == rest;
        assert CountedAt(more, prefix, keys, [key] + rest, name, n);
      }
    }
  }

  ghost predicate AddsLabel(key: string, value: Json, prefix: string, keys: nat, name: string) {
    exists n: nat :: Adds(key, value, prefix, keys, name, n)
  }

  lemma ExtendedLabels(done: Object, key: string, value: Json, prefix: string, keys: nat, name: string)
    requires key !in done
    ensures Labelled(done[key := value], prefix, keys, name)
            <==> Labelled(done, prefix, keys, name) || AddsLabel(key, value, prefix, keys, name)
  {
    var more := done[key := value];
    if Labelled(more, prefix, keys, name) {
      var n: nat :| Counted(more, prefix, keys, name, n);
      ExtendedCounts(done, key, value, prefix, keys, name, n);
    }
    if Labelled(done, prefix, keys, name) {
      var n: nat :| Counted(done, prefix, keys, name, n);
      ExtendedCounts(done, key, value, prefix, keys, name, n);
    }
    if AddsLabel(key, value, prefix, keys, name) {
      var n: nat :| Adds(key, value, prefix, keys, name, n);
      ExtendedCounts(done, key, value, prefix, keys, name, n);
    }
  }

  /** Counting one more key in carries the contract from the keys done to those and it. */
  lemma KeyCountsIn(done: Object, key: string, value: Json, prefix: string, keys: nat,
                    before: map<string, nat>, soFar: map<string, nat>, after: map<string, nat>)
    requires key !in done && CountsInto(done, prefix, keys, before, soFar)
    requires forall name :: name in after <==> name in soFar || AddsLabel(key, value, prefix, keys, name)
    requires forall name :: name in after ==>
      if AddsLabel(key, value, prefix, keys, name) then Adds(key, value, prefix, keys, name, after[name])
      else after[name] == soFar[name]
    ensures CountsInto(done[key := value], prefix, keys, before, after)
  {
    var more := done[key := value];
    forall name
      ensures name in after <==> name in before || Labelled(more, prefix, keys, name)
      ensures name in after ==>
        if Labelled(more, prefix, keys, name) then Counted(more, prefix, keys, name, after[name]) else after[name] == before[name]
    {
      ExtendedLabels(done, key, value, prefix, keys, name);
      if name in after { ExtendedCounts(done, key, value, prefix, keys, name, after[name]); }
    }
  }

  lemma ScalarAddsNothing(done: Object, key: string, value: Json, prefix: string, keys: nat, before: map<string, nat>, soFar: map<string, nat>)
    requires key !in done && !value.JArray? && !value.JObject? && CountsInto(done, prefix, keys, before, soFar)
    ensures CountsInto(done[key := value], prefix, keys, before, soFar)
  {
    KeyCountsIn(done, key, value, prefix, keys, before, soFar, soFar);
  }

  lemma DeepObjectAddsNothing(done: Object, key: string, fields: Object, prefix: string, before: map<string, nat>, soFar: map<string, nat>)
    requires key !in done && CountsInto(done, prefix, 1, before, soFar)
    ensures CountsInto(done[key := JObject(fields)], prefix, 1, before, soFar)
  {
    KeyCountsIn(done, key, JObject(fields), prefix, 1, before, soFar, soFar);
  }

  lemma ArrayCountsIn(done: Object, key: string, items: seq<Json>, prefix: string, keys: nat, before: map<string, nat>, soFar: map<string, nat>)
    requires key !in done && keys > 0 && CountsInto(done, prefix, keys, before, soFar)
    ensures CountsInto(done[key := JArray(items)], prefix, keys, before, soFar[PathTo(prefix, key) := |items|])
  {
    assert Adds(key, JArray(items), prefix, keys, PathTo(prefix, key), |items|);
    KeyCountsIn(done, key, JArray(items), prefix, keys, before, soFar, soFar[PathTo(prefix, key) := |items|]);
  }

  lemma ObjectCountsIn(done: Object, key: string, fields: Object, prefix: string, keys: nat,
                       before: map<string, nat>, soFar: map<string, nat>, after: map<string, nat>)
    requires key !in done && keys > 0 && CountsInto(done, prefix, keys, before, soFar)
    requires CountsInto(fields, PathTo(prefix, key), keys - 1, soFar, after)
    ensures CountsInto(done[key := JObject(fields)], prefix, keys, before, after)
  {
    forall name
      ensures AddsLabel(key, JObject(fields), prefix, keys, name) <==> Labelled(fields, PathTo(prefix, key), keys - 1, name)
    {
      if Labelled(fields, PathTo(prefix, key), keys - 1, name) {
        var n: nat :| Counted(fields, PathTo(prefix, key), keys - 1, name, n);
        assert Adds(key, JObject(fields), prefix, keys, name, n);
      }
    }
    KeyCountsIn(done, key, JObject(fields), prefix, keys, before, soFar, after);
  }

  /** The part of an object that some visits have covered. */
  ghost function Covered(obj: Object, visits: seq<Visit>): Object { map key | key in obj && Visits(visits, key) :: obj[key] }

  /** Whatever the order, every label of an array within depth gets the length of an array it labels. */
  lemma {:induction false} OrderCountsInto(obj: Object, prefix: string, keys: nat, visits: seq<Visit>, before: map<string, nat>)
    requires keys > 0 && Ordered(visits, obj, keys)
    ensures CountsInto(obj, prefix, keys, before, CountVisits(obj, prefix, keys, visits, before))
    decreases keys, |visits| + 1
  {
    SomeVisitsCountInto(obj, prefix, keys, visits, before, |visits|);
    assert visits[..|visits|] == visits && Covered(obj, visits) == obj;
  }

  lemma {:induction false} SomeVisitsCountInto(obj: Object, prefix: string, keys: nat, visits: seq<Visit>, before: map<string, nat>, n: nat)
    requires keys > 0 && Ordered(visits, obj, keys) && n <= |visits|
    ensures CountsInto(Covered(obj, visits[..n]), prefix, keys, before, CountVisits(obj, prefix, keys, visits[..n], before))
    decreases keys, n
  {
    if n == 0 {
      assert Covered(obj, visits[..0]) == map[];
      NothingCounts(prefix, keys, before);
    } else {
      SomeVisitsCountInto(obj, prefix, keys, visits, before, n - 1);
      assert visits[..n][..n - 1] == visits[..n - 1];
      CoversOneMore(obj, visits, n);
      VisitCountsIn(obj, prefix, keys, visits, n, before);
    }
  }

  lemma CoversOneMore(obj: Object, visits: seq<Visit>, n: nat)
    requires Enumerates(visits, obj.Keys) && 0 < n <= |visits|
    ensures var key := visits[n - 1].key;
            && key in obj && key !in Covered(obj, visits[..n - 1])
            && Covered(obj, visits[..n]) == Covered(obj, visits[..n - 1])[key := obj[key]]
  {
    var key := visits[n - 1].key;
    assert visits[..n][n - 1].key == key;
    forall k ensures Visits(visits[..n], k) <==> Visits(visits[..n - 1], k) || k == key {
      if Visits(visits[..n - 1], k) {
        var i :| 0 <= i < n - 1 && visits[..n - 1][i].key == k;
        assert visits[..n][i].key == k;
      }
    }
  }

  lemma VisitCountsIn(obj: Object, prefix: string, keys: nat, visits: seq<Visit>, n: nat, before: map<string, nat>)
    requires keys > 0 && Ordered(visits, obj, keys) && 0 < n <= |visits|
    requires visits[n - 1].key !in Covered(obj, visits[..n - 1])
    requires CountsInto(Covered(obj, visits[..n - 1]), prefix, keys, before, CountVisits(obj, prefix, keys, visits[..n - 1], before))
    ensures var v, soFar := visits[n - 1], CountVisits(obj, prefix, keys, visits[..n - 1], before);
            && v.key in obj
            && CountsInto(Covered(obj, visits[..n - 1])[v.key := obj[v.key]], prefix, keys, before, CountOne(obj, prefix, keys, v, soFar))
    decreases keys, 0
  {
    var v, done, soFar := visits[n - 1], Covered(obj, visits[..n - 1]), CountVisits(obj, prefix, keys, visits[..n - 1], before);
    match obj[v.key] {
      case JArray(items) => ArrayCountsIn(done, v.key, items, prefix, keys, before, soFar);
      case JObject(fields) =>
        if keys > 1 {
          assert InnerOrdered(v, obj, keys);
          OrderCountsInto(fields, PathTo(prefix, v.key), keys - 1, v.inner, soFar);
          ObjectCountsIn(done, v.key, fields, prefix, keys, before, soFar, CountOne(obj, prefix, keys, v, soFar));
        } else {
          DeepObjectAddsNothing(done, v.key, fields, prefix, before, soFar);
        }
      case _ => ScalarAddsNothing(done, v.key, obj[v.key], prefix, keys, before, soFar);
    }
  }

  // ---------------------------------------------------------------- when labels tell paths apart

  predicate Plain(path: seq<string>) { forall i :: 0 <= i < |path| ==> path[i] != "" && '.' !in path[i] }

  function JoinDots(path: seq<string>): string
    requires path != []
  {
    if |path| == 1 then path[0] else path[0] + "." + JoinDots(path[1..])
  }

  lemma {:induction false} DottedJoins(prefix: string, path: seq<string>)
    requires path != [] && Plain(path)
    ensures Dotted(prefix, path) == PathTo(prefix, JoinDots(path)) && JoinDots(path) != ""
    decreases |path|
  {
    if |path| > 1 {
      DottedJoins(PathTo(prefix, path[0]), path[1..]);
      assert prefix + "." + path[0] + "." + JoinDots(path[1..]) == prefix + "." + (path[0] + "." + JoinDots(path[1..]));
    }
  }

  lemma {:induction false} JoinDotsInjective(p: seq<string>, q: seq<string>)
    requires p != [] && q != [] && Plain(p) && Plain(q) && JoinDots(p) == JoinDots(q)
    ensures p == q
    decreases |p|
  {
    JoinDotsCut(p);
    JoinDotsCut(q);
    if |p| > 1 {
      JoinDotsInjective(p[1..], q[1..]);
      assert p == [p[0]] + p[1..] && q == [q[0]] + q[1..];
    }
  }

  lemma {:induction false} JoinDotsCut(p: seq<string>)
    requires p != [] && Plain(p)
    ensures Cut(JoinDots(p), '.') == if |p| == 1 then None else Some((p[0], JoinDots(p[1..])))
  {
    if |p| == 1 {
      CutSplits(p[0], '.');
    } else {
      assert JoinDots(p) == p[0] + ['.'] + JoinDots(p[1..]);
      CutAtFirst(p[0], '.', JoinDots(p[1..]));
    }
  }

  /** Every key on the way to a counted array is non-empty and free of dots. */
  ghost predicate PlainKeys(obj: Object) {
    forall path :: ArrayPath(obj, path, MAX_COUNT_DEPTH) ==> Plain(path)
  }

  lemma {:induction false} PlainPathIsCounted(obj: Object, counts: map<string, nat>, path: seq<string>)
    requires PlainKeys(obj) && CountsInto(obj, "", MAX_COUNT_DEPTH, map[], counts) && ArrayPath(obj, path, MAX_COUNT_DEPTH)
    ensures JoinDots(path) in counts && counts[JoinDots(path)] == LengthAt(obj, path, MAX_COUNT_DEPTH)
  {
    var name, length := JoinDots(path), LengthAt(obj, path, MAX_COUNT_DEPTH);
    DottedJoins("", path);
    assert CountedAt(obj, "", MAX_COUNT_DEPTH, path, name, length);
    assert Counted(obj, "", MAX_COUNT_DEPTH, name, length);
    assert Labelled(obj, "", MAX_COUNT_DEPTH, name);
    var other :| CountedAt(obj, "", MAX_COUNT_DEPTH, other, name, counts[name]);
    DottedJoins("", other);
    JoinDotsInjective(path, other);
  }

  lemma PlainLabelIsAPath(obj: Object, counts: map<string, nat>, name: string) returns (path: seq<string>)
    requires PlainKeys(obj) && CountsInto(obj, "", MAX_COUNT_DEPTH, map[], counts) && name in counts
    ensures ArrayPath(obj, path, MAX_COUNT_DEPTH) && JoinDots(path) == name
  {
    assert Labelled(obj, "", MAX_COUNT_DEPTH, name);
    path :| CountedAt(obj, "", MAX_COUNT_DEPTH, path, name, counts[name]);
    DottedJoins("", path);
  }

  /** Counted paths have at most four keys. */
  lemma {:induction false} CountedPathsAreShort(obj: Object, path: seq<string>, keys: nat)
    requires ArrayPath(obj, path, keys)
    ensures 1 <= |path| <= keys && MAX_COUNT_DEPTH == 4
    decreases keys
  {
    if |path| > 1 { CountedPathsAreShort(obj[path[0]].fields, path[1..], keys - 1); }
  }

  ghost predicate HasItsCount(obj: Object, counts: map<string, nat>, path: seq<string>)
    requires ArrayPath(obj, path, MAX_COUNT_DEPTH)
  {
    JoinDots(path) in counts && counts[JoinDots(path)] == LengthAt(obj, path, MAX_COUNT_DEPTH)
  }

  ghost predicate LabelOfPath(obj: Object, name: string, path: seq<string>) {
    ArrayPath(obj, path, MAX_COUNT_DEPTH) && JoinDots(path) == name
  }

  /** On an object with plain keys the counts are exact whatever the order: each object-only path of at
      most four keys that ends at an array has its own entry, holding that array's length, and there are
      no others. */
  lemma {:induction false} PlainCountsAreExact(obj: Object, order: seq<Visit>)
    requires PlainKeys(obj) && Ordered(order, obj, MAX_COUNT_DEPTH)
    ensures var counts := CountsUnder(JObject(obj), order);
            && (forall path :: ArrayPath(obj, path, MAX_COUNT_DEPTH) ==> HasItsCount(obj, counts, path))
            && (forall name :: name in counts ==> exists path :: LabelOfPath(obj, name, path))
  {
    var counts := CountsUnder(JObject(obj), order);
    OrderCountsInto(obj, "", MAX_COUNT_DEPTH, order, map[]);
    forall path | ArrayPath(obj, path, MAX_COUNT_DEPTH) ensures HasItsCount(obj, counts, path) {
      PlainPathIsCounted(obj, counts, path);
    }
    forall name | name in counts ensures exists path :: LabelOfPath(obj, name, path) {
      var path := PlainLabelIsAPath(obj, counts, name);
      assert LabelOfPath(obj, name, path);
    }
  }

  // ---------------------------------------------------------------- when the order shows

  /** Any set of keys can come in some order. */
  lemma {:induction false} SomeOrder(obj: Object, among: set<string>, keys: nat) returns (visits: seq<Visit>)
    requires among <= obj.Keys
    ensures Enumerates(visits, among) && forall i :: 0 <= i < |visits| ==> InnerOrdered(visits[i], obj, keys)
    decreases keys, among
  {
    visits := [];
    if key :| key in among {
      var rest := SomeOrder(obj, among - {key}, keys);
      var inner: seq<Visit> := [];
      if obj[key].JObject? && keys > 1 {
        inner := SomeOrder(obj[key].fields, obj[key].fields.Keys, keys - 1);
      }
      EnumeratesOneMore(rest, among - {key}, Visit(key, inner));
      assert among - {key} + {key} == among;
      visits := rest + [Visit(key, inner)];
    }
  }

  /** The array at the end of any counted path can be the last one written, so its length can stand. */
  lemma {:induction false} CountedLast(obj: Object, prefix: string, keys: nat, path: seq<string>, before: map<string, nat>)
    returns (visits: seq<Visit>)
    requires ArrayPath(obj, path, keys)
    ensures Ordered(visits, obj, keys)
    ensures var counts := CountVisits(obj, prefix, keys, visits, before);
            Dotted(prefix, path) in counts && counts[Dotted(prefix, path)] == LengthAt(obj, path, keys)
    decreases keys
  {
    var key := path[0];
    var rest := SomeOrder(obj, obj.Keys - {key}, keys);
    var inner: seq<Visit> := [];
    if |path| > 1 {
      inner := CountedLast(obj[key].fields, PathTo(prefix, key), keys - 1, path[1..], CountVisits(obj, prefix, keys, rest, before));
    }
    visits := rest + [Visit(key, inner)];
    OneMoreVisit(obj, prefix, keys, rest, Visit(key, inner), {key}, before);
    assert obj.Keys - ({key} - {key}) == obj.Keys;
    LastCountStands(obj, prefix, keys, path, Visit(key, inner), CountVisits(obj, prefix, keys, rest, before));
  }

  lemma {:induction false} LastCountStands(obj: Object, prefix: string, keys: nat, path: seq<string>, v: Visit, soFar: map<string, nat>)
    requires ArrayPath(obj, path, keys) && v.key == path[0]
    requires |path| > 1 ==>
      var counts := CountVisits(obj[v.key].fields, PathTo(prefix, v.key), keys - 1, v.inner, soFar);
      && Dotted(PathTo(prefix, v.key), path[1..]) in counts
      && counts[Dotted(PathTo(prefix, v.key), path[1..])] == LengthAt(obj[v.key].fields, path[1..], keys - 1)
    ensures var counts := CountOne(obj, prefix, keys, v, soFar);
            Dotted(prefix, path) in counts && counts[Dotted(prefix, path)] == LengthAt(obj, path, keys)
  {
  }

  /** The label comes out with this count under some order. */
  ghost predicate CanCount(obj: Object, name: string, n: nat) {
    exists order :: CountsAs(obj, name, n, order)
  }

  ghost predicate CountsAs(obj: Object, name: string, n: nat, order: seq<Visit>) {
    Ordered(order, obj, MAX_COUNT_DEPTH)
    && var counts := CountsUnder(JObject(obj), order); name in counts && counts[name] == n
  }

  /** A label can come out as a number exactly when some array it labels has that length. */
  lemma CanCountIff(obj: Object, name: string, n: nat)
    ensures CanCount(obj, name, n) <==> Counted(obj, "", MAX_COUNT_DEPTH, name, n)
  {
    if CanCount(obj, name, n) {
      var order :| CountsAs(obj, name, n, order);
      OrderCountsInto(obj, "", MAX_COUNT_DEPTH, order, map[]);
    }
    if Counted(obj, "", MAX_COUNT_DEPTH, name, n) {
      var path :| CountedAt(obj, "", MAX_COUNT_DEPTH, path, name, n);
      var order := CountedLast(obj, "", MAX_COUNT_DEPTH, path, map[]);
      assert CountsAs(obj, name, n, order);
    }
  }

  /** No label stands for two arrays of different lengths. */
  ghost predicate Unambiguous(obj: Object) {
    forall name, m: nat, n: nat :: Counted(obj, "", MAX_COUNT_DEPTH, name, m) && Counted(obj, "", MAX_COUNT_DEPTH, name, n) ==> m == n
  }

  ghost predicate OrderDoesNotShow(obj: Object) {
    forall a, b :: Ordered(a, obj, MAX_COUNT_DEPTH) && Ordered(b, obj, MAX_COUNT_DEPTH)
      ==> CountsUnder(JObject(obj), a) == CountsUnder(JObject(obj), b)
  }

  lemma {:induction false} UnambiguousCountsAgree(obj: Object, a: seq<Visit>, b: seq<Visit>)
    requires Unambiguous(obj) && Ordered(a, obj, MAX_COUNT_DEPTH) && Ordered(b, obj, MAX_COUNT_DEPTH)
    ensures CountsUnder(JObject(obj), a) == CountsUnder(JObject(obj), b)
  {
    OrderCountsInto(obj, "", MAX_COUNT_DEPTH, a, map[]);
    OrderCountsInto(obj, "", MAX_COUNT_DEPTH, b, map[]);
    SettledCountsAgree(obj, CountsUnder(JObject(obj), a), CountsUnder(JObject(obj), b));
  }

  lemma SettledCountsAgree(obj: Object, one: map<string, nat>, other: map<string, nat>)
    requires Unambiguous(obj)
    requires CountsInto(obj, "", MAX_COUNT_DEPTH, map[], one) && CountsInto(obj, "", MAX_COUNT_DEPTH, map[], other)
    ensures one == other
  {
    forall name ensures name in one <==> name in other {
      assert name in one <==> Labelled(obj, "", MAX_COUNT_DEPTH, name);
    }
    forall name | name in one ensures one[name] == other[name] {
      assert Labelled(obj, "", MAX_COUNT_DEPTH, name);
    }
  }

  /** Any keys at all: the counts do not depend on the order the maps yield their keys in exactly when no
      label stands for two arrays of different lengths. */
  lemma OrderDoesNotShowIff(obj: Object)
    ensures OrderDoesNotShow(obj) <==> Unambiguous(obj)
  {
    if Unambiguous(obj) {
      forall a, b | Ordered(a, obj, MAX_COUNT_DEPTH) && Ordered(b, obj, MAX_COUNT_DEPTH)
        ensures CountsUnder(JObject(obj), a) == CountsUnder(JObject(obj), b)
      {
        UnambiguousCountsAgree(obj, a, b);
      }
    } else {
      var name, m: nat, n: nat :| Counted(obj, "", MAX_COUNT_DEPTH, name, m) && Counted(obj, "", MAX_COUNT_DEPTH, name, n) && m != n;
      CanCountIff(obj, name, m);
      CanCountIff(obj, name, n);
      var a :| CountsAs(obj, name, m, a);
      var b :| CountsAs(obj, name, n, b);
      assert CountsUnder(JObject(obj), a) != CountsUnder(JObject(obj), b);
    }
  }

  /** Plain keys keep it from showing. */
  lemma PlainKeysAreUnambiguous(obj: Object)
    requires PlainKeys(obj)
    ensures Unambiguous(obj)
  {
    forall name, m: nat, n: nat | Counted(obj, "", MAX_COUNT_DEPTH, name, m) && Counted(obj, "", MAX_COUNT_DEPTH, name, n)
      ensures m == n
    {
      var p :| CountedAt(obj, "", MAX_COUNT_DEPTH, p, name, m);
      var q :| CountedAt(obj, "", MAX_COUNT_DEPTH, q, name, n);
      DottedJoins("", p);
      DottedJoins("", q);
      JoinDotsInjective(p, q);
    }
  }

  lemma {:induction false} TwoPathsOneLabel(obj: Object, p: seq<string>, q: seq<string>, name: string)
    requires ArrayPath(obj, p, MAX_COUNT_DEPTH) && ArrayPath(obj, q, MAX_COUNT_DEPTH)
    requires Dotted("", p) == name == Dotted("", q) && LengthAt(obj, p, MAX_COUNT_DEPTH) != LengthAt(obj, q, MAX_COUNT_DEPTH)
    ensures !OrderDoesNotShow(obj)
  {
    OrderDoesNotShowIff(obj);
    assert CountedAt(obj, "", MAX_COUNT_DEPTH, p, name, LengthAt(obj, p, MAX_COUNT_DEPTH));
    assert CountedAt(obj, "", MAX_COUNT_DEPTH, q, name, LengthAt(obj, q, MAX_COUNT_DEPTH));
    assert Counted(obj, "", MAX_COUNT_DEPTH, name, LengthAt(obj, p, MAX_COUNT_DEPTH));
    assert Counted(obj, "", MAX_COUNT_DEPTH, name, LengthAt(obj, q, MAX_COUNT_DEPTH));
  }

  /** A dot inside a key is enough for it to show. */
  lemma DottedKeyShowsOrder(key: string, inner: string, short: seq<Json>, long: seq<Json>)
    requires key != "" && |short| != |long|
    ensures var obj := map[key + "." + inner := JArray(short), key := JObject(map[inner := JArray(long)])];
            !OrderDoesNotShow(obj)
  {
    var outer, fields := key + "." + inner, map[inner := JArray(long)];
    assert |outer| > |key|;
    var obj := map[outer := JArray(short), key := JObject(fields)];
    var path := [key, inner];
    assert obj[key] == JObject(fields) && path[1..] == [inner];
    assert Dotted("", path) == Dotted(key, [inner]) == outer;
    assert LengthAt(obj, path, MAX_COUNT_DEPTH) == LengthAt(fields, [inner], 3) == |long|;
    TwoPathsOneLabel(obj, [outer], path, outer);
  }

  /** So is an empty key, which leaves no mark in a label. */
  lemma EmptyKeyShowsOrder(key: string, short: seq<Json>, long: seq<Json>)
    requires key != "" && |short| != |long|
    ensures var obj := map[key := JArray(short), "" := JObject(map[key := JArray(long)])];
            !OrderDoesNotShow(obj)
  {
    var fields := map[key := JArray(long)];
    var obj, path := map[key := JArray(short), "" := JObject(fields)], ["", key];
    assert obj[""] == JObject(fields) && path[1..] == [key];
    assert Dotted("", path) == Dotted("", [key]) == key;
    assert LengthAt(obj, path, MAX_COUNT_DEPTH) == LengthAt(fields, [key], 3) == |long|;
    TwoPathsOneLabel(obj, [key], path, key);
  }
}
