/** internal/mcpserver/pin.go and the proxy half of server.go (lines 424-441): arguments the server fixes
    on a proxied tool, applied outside the confirmation gate and the rate limit. */
module ProxyPins {
  import opened Wrappers
  import opened JsonValues
  import opened Pipeline

  datatype ArgPin = ArgPin(tool: string, arg: string, provider: string, source: string)

  // ---------------------------------------------------------------- validation

  function PinKey(pin: ArgPin): string { pin.tool + "." + pin.arg }

  function PinChain(pin: ArgPin): string { pin.provider + " " + pin.source }

  predicate PinsValid(pins: seq<ArgPin>, allowlist: seq<string>) {
    && (forall i :: 0 <= i < |pins| ==> pins[i].tool in allowlist)
    && (forall i, j :: 0 <= i < j < |pins| && PinKey(pins[i]) == PinKey(pins[j]) ==> PinChain(pins[i]) == PinChain(pins[j]))
  }

  /** `ValidatePins`: every pin lands on a served tool, and pins under one joined name have one joined
      source. */
  method ValidatePins(pins: seq<ArgPin>, allowlist: seq<string>) returns (ok: bool)
    ensures ok == PinsValid(pins, allowlist)
  {
    var seen: map<string, string> := map[];
    var i := 0;
    while i < |pins|
      invariant 0 <= i <= |pins|
      invariant forall j :: 0 <= j < i ==> pins[j].tool in allowlist
      invariant forall j :: 0 <= j < i ==> PinKey(pins[j]) in seen && seen[PinKey(pins[j])] == PinChain(pins[j])
      invariant forall k :: k in seen ==> exists j :: 0 <= j < i && PinKey(pins[j]) == k
    {
      var pin := pins[i];
      if pin.tool !in allowlist { return false; }
      if PinKey(pin) in seen && seen[PinKey(pin)] != PinChain(pin) {
        ghost var j :| 0 <= j < i && PinKey(pins[j]) == PinKey(pin);
        assert PinChain(pins[j]) != PinChain(pins[i]);
        return false;
      }
      seen := seen[PinKey(pin) := PinChain(pin)];
      i := i + 1;
    }
    ok := true;
  }

  // ---------------------------------------------------------------- what the joined names tell apart

  predicate Served(pins: seq<ArgPin>, allowlist: seq<string>) {
    forall i :: 0 <= i < |pins| ==> pins[i].tool in allowlist
  }

  predicate SameArgument(a: ArgPin, b: ArgPin) { a.tool == b.tool && a.arg == b.arg }

  predicate SameSource(a: ArgPin, b: ArgPin) { a.provider == b.provider && a.source == b.source }

  /** No argument of a tool is pinned to two sources. */
  predicate OneSourceEach(pins: seq<ArgPin>) {
    forall i, j :: 0 <= i < j < |pins| && SameArgument(pins[i], pins[j]) ==> SameSource(pins[i], pins[j])
  }

  /** Part of the second name reads as part of the first: `(x.y, z)` joins to what `(x, y.z)` does. */
  predicate Shifted(first: string, second: string, first': string, second': string, sep: char) {
    && first + [sep] <= first'
    && second == first'[|first| + 1..] + [sep] + second'
  }

  /** Two joined pairs are equal exactly when the pairs are, or one is a shift of the other. */
  lemma JoinedEqualIff(a: string, b: string, c: string, d: string, sep: char)
    ensures a + [sep] + b == c + [sep] + d
            <==> (a == c && b == d) || Shifted(a, b, c, d, sep) || Shifted(c, d, a, b, sep)
  {
    var one, two := a + [sep] + b, c + [sep] + d;
    if one == two {
      if |a| < |c| { JoinedShifts(a, b, c, d, sep); }
      if |c| < |a| { JoinedShifts(c, d, a, b, sep); }
      if |a| == |c| {
        assert a == one[..|a|] && c == two[..|a|] && b == one[|a| + 1..] && d == two[|a| + 1..];
      }
    }
    if Shifted(a, b, c, d, sep) { ShiftedJoin(a, b, c, d, sep); }
    if Shifted(c, d, a, b, sep) { ShiftedJoin(c, d, a, b, sep); }
  }

  lemma JoinedShifts(a: string, b: string, c: string, d: string, sep: char)
    requires a + [sep] + b == c + [sep] + d && |a| < |c|
    ensures Shifted(a, b, c, d, sep)
  {
    var joined := a + [sep] + b;
    assert c == joined[..|c|] && a + [sep] == joined[..|a| + 1] && joined[..|c|][..|a| + 1] == joined[..|a| + 1];
    assert b == joined[|a| + 1..] == (c + [sep] + d)[|a| + 1..];
  }

  lemma ShiftedJoin(a: string, b: string, c: string, d: string, sep: char)
    requires Shifted(a, b, c, d, sep)
    ensures a + [sep] + b == c + [sep] + d
  {
    assert c == a + [sep] + c[|a| + 1..];
  }

  predicate ReadsAs(a: ArgPin, b: ArgPin) {
    SameArgument(a, b) || Shifted(a.tool, a.arg, b.tool, b.arg, '.') || Shifted(b.tool, b.arg, a.tool, a.arg, '.')
  }

  predicate SourceReadsAs(a: ArgPin, b: ArgPin) {
    SameSource(a, b) || Shifted(a.provider, a.source, b.provider, b.source, ' ') || Shifted(b.provider, b.source, a.provider, a.source, ' ')
  }

  /** What validation accepts, in tools, arguments and sources: pins whose arguments read alike once joined
      must have sources that do. */
  lemma PinsValidIff(pins: seq<ArgPin>, allowlist: seq<string>)
    ensures PinsValid(pins, allowlist) <==>
      Served(pins, allowlist)
      && forall i, j :: 0 <= i < j < |pins| && ReadsAs(pins[i], pins[j]) ==> SourceReadsAs(pins[i], pins[j])
  {
    forall i, j | 0 <= i < j < |pins|
      ensures PinKey(pins[i]) == PinKey(pins[j]) <==> ReadsAs(pins[i], pins[j])
      ensures PinChain(pins[i]) == PinChain(pins[j]) <==> SourceReadsAs(pins[i], pins[j])
    {
      PinsReadAs(pins[i], pins[j]);
    }
  }

  lemma PinsReadAs(a: ArgPin, b: ArgPin)
    ensures PinKey(a) == PinKey(b) <==> ReadsAs(a, b)
    ensures PinChain(a) == PinChain(b) <==> SourceReadsAs(a, b)
  {
    JoinedEqualIff(a.tool, a.arg, b.tool, b.arg, '.');
    JoinedEqualIff(a.provider, a.source, b.provider, b.source, ' ');
  }

  /** Names the joins cannot confuse: no dot in a tool, no blank in a provider. */
  predicate PlainNames(pins: seq<ArgPin>) {
    forall i :: 0 <= i < |pins| ==> '.' !in pins[i].tool && ' ' !in pins[i].provider
  }

  /** With such names validation accepts exactly the pins that all land on served tools and give no
      argument two sources. */
  lemma PlainPinsValidIff(pins: seq<ArgPin>, allowlist: seq<string>)
    requires PlainNames(pins)
    ensures PinsValid(pins, allowlist) <==> Served(pins, allowlist) && OneSourceEach(pins)
  {
    PinsValidIff(pins, allowlist);
    forall i, j | 0 <= i < j < |pins|
      ensures ReadsAs(pins[i], pins[j]) <==> SameArgument(pins[i], pins[j])
      ensures SourceReadsAs(pins[i], pins[j]) <==> SameSource(pins[i], pins[j])
    {
      PlainNamesDoNotShift(pins[i], pins[j]);
      PlainNamesDoNotShift(pins[j], pins[i]);
    }
  }

  lemma PlainNamesDoNotShift(a: ArgPin, b: ArgPin)
    requires '.' !in b.tool && ' ' !in b.provider
    ensures !Shifted(a.tool, a.arg, b.tool, b.arg, '.') && !Shifted(a.provider, a.source, b.provider, b.source, ' ')
  {
    assert (a.tool + ['.'])[|a.tool|] == '.' && (a.provider + [' '])[|a.provider|] == ' ';
    assert |b.tool| > |a.tool| ==> b.tool[|a.tool|] in b.tool;
    assert |b.provider| > |a.provider| ==> b.provider[|a.provider|] in b.provider;
  }

  /** A dot in a tool name can make validation refuse pins that do not conflict. */
  lemma DottedToolRefused(x: string, y: string, z: string, provider: string, one: string, other: string)
    requires one != other
    ensures var pins := [ArgPin(x + "." + y, z, provider, one), ArgPin(x, y + "." + z, provider, other)];
            && Served(pins, [x + "." + y, x]) && OneSourceEach(pins) && !PinsValid(pins, [x + "." + y, x])
  {
    var a, b := ArgPin(x + "." + y, z, provider, one), ArgPin(x, y + "." + z, provider, other);
    assert x + "." + y + "." + z == x + "." + (y + "." + z);
    assert PinKey(a) == PinKey(b) && [a, b][0] == a && [a, b][1] == b;
    assert (provider + " " + one)[|provider| + 1..] == one && (provider + " " + other)[|provider| + 1..] == other;
    assert |a.tool| > |b.tool|;
  }

  // ---------------------------------------------------------------- pins by tool

  function PinsOf(pins: seq<ArgPin>, tool: string): seq<ArgPin> {
    if pins == [] then []
    else
      var before, pin := PinsOf(pins[..|pins| - 1], tool), pins[|pins| - 1];
      if pin.tool == tool then before + [pin] else before
  }

  /** `pinsByTool`, before it sorts each group by argument. */
  method PinsByTool(pins: seq<ArgPin>) returns (out: map<string, seq<ArgPin>>)
    ensures forall tool :: tool in out <==> PinsOf(pins, tool) != []
    ensures forall tool :: tool in out ==> out[tool] == PinsOf(pins, tool)
  {
    out := map[];
    for i := 0 to |pins|
      invariant forall tool :: tool in out <==> PinsOf(pins[..i], tool) != []
      invariant forall tool :: tool in out ==> out[tool] == PinsOf(pins[..i], tool)
    {
      var tool := pins[i].tool;
      assert pins[..i + 1][..i] == pins[..i];
      out := out[tool := (if tool in out then out[tool] else []) + [pins[i]]];
    }
    assert pins[..|pins|] == pins;
  }

  /** In the order they were stated. */
  lemma {:induction false} PinsOfInOrder(front: seq<ArgPin>, back: seq<ArgPin>, tool: string)
    ensures PinsOf(front + back, tool) == PinsOf(front, tool) + PinsOf(back, tool)
    decreases |back|
  {
    if back == [] {
      assert front + back == front;
    } else {
      var n := |back| - 1;
      assert (front + back)[..|front + back| - 1] == front + back[..n];
      PinsOfInOrder(front, back[..n], tool);
    }
  }

  lemma {:induction false} PinsOfAre(pins: seq<ArgPin>, tool: string)
    ensures forall pin :: pin in PinsOf(pins, tool) <==> pin in pins && pin.tool == tool
  {
    if pins != [] {
      PinsOfAre(pins[..|pins| - 1], tool);
      assert pins == pins[..|pins| - 1] + [pins[|pins| - 1]];
    }
  }

  // ---------------------------------------------------------------- applying pins to one call

  /** A pin of the called tool, with what its source resolves to on this call: nothing when the provider
      is unknown, fails, or answers with the empty string. */
  datatype Resolved = Resolved(arg: string, value: Option<string>)

  /** Go's argument map, which an explicit null leaves nil. */
  datatype GoMap = NilMap | Made(entries: map<string, Json>)

  function ReadArgs(args: Arguments): Option<GoMap> {
    match args
    case Absent => Some(Made(map[]))
    case Undecodable => None
    case Decoded(JObject(m)) => Some(Made(m))
    case Decoded(JNull) => Some(NilMap)
    case Decoded(_) => None
  }

  function Entries(m: GoMap): map<string, Json> { if m.Made? then m.entries else map[] }

  datatype Pinning = Pinned(args: GoMap) | Refused | Panicked

  /** The loop of `withArgPins`: a supplied argument must print as the pinned value, an absent one is
      written, and a write to a nil map panics. */
  function ApplyPins(pins: seq<Resolved>, m: GoMap, render: Json -> string): Pinning {
    if pins == [] then Pinned(m)
    else
      var pin := pins[0];
      if pin.value.None? then Refused
      else if pin.arg in Entries(m) then
        if render(Entries(m)[pin.arg]) != pin.value.value then Refused else ApplyPins(pins[1..], m, render)
      else if m.NilMap? then Panicked
      else ApplyPins(pins[1..], Made(m.entries[pin.arg := JString(pin.value.value)]), render)
  }

  method PinArguments(pins: seq<Resolved>, args: GoMap, render: Json -> string) returns (r: Pinning)
    ensures r == ApplyPins(pins, args, render)
  {
    var m, i := args, 0;
    while i < |pins|
      invariant 0 <= i <= |pins|
      invariant ApplyPins(pins[i..], m, render) == ApplyPins(pins, args, render)
    {
      var pin := pins[i];
      assert pins[i..][1..] == pins[i + 1..];
      if pin.value.None? { return Refused; }
      if pin.arg in Entries(m) {
        if render(Entries(m)[pin.arg]) != pin.value.value { return Refused; }
      } else {
        if m.NilMap? { return Panicked; }
        m := Made(m.entries[pin.arg := JString(pin.value.value)]);
      }
      i := i + 1;
    }
    assert pins[|pins|..] == [];
    r := Pinned(m);
  }

  ghost predicate RendersStrings(render: Json -> string) { forall s: string :: render(JString(s)) == s }

  /** The caller's own argument, if it supplied one, says what the pin says. */
  ghost predicate Agrees(pin: Resolved, m: map<string, Json>, render: Json -> string) {
    pin.value.Some? && (pin.arg in m ==> render(m[pin.arg]) == pin.value.value)
  }

  ghost predicate Consistent(pins: seq<Resolved>) {
    forall i, j :: 0 <= i < j < |pins| && pins[i].arg == pins[j].arg ==> pins[i].value == pins[j].value
  }

  function PinnedArgs(pins: seq<Resolved>): set<string> {
    if pins == [] then {} else {pins[0].arg} + PinnedArgs(pins[1..])
  }

  ghost predicate Pins(pins: seq<Resolved>, m: map<string, Json>, out: map<string, Json>, render: Json -> string) {
    && out.Keys == m.Keys + PinnedArgs(pins)
    && (forall k :: k in m ==> out[k] == m[k])
    && (forall i :: 0 <= i < |pins| ==>
         pins[i].arg in out && pins[i].value.Some? && render(out[pins[i].arg]) == pins[i].value.value
         && (pins[i].arg !in m ==> out[pins[i].arg] == JString(pins[i].value.value)))
  }

  /** Pinning succeeds exactly when every pin resolves, no supplied argument contradicts its pin, and
      repeated pins agree. Then every pinned argument is there, as the resolved value or as something
      the caller wrote that prints the same; every other argument is untouched and none is added. */
  lemma {:induction false} PinsApplyIff(pins: seq<Resolved>, m: map<string, Json>, render: Json -> string)
    requires RendersStrings(render)
    ensures ApplyPins(pins, Made(m), render) != Panicked
    ensures ApplyPins(pins, Made(m), render).Pinned? <==>
      (forall i :: 0 <= i < |pins| ==> Agrees(pins[i], m, render)) && Consistent(pins)
    ensures ApplyPins(pins, Made(m), render).Pinned? ==>
      var out := ApplyPins(pins, Made(m), render).args; out.Made? && Pins(pins, m, out.entries, render)
    decreases |pins|
  {
    if pins != [] {
      var pin, rest := pins[0], pins[1..];
      assert pins == [pin] + rest;
      assert forall i :: 0 <= i < |rest| ==> rest[i] == pins[i + 1];
      if Agrees(pin, m, render) {
        var m' := if pin.arg in m then m else m[pin.arg := JString(pin.value.value)];
        PinsApplyIff(rest, m', render);
        FirstPinIff(pin, rest, m, m', render);
        if ApplyPins(rest, Made(m'), render).Pinned? {
          FirstPinKeeps(pin, rest, m, m', ApplyPins(rest, Made(m'), render).args.entries, render);
        }
      }
    }
  }

  lemma FirstPinIff(pin: Resolved, rest: seq<Resolved>, m: map<string, Json>, m': map<string, Json>, render: Json -> string)
    requires RendersStrings(render) && Agrees(pin, m, render)
    requires m' == if pin.arg in m then m else m[pin.arg := JString(pin.value.value)]
    ensures (forall i :: 0 <= i < |rest| ==> Agrees(rest[i], m', render)) && Consistent(rest)
            <==> (forall i :: 0 <= i < |[pin] + rest| ==> Agrees(([pin] + rest)[i], m, render)) && Consistent([pin] + rest)
  {
    if (forall i :: 0 <= i < |rest| ==> Agrees(rest[i], m', render)) && Consistent(rest) {
      FirstPinJoins(pin, rest, m, m', render);
    }
    if (forall i :: 0 <= i < |[pin] + rest| ==> Agrees(([pin] + rest)[i], m, render)) && Consistent([pin] + rest) {
      FirstPinLeaves(pin, rest, m, m', render);
    }
  }

  lemma FirstPinJoins(pin: Resolved, rest: seq<Resolved>, m: map<string, Json>, m': map<string, Json>, render: Json -> string)
    requires RendersStrings(render) && Agrees(pin, m, render)
    requires m' == if pin.arg in m then m else m[pin.arg := JString(pin.value.value)]
    requires (forall i :: 0 <= i < |rest| ==> Agrees(rest[i], m', render)) && Consistent(rest)
    ensures (forall i :: 0 <= i < |[pin] + rest| ==> Agrees(([pin] + rest)[i], m, render)) && Consistent([pin] + rest)
  {
    var pins := [pin] + rest;
    forall i | 0 <= i < |pins| ensures Agrees(pins[i], m, render) && (pins[i].arg == pin.arg ==> pins[i].value == pin.value) {
      if i > 0 { assert pins[i] == rest[i - 1] && Agrees(rest[i - 1], m', render); }
    }
    forall i, j | 0 <= i < j < |pins| && pins[i].arg == pins[j].arg ensures pins[i].value == pins[j].value {
      if i > 0 { assert pins[i] == rest[i - 1] && pins[j] == rest[j - 1]; }
    }
  }

  lemma FirstPinLeaves(pin: Resolved, rest: seq<Resolved>, m: map<string, Json>, m': map<string, Json>, render: Json -> string)
    requires RendersStrings(render) && Agrees(pin, m, render)
    requires m' == if pin.arg in m then m else m[pin.arg := JString(pin.value.value)]
    requires (forall i :: 0 <= i < |[pin] + rest| ==> Agrees(([pin] + rest)[i], m, render)) && Consistent([pin] + rest)
    ensures (forall i :: 0 <= i < |rest| ==> Agrees(rest[i], m', render)) && Consistent(rest)
  {
    var pins := [pin] + rest;
    forall i | 0 <= i < |rest| ensures Agrees(rest[i], m', render) {
      assert pins[i + 1] == rest[i] && Agrees(pins[i + 1], m, render);
      assert pins[0].arg == pins[i + 1].arg ==> pins[0].value == pins[i + 1].value;
    }
    forall i, j | 0 <= i < j < |rest| && rest[i].arg == rest[j].arg ensures rest[i].value == rest[j].value {
      assert pins[i + 1] == rest[i] && pins[j + 1] == rest[j];
    }
  }

  lemma FirstPinKeeps(pin: Resolved, rest: seq<Resolved>, m: map<string, Json>, m': map<string, Json>,
                      out: map<string, Json>, render: Json -> string)
    requires RendersStrings(render) && Agrees(pin, m, render)
    requires m' == if pin.arg in m then m else m[pin.arg := JString(pin.value.value)]
    requires Pins(rest, m', out, render)
    ensures Pins([pin] + rest, m, out, render)
  {
    var pins := [pin] + rest;
    assert pins[1..] == rest;
    forall i | 0 <= i < |pins|
      ensures pins[i].arg in out && pins[i].value.Some? && render(out[pins[i].arg]) == pins[i].value.value
              && (pins[i].arg !in m ==> out[pins[i].arg] == JString(pins[i].value.value))
    {
      if i == 0 {
        assert pin.arg in m' && out[pin.arg] == m'[pin.arg];
      } else {
        assert pins[i] == rest[i - 1];
        if pins[i].arg !in m && pins[i].arg in m' {
          assert out[pin.arg] == JString(pin.value.value) && render(out[pin.arg]) == pin.value.value;
        }
      }
    }
  }

  function ResolveAll(group: seq<ArgPin>, resolve: (string, string) -> Option<string>): (r: seq<Resolved>)
    ensures |r| == |group|
  {
    seq(|group|, i requires 0 <= i < |group| => Resolved(group[i].arg, resolve(group[i].provider, group[i].source)))
  }

  /** Validated pins, grouped by tool and in any order, never refuse a call by themselves: when every source
      resolves and the caller sets none of the pinned arguments, pinning succeeds. */
  lemma {:induction false} ValidPinsDoNotConflict(pins: seq<ArgPin>, allowlist: seq<string>, tool: string, group: seq<ArgPin>,
                                                  resolve: (string, string) -> Option<string>, m: map<string, Json>, render: Json -> string)
    requires PinsValid(pins, allowlist) && PlainNames(pins) && RendersStrings(render)
    requires multiset(group) == multiset(PinsOf(pins, tool))
    requires forall i :: 0 <= i < |group| ==> resolve(group[i].provider, group[i].source).Some? && group[i].arg !in m
    ensures Consistent(ResolveAll(group, resolve))
    ensures ApplyPins(ResolveAll(group, resolve), Made(m), render).Pinned?
  {
    PlainPinsValidIff(pins, allowlist);
    PinsOfAre(pins, tool);
    var resolved := ResolveAll(group, resolve);
    forall i | 0 <= i < |group| ensures group[i] in pins && group[i].tool == tool {
      assert group[i] in multiset(group);
    }
    forall i, j | 0 <= i < j < |resolved| && resolved[i].arg == resolved[j].arg ensures resolved[i].value == resolved[j].value {
      OneSourceOfAny(pins, group[i], group[j]);
    }
    PinsApplyIff(resolved, m, render);
    assert forall i :: 0 <= i < |resolved| ==> Agrees(resolved[i], m, render);
  }

  lemma OneSourceOfAny(pins: seq<ArgPin>, a: ArgPin, b: ArgPin)
    requires OneSourceEach(pins) && a in pins && b in pins && SameArgument(a, b)
    ensures SameSource(a, b)
  {
    var i :| 0 <= i < |pins| && pins[i] == a;
    var j :| 0 <= j < |pins| && pins[j] == b;
    if i < j {
      assert SameArgument(pins[i], pins[j]);
    } else if j < i {
      assert SameArgument(pins[j], pins[i]);
    }
  }

  /** An explicit null panics exactly when some pin applies and the first one resolves: there is no map to
      write it to. No other arguments do. */
  lemma {:induction false} PinningPanicsIff(pins: seq<Resolved>, args: Arguments, render: Json -> string)
    requires RendersStrings(render)
    ensures ReadArgs(args).Some? && ApplyPins(pins, ReadArgs(args).value, render) == Panicked
            <==> args == Decoded(JNull) && pins != [] && pins[0].value.Some?
  {
    if ReadArgs(args).Some? && args != Decoded(JNull) {
      PinsApplyIff(pins, ReadArgs(args).value.entries, render);
    }
  }

  // ---------------------------------------------------------------- the proxied tool

  /** The call the inner handler sees, its pinned map re-encoded; none when pinning fails, panic included. */
  function PinnedCall(pins: seq<Resolved>, render: Json -> string, call: Call): Option<Call> {
    var m := ReadArgs(call.args);
    if m.None? || !ApplyPins(pins, m.value, render).Pinned? then None
    else Some(call.(args := Decoded(JObject(Entries(ApplyPins(pins, m.value, render).args)))))
  }

  /** `withArgPins`. */
  ghost function WithArgPins(pins: seq<Resolved>, render: Json -> string, next: Handler): Handler {
    if pins == [] then next
    else
      (store: Store, call: Call) =>
        var pinned := PinnedCall(pins, render, call);
        if pinned.None? then Step(store, ERROR, []) else next(store, pinned.value)
  }

  /** The wrapping order of `NewProxyWithOptions`, innermost first, over a tool whose schema is `declared`. */
  ghost function AssembleProxy(cfg: ToolConfig, pins: seq<Resolved>, render: Json -> string): Handler {
    WithArgPins(pins, render, Gated(cfg))
  }

  /** A call is pinned exactly when its arguments decode to a map that exists, no argument contradicts its
      pin, every pin resolves, and repeated pins agree. It then goes on with the pinned map. */
  lemma PinnedCallIff(pins: seq<Resolved>, render: Json -> string, call: Call)
    requires pins != [] && RendersStrings(render)
    ensures var caller, pinned := DecodeArgs(call.args), PinnedCall(pins, render, call);
            && (pinned.Some? <==>
                 && caller.Some? && call.args != Decoded(JNull) && Consistent(pins)
                 && forall i :: 0 <= i < |pins| ==> Agrees(pins[i], caller.value, render))
            && (pinned.Some? ==> exists out :: Pins(pins, caller.value, out, render) && pinned.value == call.(args := Decoded(JObject(out))))
  {
    var m := ReadArgs(call.args);
    if m.Some? && m.value.Made? {
      PinsApplyIff(pins, m.value.entries, render);
      if PinnedCall(pins, render, call).Some? {
        var out := ApplyPins(pins, m.value, render).args.entries;
        assert Pins(pins, m.value.entries, out, render);
      }
    }
  }

  /** What a proxied call comes to: an error that does nothing outside when it cannot be pinned, and else
      whatever the gate, the charge and the request make of the pinned call. */
  lemma ProxyOutcome(cfg: ToolConfig, pins: seq<Resolved>, render: Json -> string, store: Store, call: Call)
    ensures var s, pinned := AssembleProxy(cfg, pins, render)(store, call), PinnedCall(pins, render, call);
            (s.result, s.trace) == if pins == [] then GatedOutcome(cfg, call)
                                   else if pinned.Some? then GatedOutcome(cfg, pinned.value) else (ERROR, [])
  {
    var pinned := PinnedCall(pins, render, call);
    if pins == [] {
      GatedDecides(cfg, store, call);
    } else if pinned.Some? {
      GatedDecides(cfg, store, pinned.value);
    }
  }

  /** Whatever a pinned proxy tool forwards carries every pin and every argument of the caller's, and a call
      that cannot be pinned makes no prompt, no charge and no request. */
  lemma ProxyForwardsPinned(cfg: ToolConfig, pins: seq<Resolved>, render: Json -> string, store: Store, call: Call)
    requires pins != [] && RendersStrings(render) && cfg.ttl.None? && !cfg.rejectEmpty
    ensures var s := AssembleProxy(cfg, pins, render)(store, call);
            var caller := DecodeArgs(call.args);
            && (forall e :: e in s.trace && e.Requested? ==> caller.Some? && Pins(pins, caller.value, e.args, render))
            && (caller.Some? && (exists i :: 0 <= i < |pins| && !Agrees(pins[i], caller.value, render)) ==> s.trace == [] && s.result.isError)
            && (caller.None? ==> s.trace == [] && s.result.isError)
  {
    var m, pinned := ReadArgs(call.args), PinnedCall(pins, render, call);
    if m.Some? && m.value.Made? {
      PinsApplyIff(pins, m.value.entries, render);
    }
    if pinned.Some? {
      PinnedCallForwards(cfg, store, pinned.value, Entries(ApplyPins(pins, m.value, render).args));
    }
  }

  lemma PinnedCallForwards(cfg: ToolConfig, store: Store, pinned: Call, entries: map<string, Json>)
    requires pinned.args == Decoded(JObject(entries))
    ensures forall e :: e in Gated(cfg)(store, pinned).trace && e.Requested? ==> e.args == entries
  {
    var s := Gated(cfg)(store, pinned);
    GatedIsSettled(cfg, store, pinned);
    ShapedIsDisciplined(cfg, pinned, s);
    assert DecodeArgs(pinned.args) == Some(entries);
    forall e | e in s.trace && e.Requested? ensures e.args == entries {
      var i :| 0 <= i < |s.trace| && s.trace[i] == e;
    }
  }
}
