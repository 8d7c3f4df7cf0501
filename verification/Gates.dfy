/** What `New` (internal/mcpserver/server.go) does with a composed chain: parse each control over the
    whole chain, drop the ones an ancestor vacated, and refuse what is left misaimed. The claims here
    are the ones `inherit` exists for: a child never loses a gate its base states. */
module Gates {
  import opened Wrappers
  import opened Text
  import opened Controls

  // ---------------------------------------------------------------- reject-empty-argument and withhold

  function ReadField(n: Node): Option<string> {
    if !(n.props.Keys <= {"field"}) || "field" !in n.props || TrimSpace(n.props["field"].text) == "" then None
    else Some(TrimSpace(n.props["field"].text))
  }

  /** A field reads exactly as the one it states, alone, less the white space around it. */
  lemma FieldReadsIff(n: Node, field: string)
    ensures ReadField(n) == Some(field) <==>
      n.props.Keys == {"field"} && field == TrimSpace(n.props["field"].text) && field != ""
  {
    assert n.props.Keys <= {"field"} && "field" in n.props ==> n.props.Keys == {"field"};
  }

  type FieldLists = map<string, seq<string>>

  function FieldsOf(m: FieldLists, tool: string): seq<string> { if tool in m then m[tool] else [] }

  function EmptyArguments(nodes: seq<SourceNode>): Option<FieldLists> {
    if nodes == [] then Some(map[])
    else
      var n := nodes[|nodes| - 1].node;
      match EmptyArguments(nodes[..|nodes| - 1])
      case None => None
      case Some(m) =>
        if n.name != "reject-empty-argument" then Some(m)
        else if OneStringArg(n).None? || ReadField(n).None? || ReadField(n).value in FieldsOf(m, n.args[0]) then None
        else Some(m[n.args[0] := FieldsOf(m, n.args[0]) + [ReadField(n).value]])
  }

  ghost predicate StatesField(nodes: seq<SourceNode>, tool: string, field: string) {
    exists sn :: sn in nodes && sn.node.name == "reject-empty-argument" && sn.node.args == [tool] && ReadField(sn.node) == Some(field)
  }

  /** Parsed field lists hold every stated field, and only stated fields. */
  lemma {:induction false} EmptyArgumentsExact(nodes: seq<SourceNode>)
    requires EmptyArguments(nodes).Some?
    ensures var m := EmptyArguments(nodes).value;
            && (forall sn :: sn in nodes && sn.node.name == "reject-empty-argument" ==>
                 && |sn.node.args| == 1 && ReadField(sn.node).Some? && ReadField(sn.node).value in FieldsOf(m, sn.node.args[0]))
            && (forall tool, field :: field in FieldsOf(m, tool) ==> StatesField(nodes, tool, field))
            && (forall tool :: tool in m ==> m[tool] != [])
  {
    if nodes != [] {
      var front, last := nodes[..|nodes| - 1], nodes[|nodes| - 1];
      EmptyArgumentsExact(front);
      assert nodes == front + [last];
      if last.node.name == "reject-empty-argument" {
        var before, after := EmptyArguments(front).value, EmptyArguments(nodes).value;
        assert last in nodes && last.node.args == [last.node.args[0]];
        forall tool, field | field in FieldsOf(after, tool)
          ensures StatesField(nodes, tool, field)
        {
          if field in FieldsOf(before, tool) {
            assert StatesField(front, tool, field);
            var sn :| sn in front && sn.node.name == "reject-empty-argument" && sn.node.args == [tool] && ReadField(sn.node) == Some(field);
            assert sn in nodes;
          }
        }
      }
    }
  }

  datatype Stub = Stub(tool: string, reason: string, alternative: string)

  function ReadStub(tool: string, children: seq<Child>): Option<Stub> {
    if children == [] then Some(Stub(tool, "", ""))
    else
      var child := children[|children| - 1];
      match ReadStub(tool, children[..|children| - 1])
      case None => None
      case Some(stub) =>
        if |child.args| != 1 || child.args[0] == "" then None
        else if child.name == "reason" && stub.reason == "" then Some(stub.(reason := child.args[0]))
        else if child.name == "alternative" && stub.alternative == "" then Some(stub.(alternative := child.args[0]))
        else None
  }

  function WithheldNode(n: Node): Option<Stub> {
    if OneStringArg(n).None? || n.props != map[] then None
    else
      match ReadStub(n.args[0], n.children)
      case None => None
      case Some(stub) => if stub.reason == "" then None else Some(stub)
  }

  /** The one child of a name, as `withhold` wants it: at most one, and with one non-empty argument. */
  ghost predicate StatesOnce(children: seq<Child>, name: string, text: string) {
    if text == "" then forall i :: 0 <= i < |children| ==> children[i].name != name
    else
      exists i :: 0 <= i < |children| && children[i] == Child(name, [text])
        && forall j :: 0 <= j < |children| && j != i ==> children[j].name != name
  }

  ghost predicate StubChildren(children: seq<Child>) {
    forall i :: 0 <= i < |children| ==> children[i].name == "reason" || children[i].name == "alternative"
  }

  lemma StatesOnceGrows(front: seq<Child>, last: Child, name: string, text: string)
    requires text != ""
    ensures StatesOnce(front + [last], name, text) <==>
      (last.name != name && StatesOnce(front, name, text)) || (last == Child(name, [text]) && StatesOnce(front, name, ""))
  {
    var all := front + [last];
    assert forall i :: 0 <= i < |front| ==> all[i] == front[i];
    if StatesOnce(all, name, text) {
      var i :| 0 <= i < |all| && all[i] == Child(name, [text]) && forall j :: 0 <= j < |all| && j != i ==> all[j].name != name;
      assert i < |front| ==> all[|front|].name != name && front[i] == Child(name, [text]);
      assert i == |front| ==> forall j :: 0 <= j < |front| ==> front[j].name != name;
    }
    if last.name != name && StatesOnce(front, name, text) {
      var i :| 0 <= i < |front| && front[i] == Child(name, [text]) && forall j :: 0 <= j < |front| && j != i ==> front[j].name != name;
      assert all[i] == Child(name, [text]);
    }
    if last == Child(name, [text]) && StatesOnce(front, name, "") {
      assert all[|front|] == Child(name, [text]);
    }
  }

  lemma StatesNoneGrows(front: seq<Child>, last: Child, name: string)
    ensures StatesOnce(front + [last], name, "") <==> last.name != name && StatesOnce(front, name, "")
  {
    var all := front + [last];
    assert all[|front|] == last && forall i :: 0 <= i < |front| ==> all[i] == front[i];
  }

  ghost predicate StubOf(children: seq<Child>, reason: string, alternative: string) {
    StubChildren(children) && StatesOnce(children, "reason", reason) && StatesOnce(children, "alternative", alternative)
  }

  lemma StubOfGrows(front: seq<Child>, last: Child, reason: string, alternative: string)
    ensures StubOf(front + [last], reason, alternative) <==>
      || (reason != "" && last == Child("reason", [reason]) && StubOf(front, "", alternative))
      || (alternative != "" && last == Child("alternative", [alternative]) && StubOf(front, reason, ""))
  {
    var all := front + [last];
    assert all[|front|] == last && forall i :: 0 <= i < |front| ==> all[i] == front[i];
    assert |"reason"| != |"alternative"|;
    if reason == "" { StatesNoneGrows(front, last, "reason"); } else { StatesOnceGrows(front, last, "reason", reason); }
    if alternative == "" { StatesNoneGrows(front, last, "alternative"); } else { StatesOnceGrows(front, last, "alternative", alternative); }
    assert StubChildren(all) <==> StubChildren(front) && (last.name == "reason" || last.name == "alternative");
  }

  /** One child more fills in a reason or an alternative that was not there. */
  lemma {:induction false} ReadsOneMore(tool: string, front: seq<Child>, last: Child, reason: string, alternative: string)
    ensures ReadStub(tool, front + [last]) == Some(Stub(tool, reason, alternative)) <==>
      || (reason != "" && last == Child("reason", [reason]) && ReadStub(tool, front) == Some(Stub(tool, "", alternative)))
      || (alternative != "" && last == Child("alternative", [alternative]) && ReadStub(tool, front) == Some(Stub(tool, reason, "")))
  {
    assert (front + [last])[..|front|] == front;
    assert |"reason"| != |"alternative"|;
    if ReadStub(tool, front).Some? { StubNamesItsTool(tool, front); }
    if |last.args| == 1 { assert last.args == [last.args[0]]; }
  }

  /** The children of a `withhold` read as a reason and an alternative exactly when they are at most one of
      each, each with its one text, and nothing else. */
  lemma {:induction false} StubReadsIff(tool: string, children: seq<Child>, reason: string, alternative: string)
    ensures ReadStub(tool, children) == Some(Stub(tool, reason, alternative)) <==> StubOf(children, reason, alternative)
    decreases |children|
  {
    if children == [] {
      assert StatesOnce(children, "reason", reason) <==> reason == "";
      assert StatesOnce(children, "alternative", alternative) <==> alternative == "";
    } else {
      var front, last := children[..|children| - 1], children[|children| - 1];
      assert children == front + [last];
      StubOfGrows(front, last, reason, alternative);
      ReadsOneMore(tool, front, last, reason, alternative);
      StubReadsIff(tool, front, "", alternative);
      StubReadsIff(tool, front, reason, "");
    }
  }

  /** A `withhold` yields a stub exactly when it names one tool, states nothing else, and gives a reason. */
  lemma WithheldReadsIff(n: Node, stub: Stub)
    ensures WithheldNode(n) == Some(stub) <==>
      && n.args == [stub.tool] && stub.tool != "" && n.props == map[]
      && StubOf(n.children, stub.reason, stub.alternative) && stub.reason != ""
  {
    if |n.args| == 1 {
      assert n.args == [n.args[0]];
      StubReadsIff(n.args[0], n.children, stub.reason, stub.alternative);
      if ReadStub(n.args[0], n.children).Some? { StubNamesItsTool(n.args[0], n.children); }
    }
  }

  predicate Withholds(stubs: seq<Stub>, tool: string) { exists i :: 0 <= i < |stubs| && stubs[i].tool == tool }

  function Withheld(nodes: seq<SourceNode>): Option<seq<Stub>> {
    if nodes == [] then Some([])
    else
      var n := nodes[|nodes| - 1].node;
      match Withheld(nodes[..|nodes| - 1])
      case None => None
      case Some(stubs) =>
        if n.name != "withhold" then Some(stubs)
        else if WithheldNode(n).None? || Withholds(stubs, WithheldNode(n).value.tool) then None
        else Some(stubs + [WithheldNode(n).value])
  }

  lemma {:induction false} StubNamesItsTool(tool: string, children: seq<Child>)
    requires ReadStub(tool, children).Some?
    ensures ReadStub(tool, children).value.tool == tool
  {
    if children != [] { StubNamesItsTool(tool, children[..|children| - 1]); }
  }

  lemma {:induction false} WithheldExact(nodes: seq<SourceNode>)
    requires Withheld(nodes).Some?
    ensures var stubs := Withheld(nodes).value;
            && (forall sn :: sn in nodes && sn.node.name == "withhold" ==>
                 && |sn.node.args| == 1 && WithheldNode(sn.node).Some? && WithheldNode(sn.node).value in stubs
                 && WithheldNode(sn.node).value.tool == sn.node.args[0] && WithheldNode(sn.node).value.reason != "")
            && (forall stub :: stub in stubs ==>
                 exists sn :: sn in nodes && sn.node.name == "withhold" && WithheldNode(sn.node) == Some(stub))
  {
    if nodes != [] {
      var front, last := nodes[..|nodes| - 1], nodes[|nodes| - 1];
      WithheldExact(front);
      assert nodes == front + [last];
      if last.node.name == "withhold" {
        StubNamesItsTool(last.node.args[0], last.node.children);
      }
      forall stub | stub in Withheld(nodes).value
        ensures exists sn :: sn in nodes && sn.node.name == "withhold" && WithheldNode(sn.node) == Some(stub)
      {
        if stub in Withheld(front).value {
          var sn :| sn in front && sn.node.name == "withhold" && WithheldNode(sn.node) == Some(stub);
          assert sn in nodes;
        }
      }
    }
  }

  // ---------------------------------------------------------------- vacated controls

  function InheritedToolControls(chain: Chain): set<string> {
    if |chain| < 2 then {}
    else set sn | sn in ParseInlineNodes(chain[..|chain| - 1]) && IsToolScoped(sn.node) && |sn.node.args| == 1 :: sn.node.args[0]
  }

  /** The names that count as an ancestor's: any of the six kinds of control, pooled. */
  lemma InheritedExactly(chain: Chain, tool: string)
    ensures tool in InheritedToolControls(chain) <==>
      exists i, n :: 0 <= i < |chain| - 1 && n in chain[i] && n.args == [tool]
                     && n.name in {"confirm", "cache", "reject-empty", "reject-empty-argument", "pin", "extract"}
  {
    if |chain| >= 2 {
      var base := chain[..|chain| - 1];
      if tool in InheritedToolControls(chain) {
        var sn :| sn in ParseInlineNodes(base) && IsToolScoped(sn.node) && |sn.node.args| == 1 && sn.node.args[0] == tool;
        ComposedNodes(base, sn);
        assert sn.node.args == [tool] && sn.node in chain[sn.index];
      }
      if i, n :| 0 <= i < |chain| - 1 && n in chain[i] && IsToolScoped(n) && n.args == [tool] {
        ComposedNodes(base, SourceNode(n, i));
        assert base[i] == chain[i];
        assert SourceNode(n, i) in ParseInlineNodes(base) && SourceNode(n, i).node.args[0] == tool;
      }
    }
  }

  function DropVacant<T>(m: map<string, T>, inherited: set<string>, minted: set<string>): map<string, T> {
    map k | k in m && (k in minted || k !in inherited) :: m[k]
  }

  /** A parsed control map, deleted from in place. */
  class ControlMap<T> {
    var entries: map<string, T>

    constructor (entries: map<string, T>)
      ensures this.entries == entries
    {
      this.entries := entries;
    }

    method DropVacantControls(inherited: set<string>, minted: set<string>) returns (dropped: set<string>)
      modifies this
      ensures entries == DropVacant(old(entries), inherited, minted)
      ensures dropped == old(entries).Keys * inherited - minted
    {
      dropped := {};
      var unseen := entries.Keys;
      while unseen != {}
        invariant unseen <= entries.Keys <= old(entries).Keys
        invariant dropped == old(entries).Keys - entries.Keys
        invariant forall k :: k in entries ==> entries[k] == old(entries)[k] && (k in unseen || k in minted || k !in inherited)
        invariant forall k :: k in dropped ==> k in inherited && k !in minted
        decreases |unseen|
      {
        var name :| name in unseen;
        unseen := unseen - {name};
        if !(name in minted || name !in inherited) {
          entries := entries - {name};
          dropped := dropped + {name};
        }
      }
    }
  }

  // ---------------------------------------------------------------- the build

  /** The served surface before stubs: what the grants mint, which of that is destructive, the inputs
      each grant declares, and the info tool's name, if it is served. */
  datatype Surface = Surface(minted: set<string>, destructive: set<string>, inputs: map<string, set<string>>, info: Option<string>) {
    function Granted(): set<string> { minted + if info.Some? then {info.value} else {} }
  }

  /** A name answers when a grant mints it or the info tool has it. */
  predicate Serves(surface: Surface, tool: string) { tool in surface.minted || surface.info == Some(tool) }

  datatype Gating = Gating(confirms: map<string, string>, caches: map<string, nat>, rejects: map<string, ()>,
                           fields: FieldLists, stubs: seq<Stub>)

  predicate CachesValid(caches: map<string, nat>, surface: Surface, confirms: map<string, string>) {
    forall tool :: tool in caches ==> tool in surface.minted && tool !in surface.destructive && tool !in confirms
  }

  predicate FieldsValid(fields: FieldLists, surface: Surface) {
    forall tool :: tool in fields ==>
      tool in surface.minted && forall f :: f in fields[tool] ==> tool in surface.inputs && f in surface.inputs[tool]
  }

  predicate StubsValid(stubs: seq<Stub>, granted: set<string>) {
    forall i :: 0 <= i < |stubs| ==>
      stubs[i].tool !in granted && (stubs[i].alternative != "" ==> stubs[i].alternative in granted)
  }

  predicate ConfirmsValid(confirms: map<string, string>, granted: set<string>, stubs: seq<Stub>) {
    forall tool :: tool in confirms ==> tool in granted || Withholds(stubs, tool)
  }

  function Build(chain: Chain, surface: Surface): Option<Gating> {
    var nodes, inherited := ParseInlineNodes(chain), InheritedToolControls(chain);
    var confirms := Keyed(nodes, "confirm", ReadConfirm);
    var stubs := Withheld(nodes);
    var caches := Keyed(nodes, "cache", ReadCache);
    var rejects := Keyed(nodes, "reject-empty", ReadRejectEmpty);
    var fields := EmptyArguments(nodes);
    if confirms.None? || stubs.None? || caches.None? || rejects.None? || fields.None? then None
    else
      var g := Gating(DropVacant(confirms.value, inherited, surface.minted), DropVacant(caches.value, inherited, surface.minted),
                      DropVacant(rejects.value, inherited, surface.minted), DropVacant(fields.value, inherited, surface.minted),
                      stubs.value);
      if && CachesValid(g.caches, surface, g.confirms)
         && g.rejects.Keys <= surface.minted
         && FieldsValid(g.fields, surface)
         && StubsValid(g.stubs, surface.Granted())
         && ConfirmsValid(g.confirms, surface.Granted(), g.stubs)
      then Some(g) else None
  }

  /** A node of one file of the chain that is neither its subject nor a singleton reaches every parser. */
  lemma StatedReachesParsers(chain: Chain, i: nat, n: Node)
    requires i < |chain| && n in chain[i] && !IsSubject(n) && !IsSingleton(n)
    ensures SourceNode(n, i) in ParseInlineNodes(chain)
  {
    ComposedNodes(chain, SourceNode(n, i));
  }

  /** What any file of a chain states about a tool the child mints, the built server enforces. */
  lemma NoGateIsLost(chain: Chain, surface: Surface, i: nat, n: Node, tool: string)
    requires Build(chain, surface).Some? && i < |chain| && n in chain[i] && n.args == [tool]
    ensures var g := Build(chain, surface).value;
            && (n.name == "confirm" && tool in surface.minted ==> tool in g.confirms && Some(g.confirms[tool]) == ReadConfirm(n))
            && (n.name == "reject-empty" && tool in surface.minted ==> tool in g.rejects)
            && (n.name == "reject-empty-argument" && tool in surface.minted ==>
                 tool in g.fields && ReadField(n).Some? && ReadField(n).value in g.fields[tool])
            && (n.name == "cache" && tool in surface.minted ==> tool in g.caches && Some(g.caches[tool]) == ReadCache(n))
            && (n.name == "withhold" ==> !Serves(surface, tool) && WithheldNode(n).Some? && WithheldNode(n).value in g.stubs
                                         && WithheldNode(n).value.tool == tool)
  {
    var nodes, sn := ParseInlineNodes(chain), SourceNode(n, i);
    if n.name == "confirm" {
      StatedReachesParsers(chain, i, n);
      KeyedIff(nodes, "confirm", ReadConfirm);
    } else if n.name == "reject-empty" {
      StatedReachesParsers(chain, i, n);
      KeyedIff(nodes, "reject-empty", ReadRejectEmpty);
    } else if n.name == "reject-empty-argument" {
      StatedReachesParsers(chain, i, n);
      EmptyArgumentsExact(nodes);
    } else if n.name == "cache" {
      StatedReachesParsers(chain, i, n);
      KeyedIff(nodes, "cache", ReadCache);
    } else if n.name == "withhold" {
      StatedReachesParsers(chain, i, n);
      WithheldExact(nodes);
    }
  }

  /** Some file of the chain states a control of this kind on the tool. */
  ghost predicate States(chain: Chain, kind: string, tool: string) {
    exists i, n :: 0 <= i < |chain| && n in chain[i] && n.name == kind && n.args == [tool]
  }

  ghost predicate Composes(nodes: seq<SourceNode>, kind: string, tool: string) {
    exists sn :: sn in nodes && sn.node.name == kind && sn.node.args == [tool]
  }

  lemma StatedConfirmIsComposed(chain: Chain, tool: string)
    ensures Composes(ParseInlineNodes(chain), "confirm", tool) <==> States(chain, "confirm", tool)
  {
    var nodes := ParseInlineNodes(chain);
    if sn :| sn in nodes && sn.node.name == "confirm" && sn.node.args == [tool] {
      ComposedNodes(chain, sn);
    }
    if i, n :| 0 <= i < |chain| && n in chain[i] && n.name == "confirm" && n.args == [tool] {
      StatedReachesParsers(chain, i, n);
      assert SourceNode(n, i).node.args == [tool];
    }
  }

  lemma {:induction false} KeyedIsComposed<V>(nodes: seq<SourceNode>, kind: string, read: Node -> Option<V>, tool: string)
    requires Keyed(nodes, kind, read).Some?
    ensures tool in Keyed(nodes, kind, read).value <==> Composes(nodes, kind, tool)
  {
    KeyedIff(nodes, kind, read);
    var m := Keyed(nodes, kind, read).value;
    if sn :| sn in nodes && sn.node.name == kind && sn.node.args == [tool] {
      assert sn.node.args[0] in m;
    }
  }

  lemma ConfirmsStated(chain: Chain, tool: string)
    requires Keyed(ParseInlineNodes(chain), "confirm", ReadConfirm).Some?
    ensures tool in Keyed(ParseInlineNodes(chain), "confirm", ReadConfirm).value <==> States(chain, "confirm", tool)
  {
    KeyedIsComposed(ParseInlineNodes(chain), "confirm", ReadConfirm, tool);
    StatedConfirmIsComposed(chain, tool);
  }

  /** The confirm map of a built server: every stated confirm but those on a name an ancestor controls
      and the child does not mint. */
  lemma ConfirmsExactly(chain: Chain, surface: Surface, tool: string)
    requires Build(chain, surface).Some?
    ensures tool in Build(chain, surface).value.confirms <==>
      States(chain, "confirm", tool) && (tool in surface.minted || tool !in InheritedToolControls(chain))
  {
    ConfirmsStated(chain, tool);
  }

  // ---------------------------------------------------------------- nothing is gated that no file asks for

  /** Some file of the chain holds this node. */
  ghost predicate Holds(chain: Chain, n: Node) { exists i :: 0 <= i < |chain| && n in chain[i] }

  lemma KeyedIsHeld<V>(chain: Chain, kind: string, read: Node -> Option<V>, tool: string) returns (n: Node)
    requires Keyed(ParseInlineNodes(chain), kind, read).Some? && tool in Keyed(ParseInlineNodes(chain), kind, read).value
    ensures Holds(chain, n) && n.name == kind && n.args == [tool]
    ensures Some(Keyed(ParseInlineNodes(chain), kind, read).value[tool]) == read(n)
  {
    var nodes := ParseInlineNodes(chain);
    KeyedIff(nodes, kind, read);
    var sn :| sn in nodes && sn.node.name == kind && sn.node.args == [tool];
    ComposedNodes(chain, sn);
    n := sn.node;
  }

  lemma FieldIsHeld(chain: Chain, tool: string, field: string) returns (n: Node)
    requires EmptyArguments(ParseInlineNodes(chain)).Some?
    requires field in FieldsOf(EmptyArguments(ParseInlineNodes(chain)).value, tool)
    ensures Holds(chain, n) && n.name == "reject-empty-argument" && n.args == [tool] && ReadField(n) == Some(field)
  {
    var nodes := ParseInlineNodes(chain);
    EmptyArgumentsExact(nodes);
    assert StatesField(nodes, tool, field);
    var sn :| sn in nodes && sn.node.name == "reject-empty-argument" && sn.node.args == [tool] && ReadField(sn.node) == Some(field);
    ComposedNodes(chain, sn);
    n := sn.node;
  }

  lemma StubIsHeld(chain: Chain, stub: Stub) returns (n: Node)
    requires Withheld(ParseInlineNodes(chain)).Some? && stub in Withheld(ParseInlineNodes(chain)).value
    ensures Holds(chain, n) && n.name == "withhold" && n.args == [stub.tool] && WithheldNode(n) == Some(stub)
  {
    var nodes := ParseInlineNodes(chain);
    WithheldExact(nodes);
    var sn :| sn in nodes && sn.node.name == "withhold" && WithheldNode(sn.node) == Some(stub);
    ComposedNodes(chain, sn);
    n := sn.node;
    assert n.args == [n.args[0]];
  }

  /** What a built server has in force on a tool, some file states, with just that reading. */
  ghost predicate OnlyAsked(chain: Chain, g: Gating, tool: string) {
    && (tool in g.confirms ==> exists n :: Holds(chain, n) && n.name == "confirm" && n.args == [tool] && Some(g.confirms[tool]) == ReadConfirm(n))
    && (tool in g.caches ==> exists n :: Holds(chain, n) && n.name == "cache" && n.args == [tool] && Some(g.caches[tool]) == ReadCache(n))
    && (tool in g.rejects ==> exists n :: Holds(chain, n) && n.name == "reject-empty" && n.args == [tool])
    && (forall field :: field in FieldsOf(g.fields, tool) ==>
         exists n :: Holds(chain, n) && n.name == "reject-empty-argument" && n.args == [tool] && ReadField(n) == Some(field))
    && (forall stub :: stub in g.stubs && stub.tool == tool ==>
         exists n :: Holds(chain, n) && n.name == "withhold" && n.args == [tool] && WithheldNode(n) == Some(stub))
  }

  /** No control comes from nowhere: each one a built server holds was stated by a file of its chain. */
  lemma NoGateFromNowhere(chain: Chain, surface: Surface, tool: string)
    requires Build(chain, surface).Some?
    ensures OnlyAsked(chain, Build(chain, surface).value, tool)
  {
    var g := Build(chain, surface).value;
    if tool in g.confirms { var n := KeyedIsHeld(chain, "confirm", ReadConfirm, tool); }
    if tool in g.caches { var n := KeyedIsHeld(chain, "cache", ReadCache, tool); }
    if tool in g.rejects { var n := KeyedIsHeld(chain, "reject-empty", ReadRejectEmpty, tool); }
    forall field | field in FieldsOf(g.fields, tool)
      ensures exists n :: Holds(chain, n) && n.name == "reject-empty-argument" && n.args == [tool] && ReadField(n) == Some(field)
    {
      var n := FieldIsHeld(chain, tool, field);
    }
    forall stub | stub in g.stubs && stub.tool == tool
      ensures exists n :: Holds(chain, n) && n.name == "withhold" && n.args == [tool] && WithheldNode(n) == Some(stub)
    {
      var n := StubIsHeld(chain, stub);
    }
  }

  // ---------------------------------------------------------------- what builds

  /** The control stays: it is stated, on a minted tool or on a name no ancestor controls. */
  ghost predicate InForce(chain: Chain, surface: Surface, kind: string, tool: string) {
    Composes(ParseInlineNodes(chain), kind, tool) && (tool in surface.minted || tool !in InheritedToolControls(chain))
  }

  /** Every field node is well formed, and no two name one field of one tool. */
  ghost predicate FieldsWellRead(nodes: seq<SourceNode>) {
    && (forall i :: 0 <= i < |nodes| && nodes[i].node.name == "reject-empty-argument" ==>
         OneStringArg(nodes[i].node).Some? && ReadField(nodes[i].node).Some?)
    && (forall i, j :: 0 <= i < j < |nodes| && nodes[i].node.name == "reject-empty-argument" == nodes[j].node.name ==>
         nodes[i].node.args != nodes[j].node.args || ReadField(nodes[i].node) != ReadField(nodes[j].node))
  }

  /** Every `withhold` is well formed, and no two withhold one verb. */
  ghost predicate StubsWellRead(nodes: seq<SourceNode>) {
    && (forall i :: 0 <= i < |nodes| && nodes[i].node.name == "withhold" ==> WithheldNode(nodes[i].node).Some?)
    && (forall i, j :: 0 <= i < j < |nodes| && nodes[i].node.name == "withhold" == nodes[j].node.name ==>
         nodes[i].node.args != nodes[j].node.args)
  }

  lemma {:induction false} EmptyArgumentsIff(nodes: seq<SourceNode>)
    ensures EmptyArguments(nodes).Some? <==> FieldsWellRead(nodes)
  {
    if nodes != [] {
      var front, last := nodes[..|nodes| - 1], nodes[|nodes| - 1];
      assert nodes == front + [last];
      EmptyArgumentsIff(front);
      if EmptyArguments(front).Some? {
        FieldsGrow(front, last, EmptyArguments(front).value);
      } else if FieldsWellRead(nodes) {
        assert forall i :: 0 <= i < |front| ==> nodes[i] == front[i];
        assert FieldsWellRead(front);
      }
    }
  }

  lemma {:induction false} FieldsGrow(front: seq<SourceNode>, last: SourceNode, m: FieldLists)
    requires EmptyArguments(front) == Some(m) && FieldsWellRead(front)
    ensures FieldsWellRead(front + [last]) <==>
      last.node.name == "reject-empty-argument" ==>
        && OneStringArg(last.node).Some? && ReadField(last.node).Some?
        && ReadField(last.node).value !in FieldsOf(m, last.node.args[0])
  {
    var nodes := front + [last];
    EmptyArgumentsExact(front);
    assert nodes[|front|] == last && forall i :: 0 <= i < |front| ==> nodes[i] == front[i] && front[i] in front;
    if last.node.name == "reject-empty-argument" && OneStringArg(last.node).Some? && ReadField(last.node).Some? {
      var tool, field := last.node.args[0], ReadField(last.node).value;
      assert last.node.args == [tool];
      if field in FieldsOf(m, tool) {
        assert StatesField(front, tool, field);
        var sn :| sn in front && sn.node.name == "reject-empty-argument" && sn.node.args == [tool] && ReadField(sn.node) == Some(field);
        var i :| 0 <= i < |front| && front[i] == sn;
        assert nodes[i].node.args == nodes[|front|].node.args;
      }
    }
  }

  lemma {:induction false} WithheldIff(nodes: seq<SourceNode>)
    ensures Withheld(nodes).Some? <==> StubsWellRead(nodes)
  {
    if nodes != [] {
      var front, last := nodes[..|nodes| - 1], nodes[|nodes| - 1];
      assert nodes == front + [last];
      WithheldIff(front);
      if Withheld(front).Some? {
        StubsGrow(front, last, Withheld(front).value);
      } else if StubsWellRead(nodes) {
        assert forall i :: 0 <= i < |front| ==> nodes[i] == front[i];
        assert StubsWellRead(front);
      }
    }
  }

  lemma {:induction false} StubsGrow(front: seq<SourceNode>, last: SourceNode, stubs: seq<Stub>)
    requires Withheld(front) == Some(stubs) && StubsWellRead(front)
    ensures StubsWellRead(front + [last]) <==>
      last.node.name == "withhold" ==> WithheldNode(last.node).Some? && !Withholds(stubs, WithheldNode(last.node).value.tool)
  {
    var nodes := front + [last];
    assert nodes[|front|] == last && forall i :: 0 <= i < |front| ==> nodes[i] == front[i];
    if last.node.name == "withhold" && WithheldNode(last.node).Some? {
      var stub := WithheldNode(last.node).value;
      StubNamesItsTool(last.node.args[0], last.node.children);
      assert last.node.args == [stub.tool];
      WithholdsIff(front, stub.tool);
      assert Withholds(stubs, stub.tool) <==> exists i :: 0 <= i < |front| && WithholdsAt(front, i, stub.tool);
      if i :| 0 <= i < |front| && WithholdsAt(front, i, stub.tool) {
        assert nodes[i].node.args == nodes[|front|].node.args;
      }
      forall i | 0 <= i < |front| && front[i].node.name == "withhold" && front[i].node.args == last.node.args
        ensures WithholdsAt(front, i, stub.tool) {}
    }
  }

  predicate WithholdsAt(nodes: seq<SourceNode>, i: nat, tool: string)
    requires i < |nodes|
  {
    nodes[i].node.name == "withhold" && nodes[i].node.args == [tool]
  }

  /** The stubs withhold a verb exactly when a node does. */
  lemma {:induction false} WithholdsIff(nodes: seq<SourceNode>, tool: string)
    requires Withheld(nodes).Some?
    ensures Withholds(Withheld(nodes).value, tool) <==> exists i :: 0 <= i < |nodes| && WithholdsAt(nodes, i, tool)
  {
    var stubs := Withheld(nodes).value;
    WithheldExact(nodes);
    if k :| 0 <= k < |stubs| && stubs[k].tool == tool {
      assert stubs[k] in stubs;
      var sn :| sn in nodes && sn.node.name == "withhold" && WithheldNode(sn.node) == Some(stubs[k]);
      var i :| 0 <= i < |nodes| && nodes[i] == sn;
      assert sn.node.args == [sn.node.args[0]] && WithholdsAt(nodes, i, tool);
    }
    if i :| 0 <= i < |nodes| && WithholdsAt(nodes, i, tool) {
      assert nodes[i] in nodes;
      var k :| 0 <= k < |stubs| && stubs[k] == WithheldNode(nodes[i].node).value;
    }
  }

  /** The controls a chain states all read. */
  ghost predicate Reads(chain: Chain) {
    var nodes := ParseInlineNodes(chain);
    && WellRead(nodes, "confirm", ReadConfirm) && WellRead(nodes, "cache", ReadCache) && WellRead(nodes, "reject-empty", ReadRejectEmpty)
    && FieldsWellRead(nodes) && StubsWellRead(nodes)
  }

  ghost predicate ConfirmsAimed(chain: Chain, surface: Surface) {
    forall tool :: InForce(chain, surface, "confirm", tool) ==>
      Serves(surface, tool) || Composes(ParseInlineNodes(chain), "withhold", tool)
  }

  ghost predicate CachesAimed(chain: Chain, surface: Surface) {
    forall tool :: InForce(chain, surface, "cache", tool) ==>
      tool in surface.minted && tool !in surface.destructive && !InForce(chain, surface, "confirm", tool)
  }

  ghost predicate RejectsAimed(chain: Chain, surface: Surface) {
    forall tool :: InForce(chain, surface, "reject-empty", tool) ==> tool in surface.minted
  }

  ghost predicate FieldsAimed(chain: Chain, surface: Surface) {
    forall tool, field :: StatesField(ParseInlineNodes(chain), tool, field) && InForce(chain, surface, "reject-empty-argument", tool) ==>
      tool in surface.minted && tool in surface.inputs && field in surface.inputs[tool]
  }

  ghost predicate StubsAimed(nodes: seq<SourceNode>, surface: Surface) {
    forall sn, stub :: sn in nodes && sn.node.name == "withhold" && WithheldNode(sn.node) == Some(stub) ==>
      !Serves(surface, stub.tool) && (stub.alternative != "" ==> Serves(surface, stub.alternative))
  }

  /** And those in force are aimed at something they can work on. */
  ghost predicate Aimed(chain: Chain, surface: Surface) {
    && ConfirmsAimed(chain, surface) && CachesAimed(chain, surface) && RejectsAimed(chain, surface)
    && FieldsAimed(chain, surface) && StubsAimed(ParseInlineNodes(chain), surface)
  }

  lemma {:induction false} KeptIsInForce<V>(chain: Chain, surface: Surface, kind: string, read: Node -> Option<V>, tool: string)
    requires Keyed(ParseInlineNodes(chain), kind, read).Some?
    ensures tool in DropVacant(Keyed(ParseInlineNodes(chain), kind, read).value, InheritedToolControls(chain), surface.minted)
            <==> InForce(chain, surface, kind, tool)
  {
    KeyedIsComposed(ParseInlineNodes(chain), kind, read, tool);
  }
  lemma {:induction false} FieldStatedIff(nodes: seq<SourceNode>, tool: string, field: string)
    requires EmptyArguments(nodes).Some?
    ensures field in FieldsOf(EmptyArguments(nodes).value, tool) <==> StatesField(nodes, tool, field)
  {
    EmptyArgumentsExact(nodes);
  }

  lemma {:induction false} FieldToolIff(nodes: seq<SourceNode>, tool: string)
    requires EmptyArguments(nodes).Some?
    ensures tool in EmptyArguments(nodes).value <==> Composes(nodes, "reject-empty-argument", tool)
    ensures tool in EmptyArguments(nodes).value ==> EmptyArguments(nodes).value[tool] != []
  {
    var m := EmptyArguments(nodes).value;
    EmptyArgumentsExact(nodes);
    if tool in m {
      assert m[tool][0] in FieldsOf(m, tool);
      assert StatesField(nodes, tool, m[tool][0]);
    }
    if sn :| sn in nodes && sn.node.name == "reject-empty-argument" && sn.node.args == [tool] {
      assert ReadField(sn.node).value in FieldsOf(m, sn.node.args[0]);
    }
  }

  /** Validation of field lists, field by field. */
  lemma FieldsValidIff(fields: FieldLists, surface: Surface)
    requires forall tool :: tool in fields ==> fields[tool] != []
    ensures FieldsValid(fields, surface) <==>
      forall tool, field :: field in FieldsOf(fields, tool) ==>
        tool in surface.minted && tool in surface.inputs && field in surface.inputs[tool]
  {
    forall tool | tool in fields ensures fields[tool][0] in FieldsOf(fields, tool) {}
  }

  lemma FieldsAimedIff(chain: Chain, surface: Surface)
    requires EmptyArguments(ParseInlineNodes(chain)).Some?
    ensures FieldsValid(DropVacant(EmptyArguments(ParseInlineNodes(chain)).value, InheritedToolControls(chain), surface.minted), surface)
            <==> FieldsAimed(chain, surface)
  {
    var nodes := ParseInlineNodes(chain);
    var fields := DropVacant(EmptyArguments(nodes).value, InheritedToolControls(chain), surface.minted);
    forall tool | tool in fields ensures fields[tool] != [] { FieldToolIff(nodes, tool); }
    FieldsValidIff(fields, surface);
    forall tool, field
      ensures field in FieldsOf(fields, tool) <==> StatesField(nodes, tool, field) && InForce(chain, surface, "reject-empty-argument", tool)
    {
      FieldStatedIff(nodes, tool, field);
      FieldToolIff(nodes, tool);
    }
  }

  lemma {:induction false} StubsAimedIff(nodes: seq<SourceNode>, surface: Surface)
    requires Withheld(nodes).Some?
    ensures StubsValid(Withheld(nodes).value, surface.Granted()) <==> StubsAimed(nodes, surface)
  {
    var stubs := Withheld(nodes).value;
    WithheldExact(nodes);
    if StubsAimed(nodes, surface) {
      forall i | 0 <= i < |stubs|
        ensures !Serves(surface, stubs[i].tool) && (stubs[i].alternative != "" ==> Serves(surface, stubs[i].alternative))
      {
        assert stubs[i] in stubs;
      }
    }
    if StubsValid(stubs, surface.Granted()) {
      forall sn, stub | sn in nodes && sn.node.name == "withhold" && WithheldNode(sn.node) == Some(stub)
        ensures !Serves(surface, stub.tool) && (stub.alternative != "" ==> Serves(surface, stub.alternative))
      {
        var k :| 0 <= k < |stubs| && stubs[k] == stub;
      }
    }
  }

  lemma ConfirmsAimedIff(chain: Chain, surface: Surface, confirms: map<string, string>, stubs: seq<Stub>)
    requires Keyed(ParseInlineNodes(chain), "confirm", ReadConfirm).Some? && Withheld(ParseInlineNodes(chain)) == Some(stubs)
    requires confirms == DropVacant(Keyed(ParseInlineNodes(chain), "confirm", ReadConfirm).value, InheritedToolControls(chain), surface.minted)
    ensures ConfirmsValid(confirms, surface.Granted(), stubs) <==> ConfirmsAimed(chain, surface)
  {
    var nodes := ParseInlineNodes(chain);
    forall tool
      ensures tool in confirms <==> InForce(chain, surface, "confirm", tool)
      ensures Withholds(stubs, tool) <==> Composes(nodes, "withhold", tool)
    {
      KeptIsInForce(chain, surface, "confirm", ReadConfirm, tool);
      WithholdsIff(nodes, tool);
      if sn :| sn in nodes && sn.node.name == "withhold" && sn.node.args == [tool] {
        var i :| 0 <= i < |nodes| && nodes[i] == sn;
        assert WithholdsAt(nodes, i, tool);
      }
      if i :| 0 <= i < |nodes| && WithholdsAt(nodes, i, tool) { assert nodes[i] in nodes; }
    }
  }

  lemma CachesAimedIff(chain: Chain, surface: Surface, caches: map<string, nat>, confirms: map<string, string>)
    requires Keyed(ParseInlineNodes(chain), "confirm", ReadConfirm).Some? && Keyed(ParseInlineNodes(chain), "cache", ReadCache).Some?
    requires confirms == DropVacant(Keyed(ParseInlineNodes(chain), "confirm", ReadConfirm).value, InheritedToolControls(chain), surface.minted)
    requires caches == DropVacant(Keyed(ParseInlineNodes(chain), "cache", ReadCache).value, InheritedToolControls(chain), surface.minted)
    ensures CachesValid(caches, surface, confirms) <==> CachesAimed(chain, surface)
  {
    forall tool
      ensures tool in confirms <==> InForce(chain, surface, "confirm", tool)
      ensures tool in caches <==> InForce(chain, surface, "cache", tool)
    {
      KeptIsInForce(chain, surface, "confirm", ReadConfirm, tool);
      KeptIsInForce(chain, surface, "cache", ReadCache, tool);
    }
  }

  lemma RejectsAimedIff(chain: Chain, surface: Surface, rejects: map<string, ()>)
    requires Keyed(ParseInlineNodes(chain), "reject-empty", ReadRejectEmpty).Some?
    requires rejects == DropVacant(Keyed(ParseInlineNodes(chain), "reject-empty", ReadRejectEmpty).value, InheritedToolControls(chain), surface.minted)
    ensures rejects.Keys <= surface.minted <==> RejectsAimed(chain, surface)
  {
    forall tool ensures tool in rejects.Keys <==> InForce(chain, surface, "reject-empty", tool) {
      KeptIsInForce(chain, surface, "reject-empty", ReadRejectEmpty, tool);
    }
  }

  lemma ReadsIff(chain: Chain)
    ensures var nodes := ParseInlineNodes(chain);
            Reads(chain) <==>
              && Keyed(nodes, "confirm", ReadConfirm).Some? && Keyed(nodes, "cache", ReadCache).Some?
              && Keyed(nodes, "reject-empty", ReadRejectEmpty).Some? && EmptyArguments(nodes).Some? && Withheld(nodes).Some?
  {
    var nodes := ParseInlineNodes(chain);
    KeyedIff(nodes, "confirm", ReadConfirm);
    KeyedIff(nodes, "cache", ReadCache);
    KeyedIff(nodes, "reject-empty", ReadRejectEmpty);
    EmptyArgumentsIff(nodes);
    WithheldIff(nodes);
  }

  /** A chain builds exactly when all its controls read and those in force are aimed. */
  lemma BuildsIff(chain: Chain, surface: Surface)
    ensures Build(chain, surface).Some? <==> Reads(chain) && Aimed(chain, surface)
  {
    ReadsIff(chain);
    if Reads(chain) {
      var nodes, inherited := ParseInlineNodes(chain), InheritedToolControls(chain);
      var confirms := DropVacant(Keyed(nodes, "confirm", ReadConfirm).value, inherited, surface.minted);
      ConfirmsAimedIff(chain, surface, confirms, Withheld(nodes).value);
      CachesAimedIff(chain, surface, DropVacant(Keyed(nodes, "cache", ReadCache).value, inherited, surface.minted), confirms);
      RejectsAimedIff(chain, surface, DropVacant(Keyed(nodes, "reject-empty", ReadRejectEmpty).value, inherited, surface.minted));
      FieldsAimedIff(chain, surface);
      StubsAimedIff(nodes, surface);
    }
  }

  /** A child is never less gated than its base. Take any chain and any file in it that builds on its
      own tier: on every tool the child still mints, each confirmation keeps its message and each
      refusal stays, and every verb the base withholds is withheld. */
  lemma NeverLessGated(chain: Chain, tier: nat, base: Surface, child: Surface, tool: string)
    requires 0 < tier <= |chain| && Build(chain[..tier], base).Some? && Build(chain, child).Some?
    ensures var b, c := Build(chain[..tier], base).value, Build(chain, child).value;
            && (tool in b.confirms && tool in child.minted ==> tool in c.confirms && c.confirms[tool] == b.confirms[tool])
            && (tool in b.rejects && tool in child.minted ==> tool in c.rejects)
            && (tool in b.fields && tool in child.minted ==> tool in c.fields && forall f :: f in b.fields[tool] ==> f in c.fields[tool])
            && (forall stub :: stub in b.stubs ==> stub in c.stubs && !Serves(child, stub.tool))
  {
    BaseConfirmsKept(chain, tier, base, child, tool);
    BaseRejectsKept(chain, tier, base, child, tool);
    BaseFieldsKept(chain, tier, base, child, tool);
    BaseStubsKept(chain, tier, base, child);
  }

  lemma BaseConfirmsKept(chain: Chain, tier: nat, base: Surface, child: Surface, tool: string)
    requires 0 < tier <= |chain| && Build(chain[..tier], base).Some? && Build(chain, child).Some?
    ensures var b, c := Build(chain[..tier], base).value, Build(chain, child).value;
            tool in b.confirms && tool in child.minted ==> tool in c.confirms && c.confirms[tool] == b.confirms[tool]
  {
    var nodes := ParseInlineNodes(chain[..tier]);
    if tool in Build(chain[..tier], base).value.confirms {
      KeyedIff(nodes, "confirm", ReadConfirm);
      var sn :| sn in nodes && sn.node.name == "confirm" && sn.node.args == [tool];
      ComposedNodes(chain[..tier], sn);
      NoGateIsLost(chain, child, sn.index, sn.node, tool);
    }
  }

  lemma BaseRejectsKept(chain: Chain, tier: nat, base: Surface, child: Surface, tool: string)
    requires 0 < tier <= |chain| && Build(chain[..tier], base).Some? && Build(chain, child).Some?
    ensures tool in Build(chain[..tier], base).value.rejects && tool in child.minted ==> tool in Build(chain, child).value.rejects
  {
    var nodes := ParseInlineNodes(chain[..tier]);
    if tool in Build(chain[..tier], base).value.rejects {
      KeyedIff(nodes, "reject-empty", ReadRejectEmpty);
      var sn :| sn in nodes && sn.node.name == "reject-empty" && sn.node.args == [tool];
      ComposedNodes(chain[..tier], sn);
      NoGateIsLost(chain, child, sn.index, sn.node, tool);
    }
  }

  lemma BaseFieldsKept(chain: Chain, tier: nat, base: Surface, child: Surface, tool: string)
    requires 0 < tier <= |chain| && Build(chain[..tier], base).Some? && Build(chain, child).Some?
    ensures var b, c := Build(chain[..tier], base).value, Build(chain, child).value;
            tool in b.fields && tool in child.minted ==> tool in c.fields && forall f :: f in b.fields[tool] ==> f in c.fields[tool]
  {
    var nodes, b, c := ParseInlineNodes(chain[..tier]), Build(chain[..tier], base).value, Build(chain, child).value;
    if tool in b.fields && tool in child.minted {
      EmptyArgumentsExact(nodes);
      forall f | f in b.fields[tool]
        ensures tool in c.fields && f in c.fields[tool]
      {
        assert f in FieldsOf(EmptyArguments(nodes).value, tool);
        assert StatesField(nodes, tool, f);
        var sn :| sn in nodes && sn.node.name == "reject-empty-argument" && sn.node.args == [tool] && ReadField(sn.node) == Some(f);
        ComposedNodes(chain[..tier], sn);
        NoGateIsLost(chain, child, sn.index, sn.node, tool);
      }
      assert b.fields[tool][0] in b.fields[tool];
    }
  }

  lemma BaseStubsKept(chain: Chain, tier: nat, base: Surface, child: Surface)
    requires 0 < tier <= |chain| && Build(chain[..tier], base).Some? && Build(chain, child).Some?
    ensures var b, c := Build(chain[..tier], base).value, Build(chain, child).value;
            forall stub :: stub in b.stubs ==> stub in c.stubs && !Serves(child, stub.tool)
  {
    var nodes, b := ParseInlineNodes(chain[..tier]), Build(chain[..tier], base).value;
    WithheldExact(nodes);
    forall stub | stub in b.stubs
      ensures stub in Build(chain, child).value.stubs && !Serves(child, stub.tool)
    {
      var sn :| sn in nodes && sn.node.name == "withhold" && WithheldNode(sn.node) == Some(stub);
      ComposedNodes(chain[..tier], sn);
      assert sn.node.args == [sn.node.args[0]];
      NoGateIsLost(chain, child, sn.index, sn.node, sn.node.args[0]);
    }
  }

  /** Which confirms a build accepts: those on a served name or a stub, and also every one on a name an
      ancestor controls, dropped in silence whoever stated it and whatever kind the ancestor's was. */
  lemma ConfirmsAcceptedIff(confirms: map<string, string>, chain: Chain, surface: Surface, stubs: seq<Stub>)
    ensures ConfirmsValid(DropVacant(confirms, InheritedToolControls(chain), surface.minted), surface.Granted(), stubs)
            <==> forall tool :: tool in confirms ==>
                   Serves(surface, tool) || Withholds(stubs, tool) || tool in InheritedToolControls(chain)
  {
  }

  lemma {:induction false} KeyedSkips<V>(front: seq<SourceNode>, sn: SourceNode, kind: string, read: Node -> Option<V>)
    requires sn.node.name != kind
    ensures Keyed(front + [sn], kind, read) == Keyed(front, kind, read)
  {
    assert (front + [sn])[..|front|] == front;
  }

  lemma {:induction false} KeyedTakes<V>(front: seq<SourceNode>, sn: SourceNode, kind: string, read: Node -> Option<V>)
    requires sn.node.name == kind && OneStringArg(sn.node).Some? && read(sn.node).Some?
    requires Keyed(front, kind, read) == Some(map[])
    ensures Keyed(front + [sn], kind, read) == Some(map[sn.node.args[0] := read(sn.node).value])
  {
    assert (front + [sn])[..|front|] == front;
  }

  lemma {:induction false} OthersSkip(front: seq<SourceNode>, sn: SourceNode)
    requires sn.node.name == "confirm" || sn.node.name == "reject-empty"
    requires Keyed(front, "cache", ReadCache) == Some(map[]) && Withheld(front) == Some([]) && EmptyArguments(front) == Some(map[])
    ensures var nodes := front + [sn];
            Keyed(nodes, "cache", ReadCache) == Some(map[]) && Withheld(nodes) == Some([]) && EmptyArguments(nodes) == Some(map[])
  {
    assert (front + [sn])[..|front|] == front;
    assert |"cache"| == 5 && |"confirm"| == 7 && |"reject-empty"| == 12 && |"withhold"| == 8 && |"reject-empty-argument"| == 21;
    KeyedSkips(front, sn, "cache", ReadCache);
  }

  function Typo(tool: string): Node { Node("confirm", [tool], map[], []) }

  function Other(tool: string): Node { Node("reject-empty", [tool], map[], []) }

  function Bare(minted: set<string>): Surface { Surface(minted, {}, map[], None) }

  /** So the child's own confirm on a tool nobody mints builds, against the comment on
      `dropVacantControls`, once its base states any control at all on that name. */
  lemma ChildsOwnTypoBuilds(tool: string, minted: set<string>)
    requires tool != "" && tool !in minted
    ensures Build([[], [Typo(tool)]], Bare(minted)).None?
    ensures Build([[Other(tool)], [Typo(tool)]], Bare(minted)) == Some(Gating(map[], map[], map[], map[], []))
  {
    TypoAloneFails(tool, minted);
    TypoBehindOtherBuilds(tool, minted);
  }

  lemma TypoAloneFails(tool: string, minted: set<string>)
    requires tool != "" && tool !in minted
    ensures Build([[], [Typo(tool)]], Bare(minted)).None?
  {
    var chain := [[], [Typo(tool)]];
    TwoFiles([], [Typo(tool)]);
    var sn := SourceNode(Typo(tool), 1);
    assert ParseInlineNodes(chain) == [] + [sn];
    KeyedTakes([], sn, "confirm", ReadConfirm);
    OthersSkip([], sn);
    InheritedExactly(chain, tool);
  }

  lemma TypoBehindOtherBuilds(tool: string, minted: set<string>)
    requires tool != "" && tool !in minted
    ensures Build([[Other(tool)], [Typo(tool)]], Bare(minted)) == Some(Gating(map[], map[], map[], map[], []))
  {
    var chain, surface := [[Other(tool)], [Typo(tool)]], Bare(minted);
    var nodes := ParseInlineNodes(chain);
    TypoBehindOtherReads(tool);
    InheritedExactly(chain, tool);
    assert Other(tool) in chain[0] && Other(tool).args == [tool];
    AllVacant(Keyed(nodes, "confirm", ReadConfirm).value, tool, InheritedToolControls(chain), minted);
    AllVacant(Keyed(nodes, "reject-empty", ReadRejectEmpty).value, tool, InheritedToolControls(chain), minted);
  }

  lemma AllVacant<T>(m: map<string, T>, tool: string, inherited: set<string>, minted: set<string>)
    requires m.Keys == {tool} && tool in inherited && tool !in minted
    ensures DropVacant(m, inherited, minted) == map[]
  {
  }

  /** What the parsers read off the two files: one confirm, one refusal, and nothing else. */
  lemma TypoBehindOtherReads(tool: string)
    requires tool != ""
    ensures var nodes := ParseInlineNodes([[Other(tool)], [Typo(tool)]]);
            && Keyed(nodes, "confirm", ReadConfirm).Some? && Keyed(nodes, "confirm", ReadConfirm).value.Keys == {tool}
            && Keyed(nodes, "reject-empty", ReadRejectEmpty).Some? && Keyed(nodes, "reject-empty", ReadRejectEmpty).value.Keys == {tool}
            && Keyed(nodes, "cache", ReadCache) == Some(map[]) && Withheld(nodes) == Some([]) && EmptyArguments(nodes) == Some(map[])
  {
    TwoFiles([Other(tool)], [Typo(tool)]);
    var first, second := SourceNode(Other(tool), 0), SourceNode(Typo(tool), 1);
    assert [] + [first] == [first];
    assert |"confirm"| != |"reject-empty"|;
    KeyedSkips([], first, "confirm", ReadConfirm);
    KeyedTakes([first], second, "confirm", ReadConfirm);
    KeyedTakes([], first, "reject-empty", ReadRejectEmpty);
    KeyedSkips([first], second, "reject-empty", ReadRejectEmpty);
    OthersSkip([], first);
    OthersSkip([first], second);
  }

  lemma TwoFiles(base: seq<Node>, child: seq<Node>)
    requires |base| <= 1 && |child| == 1
    requires forall n :: n in base + child ==> !IsSubject(n) && !IsSingleton(n)
    ensures ParseInlineNodes([base, child])
         == (if base == [] then [] else [SourceNode(base[0], 0)]) + [SourceNode(child[0], 1)]
  {
    var chain := [base, child];
    assert chain[..1] == [base] && [base][..0] == [];
    assert child[..0] == [] && base[..0] == [];
    assert child[0] in base + child;
    assert Tagged(child, 1) == [SourceNode(child[0], 1)];
    if base != [] {
      assert base[0] in base + child;
      assert Tagged(base, 0) == [SourceNode(base[0], 0)];
    }
    assert AllNodes([base]) == Tagged(base, 0);
    var all := AllNodes(chain);
    assert all == AllNodes([base]) + Tagged(child, 1);
    assert all == (if base == [] then [] else [SourceNode(base[0], 0)]) + [SourceNode(child[0], 1)];
    KeepAll(all, all);
  }

  lemma {:induction false} KeepAll(nodes: seq<SourceNode>, among: seq<SourceNode>)
    requires forall sn :: sn in among ==> !IsSingleton(sn.node)
    ensures Kept(nodes, among) == among
  {
    if among != [] {
      KeepAll(nodes, among[..|among| - 1]);
      assert among == among[..|among| - 1] + [among[|among| - 1]];
    }
  }
}
