/** internal/mcpserver/compose.go, second half, and the parts of server.go, confirm.go, withhold.go,
    cache.go, rejectempty.go and rejectemptyarg.go that turn a composed chain of guardfiles into the
    controls a server runs with. A chain is one node list per file, root-most first, the child last. */
module Controls {
  import opened Wrappers

  /** A property value: its text, and the duration that text spells, if it spells one. */
  datatype Prop = Prop(text: string, duration: Option<int>)

  datatype Child = Child(name: string, args: seq<string>)

  datatype Node = Node(name: string, args: seq<string>, props: map<string, Prop>, children: seq<Child>)

  datatype SourceNode = SourceNode(node: Node, index: nat)

  type Chain = seq<seq<Node>>

  predicate IsSubject(n: Node) { n.name == "wrap" || n.name == "mcp-upstream" }

  predicate IsSingleton(n: Node) { n.name == "instructions" || n.name == "server-info" || n.name == "rate-limit" }

  predicate IsToolScoped(n: Node) {
    || n.name == "confirm" || n.name == "cache" || n.name == "reject-empty"
    || n.name == "reject-empty-argument" || n.name == "pin" || n.name == "extract"
  }

  // ---------------------------------------------------------------- composing the chain's nodes

  function Tagged(nodes: seq<Node>, index: nat): seq<SourceNode> {
    if nodes == [] then []
    else
      var last := nodes[|nodes| - 1];
      Tagged(nodes[..|nodes| - 1], index) + if IsSubject(last) then [] else [SourceNode(last, index)]
  }

  function AllNodes(chain: Chain): seq<SourceNode> {
    if chain == [] then [] else AllNodes(chain[..|chain| - 1]) + Tagged(chain[|chain| - 1], |chain| - 1)
  }

  /** The nearest file that states a name, or 0. */
  function Winner(nodes: seq<SourceNode>, name: string): nat {
    if nodes == [] then 0
    else
      var last, rest := nodes[|nodes| - 1], Winner(nodes[..|nodes| - 1], name);
      if last.node.name == name && last.index > rest then last.index else rest
  }

  predicate Survives(nodes: seq<SourceNode>, sn: SourceNode) {
    !IsSingleton(sn.node) || Winner(nodes, sn.node.name) == sn.index
  }

  function Kept(nodes: seq<SourceNode>, among: seq<SourceNode>): seq<SourceNode> {
    if among == [] then []
    else
      var last := among[|among| - 1];
      Kept(nodes, among[..|among| - 1]) + if Survives(nodes, last) then [last] else []
  }

  function ParseInlineNodes(chain: Chain): seq<SourceNode> {
    Kept(AllNodes(chain), AllNodes(chain))
  }

  /** `pruneSingletons`, its two loops over a `winner` map that reads 0 for a name it has not seen. */
  method PruneSingletons(nodes: seq<SourceNode>) returns (out: seq<SourceNode>)
    ensures out == Kept(nodes, nodes)
  {
    var winner: map<string, nat> := map[];
    var i := 0;
    while i < |nodes|
      invariant 0 <= i <= |nodes|
      invariant forall sn :: sn in nodes && IsSingleton(sn.node) ==>
        (if sn.node.name in winner then winner[sn.node.name] else 0) == Winner(nodes[..i], sn.node.name)
    {
      var sn := nodes[i];
      assert nodes[..i + 1][..i] == nodes[..i];
      if IsSingleton(sn.node) && sn.index > (if sn.node.name in winner then winner[sn.node.name] else 0) {
        winner := winner[sn.node.name := sn.index];
      }
      i := i + 1;
    }
    assert nodes[..|nodes|] == nodes;
    out := [];
    i := 0;
    while i < |nodes|
      invariant 0 <= i <= |nodes|
      invariant out == Kept(nodes, nodes[..i])
    {
      var sn := nodes[i];
      assert nodes[..i + 1][..i] == nodes[..i];
      if !IsSingleton(sn.node) || (if sn.node.name in winner then winner[sn.node.name] else 0) == sn.index {
        out := out + [sn];
      }
      i := i + 1;
    }
  }

  lemma {:induction false} TaggedMembers(nodes: seq<Node>, index: nat, sn: SourceNode)
    ensures sn in Tagged(nodes, index) <==> sn.index == index && sn.node in nodes && !IsSubject(sn.node)
  {
    if nodes != [] {
      TaggedMembers(nodes[..|nodes| - 1], index, sn);
      assert nodes == nodes[..|nodes| - 1] + [nodes[|nodes| - 1]];
    }
  }

  lemma {:induction false} AllNodesMembers(chain: Chain, sn: SourceNode)
    ensures sn in AllNodes(chain) <==> sn.index < |chain| && sn.node in chain[sn.index] && !IsSubject(sn.node)
  {
    if chain != [] {
      var n := |chain| - 1;
      AllNodesMembers(chain[..n], sn);
      TaggedMembers(chain[n], n, sn);
    }
  }

  lemma {:induction false} WinnerIsNearest(nodes: seq<SourceNode>, name: string)
    ensures forall sn :: sn in nodes && sn.node.name == name ==> sn.index <= Winner(nodes, name)
    ensures Winner(nodes, name) > 0 ==> exists sn :: sn in nodes && sn.node.name == name && sn.index == Winner(nodes, name)
  {
    if nodes != [] {
      WinnerIsNearest(nodes[..|nodes| - 1], name);
      assert nodes == nodes[..|nodes| - 1] + [nodes[|nodes| - 1]];
    }
  }

  lemma {:induction false} KeptMembers(nodes: seq<SourceNode>, among: seq<SourceNode>, sn: SourceNode)
    ensures sn in Kept(nodes, among) <==> sn in among && Survives(nodes, sn)
  {
    if among != [] {
      KeptMembers(nodes, among[..|among| - 1], sn);
      assert among == among[..|among| - 1] + [among[|among| - 1]];
    }
  }

  /** Composition keeps every node of every file, except that a singleton survives from exactly the
      nearest file that states one, and from it every time it is stated. */
  lemma ComposedNodes(chain: Chain, sn: SourceNode)
    ensures sn in ParseInlineNodes(chain) <==>
      && sn.index < |chain| && sn.node in chain[sn.index] && sn.node.name !in {"wrap", "mcp-upstream"}
      && (sn.node.name in {"instructions", "server-info", "rate-limit"} ==>
           forall i, n :: sn.index < i < |chain| && n in chain[i] ==> n.name != sn.node.name)
  {
    var all, name := AllNodes(chain), sn.node.name;
    KeptMembers(all, all, sn);
    AllNodesMembers(chain, sn);
    if IsSingleton(sn.node) {
      WinnerIsNearest(all, name);
      forall i, n | sn.index < i < |chain| && n in chain[i] && n.name == name && Winner(all, name) == sn.index
        ensures !(sn in all)
      {
        AllNodesMembers(chain, SourceNode(n, i));
        assert SourceNode(n, i) in all;
      }
      if sn in all && Winner(all, name) != sn.index {
        var nearer :| nearer in all && nearer.node.name == name && nearer.index == Winner(all, name);
        AllNodesMembers(chain, nearer);
      }
    }
  }

  // ---------------------------------------------------------------- reading one kind of node

  function OneStringArg(n: Node): Option<string> {
    if |n.args| == 1 && n.args[0] != "" then Some(n.args[0]) else None
  }

  /** A control stated at most once per tool: `confirm`, `cache` and `reject-empty`. */
  function Keyed<V>(nodes: seq<SourceNode>, kind: string, read: Node -> Option<V>): Option<map<string, V>> {
    if nodes == [] then Some(map[])
    else
      var n := nodes[|nodes| - 1].node;
      match Keyed(nodes[..|nodes| - 1], kind, read)
      case None => None
      case Some(m) =>
        if n.name != kind then Some(m)
        else if OneStringArg(n).None? || n.args[0] in m || read(n).None? then None
        else Some(m[n.args[0] := read(n).value])
  }

  /** `confirm` takes a non-empty message and nothing else, and words its own when there is none. */
  function ReadConfirm(n: Node): Option<string> {
    if !(n.props.Keys <= {"message"}) then None
    else if "message" !in n.props then Some("Run \"" + (if n.args != [] then n.args[0] else "") + "\"? This tool changes upstream state.")
    else if n.props["message"].text == "" then None
    else Some(n.props["message"].text)
  }

  const MAX_CACHE_TTL := 24 * 3600 * 1_000_000_000

  /** `cache` needs a positive ttl of at most a day, in nanoseconds. */
  function ReadCache(n: Node): Option<nat> {
    if !(n.props.Keys <= {"ttl"}) || "ttl" !in n.props || n.props["ttl"].duration.None? then None
    else
      var ttl := n.props["ttl"].duration.value;
      if 0 < ttl <= MAX_CACHE_TTL then Some(ttl) else None
  }

  function ReadRejectEmpty(n: Node): Option<()> {
    if n.props == map[] then Some(()) else None
  }

  /** A confirm reads exactly as its own message when it states one, or as a prompt that names the tool. */
  lemma ConfirmReadsIff(tool: string, props: map<string, Prop>, children: seq<Child>, message: string)
    ensures ReadConfirm(Node("confirm", [tool], props, children)) == Some(message) <==>
      || (props == map[] && message == "Run \"" + tool + "\"? This tool changes upstream state.")
      || (props.Keys == {"message"} && props["message"].text == message != "")
  {
    assert props.Keys <= {"message"} && "message" !in props ==> props == map[];
    assert props.Keys <= {"message"} && "message" in props ==> props.Keys == {"message"};
  }

  /** A cache reads exactly as the ttl it states, alone, when that is positive and at most a day. */
  lemma CacheReadsIff(n: Node, ttl: nat)
    ensures ReadCache(n) == Some(ttl) <==>
      n.props.Keys == {"ttl"} && n.props["ttl"].duration == Some(ttl) && 1 <= ttl <= 86_400_000_000_000
  {
    assert n.props.Keys <= {"ttl"} && "ttl" in n.props ==> n.props.Keys == {"ttl"};
  }

  lemma RejectReadsIff(n: Node)
    ensures ReadRejectEmpty(n).Some? <==> forall property :: property !in n.props
  {
  }

  method ParseKeyed<V>(nodes: seq<SourceNode>, kind: string, read: Node -> Option<V>) returns (r: Option<map<string, V>>)
    ensures r == Keyed(nodes, kind, read)
  {
    var out: map<string, V> := map[];
    var i := 0;
    while i < |nodes|
      invariant 0 <= i <= |nodes|
      invariant Keyed(nodes[..i], kind, read) == Some(out)
    {
      var n := nodes[i].node;
      assert nodes[..i + 1][..i] == nodes[..i];
      if n.name == kind {
        if OneStringArg(n).None? || n.args[0] in out || read(n).None? {
          KeyedPrefixFails(nodes, kind, read, i + 1);
          return None;
        }
        out := out[n.args[0] := read(n).value];
      }
      i := i + 1;
    }
    assert nodes[..|nodes|] == nodes;
    r := Some(out);
  }

  lemma {:induction false} KeyedPrefixFails<V>(nodes: seq<SourceNode>, kind: string, read: Node -> Option<V>, n: nat)
    requires n <= |nodes| && Keyed(nodes[..n], kind, read).None?
    ensures Keyed(nodes, kind, read).None?
  {
    if n == |nodes| {
      assert nodes[..n] == nodes;
    } else {
      assert nodes[..|nodes| - 1][..n] == nodes[..n];
      KeyedPrefixFails(nodes[..|nodes| - 1], kind, read, n);
    }
  }

  ghost predicate WellRead<V>(nodes: seq<SourceNode>, kind: string, read: Node -> Option<V>) {
    && (forall i :: 0 <= i < |nodes| && nodes[i].node.name == kind ==>
         OneStringArg(nodes[i].node).Some? && read(nodes[i].node).Some?)
    && (forall i, j :: 0 <= i < j < |nodes| && nodes[i].node.name == kind && nodes[j].node.name == kind ==>
         nodes[i].node.args != nodes[j].node.args)
  }

  /** `m` holds every tool a node of the kind names, with that node's own reading, and nothing else. */
  ghost predicate Reading<V>(nodes: seq<SourceNode>, kind: string, read: Node -> Option<V>, m: map<string, V>) {
    && (forall sn :: sn in nodes && sn.node.name == kind ==>
         && |sn.node.args| == 1 && sn.node.args[0] in m && Some(m[sn.node.args[0]]) == read(sn.node))
    && (forall tool :: tool in m ==> exists sn :: sn in nodes && sn.node.name == kind && sn.node.args == [tool])
  }

  /** A kind of control parses exactly when each of its nodes is well formed and no two name one tool;
      the configuration then holds every stated tool with its own node's reading, and nothing else. */
  lemma {:induction false} KeyedIff<V>(nodes: seq<SourceNode>, kind: string, read: Node -> Option<V>)
    ensures Keyed(nodes, kind, read).Some? <==> WellRead(nodes, kind, read)
    ensures Keyed(nodes, kind, read).Some? ==> Reading(nodes, kind, read, Keyed(nodes, kind, read).value)
  {
    if nodes != [] {
      var front, last := nodes[..|nodes| - 1], nodes[|nodes| - 1];
      KeyedIff(front, kind, read);
      assert nodes == front + [last];
      if Keyed(front, kind, read).Some? {
        var m := Keyed(front, kind, read).value;
        WellReadGrows(front, last, kind, read, m);
        if Keyed(nodes, kind, read).Some? && last.node.name == kind {
          ReadingTakes(front, last, kind, read, m);
        } else if last.node.name != kind {
          ReadingSkips(front, last, kind, read, m);
        }
      } else if WellRead(nodes, kind, read) {
        WellReadShrinks(front, last, kind, read);
      }
    }
  }

  lemma WellReadShrinks<V>(front: seq<SourceNode>, last: SourceNode, kind: string, read: Node -> Option<V>)
    requires WellRead(front + [last], kind, read)
    ensures WellRead(front, kind, read)
  {
    var nodes := front + [last];
    assert forall i :: 0 <= i < |front| ==> nodes[i] == front[i];
  }

  lemma WellReadGrows<V>(front: seq<SourceNode>, last: SourceNode, kind: string, read: Node -> Option<V>, m: map<string, V>)
    requires WellRead(front, kind, read) && Reading(front, kind, read, m)
    ensures WellRead(front + [last], kind, read) <==>
      last.node.name == kind ==> OneStringArg(last.node).Some? && read(last.node).Some? && last.node.args[0] !in m
  {
    var nodes := front + [last];
    assert forall i :: 0 <= i < |front| ==> nodes[i] == front[i] && front[i] in front;
    if last.node.name == kind && OneStringArg(last.node).Some? {
      assert last.node.args == [last.node.args[0]];
      if last.node.args[0] in m {
        var sn :| sn in front && sn.node.name == kind && sn.node.args == [last.node.args[0]];
        var i :| 0 <= i < |front| && front[i] == sn;
        assert nodes[i].node.args == nodes[|front|].node.args;
      }
    }
    if WellRead(nodes, kind, read) {
      assert nodes[|front|] == last;
    }
  }

  lemma ReadingTakes<V>(front: seq<SourceNode>, last: SourceNode, kind: string, read: Node -> Option<V>, m: map<string, V>)
    requires Reading(front, kind, read, m) && last.node.name == kind
    requires OneStringArg(last.node).Some? && read(last.node).Some? && last.node.args[0] !in m
    ensures Reading(front + [last], kind, read, m[last.node.args[0] := read(last.node).value])
  {
    var nodes, tool := front + [last], last.node.args[0];
    assert last.node.args == [tool] && last in nodes;
    forall t | t in m ensures exists sn :: sn in nodes && sn.node.name == kind && sn.node.args == [t] {
      var sn :| sn in front && sn.node.name == kind && sn.node.args == [t];
      assert sn in nodes;
    }
  }

  lemma ReadingSkips<V>(front: seq<SourceNode>, last: SourceNode, kind: string, read: Node -> Option<V>, m: map<string, V>)
    requires Reading(front, kind, read, m) && last.node.name != kind
    ensures Reading(front + [last], kind, read, m)
  {
    forall t | t in m ensures exists sn :: sn in front + [last] && sn.node.name == kind && sn.node.args == [t] {
      var sn :| sn in front && sn.node.name == kind && sn.node.args == [t];
      assert sn in front + [last];
    }
  }
}
