/** From files to a gated server: `inheritedSources` followed by the build over the chain it collects. */
module ServerBuild {
  import opened Wrappers
  import opened Inherit
  import opened Controls
  import opened Gates

  /** The top-level nodes of each file, and of the file the server was pointed at. */
  function ChainOf(out: seq<Path>, contents: map<Path, seq<Node>>, root: seq<Node>): Chain {
    seq(|out|, i requires 0 <= i < |out| =>
      if i == |out| - 1 then root else if out[i] in contents then contents[out[i]] else [])
  }

  function BuildServer(files: Files, contents: map<Path, seq<Node>>, path: Path, src: File, root: seq<Node>, surface: Surface)
    : Option<Gating>
  {
    match InheritedSources(files, path, src)
    case Err(_) => None
    case Ok(out) => Build(ChainOf(out, contents, root), surface)
  }

  /** The files reached by following `inherit` edges from `src`, in at most `steps` of them. */
  ghost predicate InheritsFrom(files: Files, src: File, ancestor: Path, steps: nat)
    decreases steps
  {
    && src.Parsed? && steps > 0
    && exists parent :: parent in src.inherits
         && (parent == ancestor || (parent in files && InheritsFrom(files, files[parent], ancestor, steps - 1)))
  }

  lemma {:induction false} AncestorsAreBefore(files: Files, s: seq<Path>, i: nat, src: File, ancestor: Path, steps: nat)
    requires ParentsComeFirst(files, s) && i <= |s| && InheritsFrom(files, src, ancestor, steps)
    requires src.Parsed? ==> forall p :: p in src.inherits ==> p in s[..i]
    ensures ancestor in s[..i]
    decreases steps
  {
    var parent :| parent in src.inherits
      && (parent == ancestor || (parent in files && InheritsFrom(files, files[parent], ancestor, steps - 1)));
    if parent != ancestor {
      var j :| 0 <= j < i && s[j] == parent;
      AncestorsAreBefore(files, s, j, files[parent], ancestor, steps - 1);
      var k :| 0 <= k < j && s[..j][k] == ancestor;
      assert s[..i][k] == ancestor;
    }
  }

  /** Everything the unfolding holds before a file, the file inherits. */
  lemma {:induction false} UnfoldedIsInherited(files: Files, src: File, parents: seq<Path>, depth: nat, p: Path) returns (steps: nat)
    requires depth <= MAX_INHERIT_DEPTH && src.Parsed? && p in UnfoldParents(files, parents, depth)
    requires forall parent :: parent in parents ==> parent in src.inherits
    ensures InheritsFrom(files, src, p, steps)
    decreases MAX_INHERIT_DEPTH + 1 - depth, |parents|
  {
    var front, parent := parents[..|parents| - 1], parents[|parents| - 1];
    if p in UnfoldParents(files, front, depth) {
      steps := UnfoldedIsInherited(files, src, front, depth, p);
    } else if p == parent {
      steps := 1;
    } else {
      var below := files[parent];
      var more := UnfoldedIsInherited(files, below, below.inherits, depth + 1, p);
      steps := more + 1;
    }
  }

  // ---------------------------------------------------------------- what a guardfile is built from

  /** The node stands in the guardfile itself, or in a file it reaches by `inherit` edges. */
  ghost predicate Contributes(files: Files, contents: map<Path, seq<Node>>, src: File, root: seq<Node>, n: Node) {
    n in root || exists ancestor, steps :: InheritedNode(files, contents, src, ancestor, steps, n)
  }

  ghost predicate InheritedNode(files: Files, contents: map<Path, seq<Node>>, src: File, ancestor: Path, steps: nat, n: Node) {
    InheritsFrom(files, src, ancestor, steps) && ancestor in contents && n in contents[ancestor]
  }

  lemma HeldContributes(files: Files, contents: map<Path, seq<Node>>, path: Path, src: File, root: seq<Node>, i: nat, n: Node)
    requires InheritedSources(files, path, src).Ok?
    requires var chain := ChainOf(InheritedSources(files, path, src).value, contents, root); i < |chain| && n in chain[i]
    ensures Contributes(files, contents, src, root, n)
  {
    var out := InheritedSources(files, path, src).value;
    assert ChainOf(out, contents, root)[i] == if i == |out| - 1 then root else if out[i] in contents then contents[out[i]] else [];
    if i < |out| - 1 {
      InheritedSourcesIff(files, path, src);
      assert out[..|out| - 1][i] == out[i];
      var steps := UnfoldedIsInherited(files, src, src.inherits, 0, out[i]);
      assert InheritedNode(files, contents, src, out[i], steps, n);
    }
  }

  lemma InheritedIsHeld(files: Files, contents: map<Path, seq<Node>>, path: Path, src: File, root: seq<Node>,
                        ancestor: Path, steps: nat, n: Node)
    requires InheritedSources(files, path, src).Ok? && (path in files ==> files[path] == src)
    requires InheritedNode(files, contents, src, ancestor, steps, n)
    ensures Holds(ChainOf(InheritedSources(files, path, src).value, contents, root), n)
  {
    var out := InheritedSources(files, path, src).value;
    InheritedSourcesIff(files, path, src);
    ChainIsTopological(files, path, src);
    AncestorsAreBefore(files, out, |out| - 1, src, ancestor, steps);
    var i :| 0 <= i < |out| - 1 && out[..|out| - 1][i] == ancestor;
    assert ChainOf(out, contents, root)[i] == contents[ancestor];
  }

  /** The chain holds exactly the nodes that contribute: the guardfile's own, in its last place, and those
      of every file it inherits. */
  lemma ChainHoldsIff(files: Files, contents: map<Path, seq<Node>>, path: Path, src: File, root: seq<Node>, n: Node)
    requires InheritedSources(files, path, src).Ok? && (path in files ==> files[path] == src)
    ensures var chain := ChainOf(InheritedSources(files, path, src).value, contents, root);
            && chain != [] && chain[|chain| - 1] == root
            && (Holds(chain, n) <==> Contributes(files, contents, src, root, n))
  {
    InheritedSourcesIff(files, path, src);
    var chain := ChainOf(InheritedSources(files, path, src).value, contents, root);
    if i :| 0 <= i < |chain| && n in chain[i] {
      HeldContributes(files, contents, path, src, root, i, n);
    }
    if n in root { assert n in chain[|chain| - 1]; }
    if ancestor, steps :| InheritedNode(files, contents, src, ancestor, steps, n) {
      InheritedIsHeld(files, contents, path, src, root, ancestor, steps, n);
    }
  }

  /** Whatever a guardfile states about a tool it mints, itself or through any file it inherits from,
      however remotely, is in force as stated in the server it builds; and every verb withheld is a stub. */
  lemma StatedGatesHold(files: Files, contents: map<Path, seq<Node>>, path: Path, src: File, root: seq<Node>,
                        surface: Surface, n: Node, tool: string)
    requires BuildServer(files, contents, path, src, root, surface).Some?
    requires path in files ==> files[path] == src
    requires Contributes(files, contents, src, root, n) && n.args == [tool]
    ensures var g := BuildServer(files, contents, path, src, root, surface).value;
            && (n.name == "confirm" && tool in surface.minted ==> tool in g.confirms && Some(g.confirms[tool]) == ReadConfirm(n))
            && (n.name == "cache" && tool in surface.minted ==> tool in g.caches && Some(g.caches[tool]) == ReadCache(n))
            && (n.name == "reject-empty" && tool in surface.minted ==> tool in g.rejects)
            && (n.name == "reject-empty-argument" && tool in surface.minted ==>
                 tool in g.fields && ReadField(n).Some? && ReadField(n).value in g.fields[tool])
            && (n.name == "withhold" ==> !Serves(surface, tool) && WithheldNode(n).Some? && WithheldNode(n).value in g.stubs)
  {
    ChainHoldsIff(files, contents, path, src, root, n);
    var chain := ChainOf(InheritedSources(files, path, src).value, contents, root);
    var i :| 0 <= i < |chain| && n in chain[i];
    NoGateIsLost(chain, surface, i, n, tool);
  }

  /** And nothing else is: each control in force stands, with just that reading, in the guardfile or in a
      file it inherits from. */
  lemma GatesInForceAreStated(files: Files, contents: map<Path, seq<Node>>, path: Path, src: File, root: seq<Node>,
                              surface: Surface, tool: string)
    requires BuildServer(files, contents, path, src, root, surface).Some?
    requires path in files ==> files[path] == src
    ensures var chain := ChainOf(InheritedSources(files, path, src).value, contents, root);
            && OnlyAsked(chain, BuildServer(files, contents, path, src, root, surface).value, tool)
            && forall n :: Holds(chain, n) ==> Contributes(files, contents, src, root, n)
  {
    var chain := ChainOf(InheritedSources(files, path, src).value, contents, root);
    NoGateFromNowhere(chain, surface, tool);
    forall n | Holds(chain, n) ensures Contributes(files, contents, src, root, n) {
      ChainHoldsIff(files, contents, path, src, root, n);
    }
  }

  /** A guardfile builds exactly when everything it inherits reads and parses, within the depth bound and
      each file once, and the controls of all those files read and are aimed at what it serves. */
  lemma {:induction false} ServerBuildsIff(files: Files, contents: map<Path, seq<Node>>, path: Path, src: File,
                                           root: seq<Node>, surface: Surface)
    ensures var unfolded := Unfold(files, path, src, 0);
            BuildServer(files, contents, path, src, root, surface).Some? <==>
              && Reaches(files, path, src, 0) && Distinct(unfolded)
              && Reads(ChainOf(unfolded, contents, root)) && Aimed(ChainOf(unfolded, contents, root), surface)
  {
    InheritedSourcesIff(files, path, src);
    BuildsIff(ChainOf(Unfold(files, path, src, 0), contents, root), surface);
  }
}
