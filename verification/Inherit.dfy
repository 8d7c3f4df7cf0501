/** internal/mcpserver/compose.go, first half: the walk over `inherit` edges.

    Paths are absolute and clean. A file that is absent from `Files` does not read; one that is
    `Malformed` does not parse, has no `wrap` node, or misstates an `inherit`. */
module Inherit {
  import opened Wrappers

  type Path = string

  const MAX_INHERIT_DEPTH := 16

  datatype File = Malformed | Parsed(inherits: seq<Path>)

  type Files = map<Path, File>

  datatype Error = TooDeep | BadSource | NoPath | Cycle | Unread

  // ---------------------------------------------------------------- the walk

  /** The chain below and including one file, in collection order, and the paths visited by then. */
  function Collect(files: Files, path: Path, src: File, visited: set<Path>, depth: nat): Result<(seq<Path>, set<Path>), Error>
    decreases MAX_INHERIT_DEPTH + 1 - depth, 1, 0
  {
    if depth > MAX_INHERIT_DEPTH then Err(TooDeep)
    else if src.Malformed? then Err(BadSource)
    else
      match CollectParents(files, path, src.inherits, visited, depth)
      case Err(e) => Err(e)
      case Ok((out, seen)) => Ok((out + [path], seen))
  }

  function CollectParents(files: Files, path: Path, parents: seq<Path>, visited: set<Path>, depth: nat)
    : Result<(seq<Path>, set<Path>), Error>
    requires depth <= MAX_INHERIT_DEPTH
    decreases MAX_INHERIT_DEPTH + 1 - depth, 0, |parents|
  {
    if parents == [] then Ok(([], visited))
    else
      match CollectParents(files, path, parents[..|parents| - 1], visited, depth)
      case Err(e) => Err(e)
      case Ok((out, seen)) =>
        var parent := parents[|parents| - 1];
        if path == "" then Err(NoPath)
        else if parent in seen then Err(Cycle)
        else if parent !in files then Err(Unread)
        else
          match Collect(files, parent, files[parent], seen + {parent}, depth + 1)
          case Err(e) => Err(e)
          case Ok((ancestors, after)) => Ok((out + ancestors, after))
  }

  /** `inheritedSources`: the root is visited from the start, unless the source came without a path. */
  function InheritedSources(files: Files, path: Path, src: File): Result<seq<Path>, Error> {
    match Collect(files, path, src, if path == "" then {} else {path}, 0)
    case Err(e) => Err(e)
    case Ok((out, _)) => Ok(out)
  }

  /** The map every level of the recursion marks. */
  class VisitedSet {
    var paths: set<Path>

    constructor (paths: set<Path>)
      ensures this.paths == paths
    {
      this.paths := paths;
    }
  }

  /** The recursion as the source runs it. It ends because every call marks one more file of a finite
      graph: the depth bound plays no part in its termination. */
  method CollectInherited(files: Files, path: Path, src: File, visited: VisitedSet, depth: nat) returns (r: Result<seq<Path>, Error>)
    modifies visited
    ensures old(visited.paths) <= visited.paths
    ensures match Collect(files, path, src, old(visited.paths), depth)
            case Err(e) => r == Err(e)
            case Ok((out, seen)) => r == Ok(out) && visited.paths == seen
    decreases files.Keys - visited.paths
  {
    if depth > MAX_INHERIT_DEPTH { return Err(TooDeep); }
    if src.Malformed? { return Err(BadSource); }
    var out: seq<Path> := [];
    var i := 0;
    while i < |src.inherits|
      invariant 0 <= i <= |src.inherits|
      invariant old(visited.paths) <= visited.paths
      invariant CollectParents(files, path, src.inherits[..i], old(visited.paths), depth) == Ok((out, visited.paths))
    {
      var parent := src.inherits[i];
      assert src.inherits[..i + 1] == src.inherits[..i] + [parent];
      LastParentCollects(files, path, src.inherits[..i], parent, old(visited.paths), depth);
      if path == "" || parent in visited.paths || parent !in files {
        PrefixFails(files, path, src.inherits, old(visited.paths), depth, i + 1);
        return Err(if path == "" then NoPath else if parent in visited.paths then Cycle else Unread);
      }
      visited.paths := visited.paths + {parent};
      var ancestors := CollectInherited(files, parent, files[parent], visited, depth + 1);
      if ancestors.Err? {
        PrefixFails(files, path, src.inherits, old(visited.paths), depth, i + 1);
        return ancestors;
      }
      out := out + ancestors.value;
      i := i + 1;
    }
    assert src.inherits[..|src.inherits|] == src.inherits;
    r := Ok(out + [path]);
  }

  lemma {:induction false} LastParentCollects(files: Files, path: Path, front: seq<Path>, parent: Path, visited: set<Path>, depth: nat)
    requires depth <= MAX_INHERIT_DEPTH
    requires CollectParents(files, path, front, visited, depth).Ok?
    ensures var (out, seen) := CollectParents(files, path, front, visited, depth).value;
            CollectParents(files, path, front + [parent], visited, depth)
            == if path == "" then Err(NoPath)
               else if parent in seen then Err(Cycle)
               else if parent !in files then Err(Unread)
               else match Collect(files, parent, files[parent], seen + {parent}, depth + 1)
                    case Err(e) => Err(e)
                    case Ok((ancestors, after)) => Ok((out + ancestors, after))
  {
    var parents := front + [parent];
    assert parents[..|parents| - 1] == front && parents[|parents| - 1] == parent;
  }

  lemma {:induction false} PrefixFails(files: Files, path: Path, parents: seq<Path>, visited: set<Path>, depth: nat, n: nat)
    requires depth <= MAX_INHERIT_DEPTH && n <= |parents|
    requires CollectParents(files, path, parents[..n], visited, depth).Err?
    ensures CollectParents(files, path, parents, visited, depth) == CollectParents(files, path, parents[..n], visited, depth)
  {
    if n == |parents| {
      assert parents[..n] == parents;
    } else {
      assert parents[..|parents| - 1][..n] == parents[..n];
      PrefixFails(files, path, parents[..|parents| - 1], visited, depth, n);
    }
  }

  // ---------------------------------------------------------------- the unfolding

  /** Everything the unfolding from one file reaches, parents before children, with repetitions. */
  function Unfold(files: Files, path: Path, src: File, depth: nat): seq<Path>
    decreases MAX_INHERIT_DEPTH + 1 - depth, 1, 0
  {
    if depth > MAX_INHERIT_DEPTH || src.Malformed? then [] else UnfoldParents(files, src.inherits, depth) + [path]
  }

  function UnfoldParents(files: Files, parents: seq<Path>, depth: nat): seq<Path>
    requires depth <= MAX_INHERIT_DEPTH
    decreases MAX_INHERIT_DEPTH + 1 - depth, 0, |parents|
  {
    if parents == [] then []
    else
      var parent := parents[|parents| - 1];
      UnfoldParents(files, parents[..|parents| - 1], depth)
      + if parent in files then Unfold(files, parent, files[parent], depth + 1) else []
  }

  /** Every file the unfolding reaches reads and parses, within the depth bound. */
  ghost predicate Reaches(files: Files, path: Path, src: File, depth: nat)
    decreases MAX_INHERIT_DEPTH + 1 - depth
  {
    && depth <= 16
    && src.Parsed?
    && (path == "" ==> src.inherits == [])
    && forall i :: 0 <= i < |src.inherits| ==>
         src.inherits[i] in files && Reaches(files, src.inherits[i], files[src.inherits[i]], depth + 1)
  }

  ghost predicate Distinct(s: seq<Path>) {
    forall i, j :: 0 <= i < j < |s| ==> s[i] != s[j]
  }

  ghost function Elements(s: seq<Path>): set<Path> { set x | x in s }

  lemma DistinctSplits(a: seq<Path>, b: seq<Path>)
    ensures Distinct(a + b) <==> Distinct(a) && Distinct(b) && Elements(a) !! Elements(b)
    ensures Elements(a + b) == Elements(a) + Elements(b)
  {
    var s := a + b;
    if Distinct(s) {
      assert forall i :: 0 <= i < |a| ==> s[i] == a[i];
      assert forall j :: 0 <= j < |b| ==> s[|a| + j] == b[j];
      forall i, j | 0 <= i < |a| && 0 <= j < |b| ensures a[i] != b[j] {
        assert s[i] != s[|a| + j];
      }
    }
    if Distinct(a) && Distinct(b) && Elements(a) !! Elements(b) {
      forall i, j | 0 <= i < j < |s| ensures s[i] != s[j] {
        assert s[i] in Elements(a) || s[i] in Elements(b);
      }
    }
  }

  lemma JoinIff(before: seq<Path>, unfolded: seq<Path>, visited: set<Path>)
    ensures Distinct(before + unfolded) && Elements(before + unfolded) !! visited
            <==> Distinct(before) && Elements(before) !! visited
                 && Distinct(unfolded) && Elements(unfolded) !! visited + Elements(before)
    ensures visited + Elements(before) + Elements(unfolded) == visited + Elements(before + unfolded)
  {
    DistinctSplits(before, unfolded);
  }

  /** The parents of one file are collected exactly when what they unfold to is new and repeats nothing. */
  ghost predicate ParentsCollect(files: Files, path: Path, parents: seq<Path>, visited: set<Path>, depth: nat)
    requires depth <= MAX_INHERIT_DEPTH
  {
    && (path == "" ==> parents == [])
    && (forall i :: 0 <= i < |parents| ==> parents[i] in files && Reaches(files, parents[i], files[parents[i]], depth + 1))
    && Distinct(UnfoldParents(files, parents, depth))
    && Elements(UnfoldParents(files, parents, depth)) !! visited
  }

  lemma {:induction false} CollectParentsIff(files: Files, path: Path, parents: seq<Path>, visited: set<Path>, depth: nat)
    requires depth <= MAX_INHERIT_DEPTH
    ensures CollectParents(files, path, parents, visited, depth).Ok? <==> ParentsCollect(files, path, parents, visited, depth)
    ensures CollectParents(files, path, parents, visited, depth).Ok? ==>
      CollectParents(files, path, parents, visited, depth).value
      == (UnfoldParents(files, parents, depth), visited + Elements(UnfoldParents(files, parents, depth)))
    decreases MAX_INHERIT_DEPTH + 1 - depth, |parents|
  {
    if parents == [] {
      assert visited + Elements([]) == visited;
    } else {
      var front, parent := parents[..|parents| - 1], parents[|parents| - 1];
      CollectParentsIff(files, path, front, visited, depth);
      assert parents == front + [parent];
      ParentsCollectGrows(files, path, front, parent, visited, depth);
      if CollectParents(files, path, front, visited, depth).Ok? {
        LastParentCollects(files, path, front, parent, visited, depth);
        if parent in files {
          var before := UnfoldParents(files, front, depth);
          ParentCollectsIff(files, parent, visited + Elements(before), depth);
          JoinIff(before, Unfold(files, parent, files[parent], depth + 1), visited);
        }
      }
    }
  }

  /** What one more parent asks for. */
  lemma {:induction false} ParentsCollectGrows(files: Files, path: Path, front: seq<Path>, parent: Path, visited: set<Path>, depth: nat)
    requires depth <= MAX_INHERIT_DEPTH
    ensures ParentsCollect(files, path, front + [parent], visited, depth) <==>
      && ParentsCollect(files, path, front, visited, depth) && path != ""
      && parent in files && Reaches(files, parent, files[parent], depth + 1)
      && var unfolded := Unfold(files, parent, files[parent], depth + 1);
         Distinct(unfolded) && Elements(unfolded) !! visited + Elements(UnfoldParents(files, front, depth))
    ensures parent in files ==>
      UnfoldParents(files, front + [parent], depth) == UnfoldParents(files, front, depth) + Unfold(files, parent, files[parent], depth + 1)
  {
    var parents := front + [parent];
    assert parents[..|parents| - 1] == front && parents[|parents| - 1] == parent;
    assert forall i :: 0 <= i < |front| ==> parents[i] == front[i];
    if parent in files {
      JoinIff(UnfoldParents(files, front, depth), Unfold(files, parent, files[parent], depth + 1), visited);
    }
  }

  /** One parent, marked and then collected. */
  lemma ParentCollectsIff(files: Files, parent: Path, seen: set<Path>, depth: nat)
    requires depth <= MAX_INHERIT_DEPTH && parent in files
    ensures var r := Collect(files, parent, files[parent], seen + {parent}, depth + 1);
            var unfolded := Unfold(files, parent, files[parent], depth + 1);
            && (parent !in seen && r.Ok? <==>
                 Reaches(files, parent, files[parent], depth + 1) && Distinct(unfolded) && Elements(unfolded) !! seen)
            && (r.Ok? ==> r.value == (unfolded, seen + Elements(unfolded)))
    decreases MAX_INHERIT_DEPTH + 1 - depth, 0
  {
    var src := files[parent];
    if depth + 1 <= MAX_INHERIT_DEPTH && src.Parsed? {
      var below := UnfoldParents(files, src.inherits, depth + 1);
      CollectParentsIff(files, parent, src.inherits, seen + {parent}, depth + 1);
      DistinctSplits(below, [parent]);
      assert Elements([parent]) == {parent};
      assert seen + {parent} + Elements(below) == seen + (Elements(below) + {parent});
    }
  }

  /** Over any graph, composition succeeds exactly when the unfolding reads, parses and stays within the
      depth bound, and reaches every path at most once, the root included; the chain is then that
      unfolding, root-most first and the child last. */
  lemma {:induction false} InheritedSourcesIff(files: Files, path: Path, src: File)
    ensures InheritedSources(files, path, src).Ok? <==> Reaches(files, path, src, 0) && Distinct(Unfold(files, path, src, 0))
    ensures InheritedSources(files, path, src).Ok? ==>
      var out := InheritedSources(files, path, src).value;
      out == Unfold(files, path, src, 0) && out[|out| - 1] == path
  {
    if src.Parsed? {
      var root := if path == "" then {} else {path};
      CollectParentsIff(files, path, src.inherits, root, 0);
      DistinctSplits(UnfoldParents(files, src.inherits, 0), [path]);
      assert Elements([path]) == {path};
    }
  }

  // ---------------------------------------------------------------- what the order means

  ghost predicate ParentsComeFirst(files: Files, s: seq<Path>) {
    forall i, p :: 0 <= i < |s| && s[i] in files && files[s[i]].Parsed? && p in files[s[i]].inherits ==> p in s[..i]
  }

  lemma ParentsFirstAppends(files: Files, a: seq<Path>, b: seq<Path>)
    requires ParentsComeFirst(files, a) && ParentsComeFirst(files, b)
    ensures ParentsComeFirst(files, a + b)
  {
    var s := a + b;
    forall i, p | 0 <= i < |s| && s[i] in files && files[s[i]].Parsed? && p in files[s[i]].inherits
      ensures p in s[..i]
    {
      if i < |a| {
        assert s[..i] == a[..i];
      } else {
        assert s[..i] == a + b[..i - |a|];
        assert p in b[..i - |a|];
      }
    }
  }

  lemma {:induction false} UnfoldParentsOrdered(files: Files, parents: seq<Path>, depth: nat)
    requires depth <= MAX_INHERIT_DEPTH
    requires forall i :: 0 <= i < |parents| ==> parents[i] in files && Reaches(files, parents[i], files[parents[i]], depth + 1)
    ensures ParentsComeFirst(files, UnfoldParents(files, parents, depth))
    ensures forall p :: p in parents ==> p in UnfoldParents(files, parents, depth)
    decreases MAX_INHERIT_DEPTH + 1 - depth, |parents|
  {
    if parents != [] {
      var front, parent := parents[..|parents| - 1], parents[|parents| - 1];
      UnfoldParentsOrdered(files, front, depth);
      var src, below := files[parent], UnfoldParents(files, files[parent].inherits, depth + 1);
      UnfoldParentsOrdered(files, src.inherits, depth + 1);
      AppendOrdered(files, below, parent);
      ParentsFirstAppends(files, UnfoldParents(files, front, depth), below + [parent]);
      assert parents == front + [parent];
    }
  }

  lemma AppendOrdered(files: Files, below: seq<Path>, child: Path)
    requires ParentsComeFirst(files, below)
    requires child in files && files[child].Parsed? ==> forall p :: p in files[child].inherits ==> p in below
    ensures ParentsComeFirst(files, below + [child])
  {
    var s := below + [child];
    forall i, p | 0 <= i < |s| && s[i] in files && files[s[i]].Parsed? && p in files[s[i]].inherits
      ensures p in s[..i]
    {
      assert s[..i] == below[..i];
    }
  }

  /** In a composed chain no file comes twice, and every file comes after everything it inherits. */
  lemma ChainIsTopological(files: Files, path: Path, src: File)
    requires InheritedSources(files, path, src).Ok?
    requires path in files ==> files[path] == src
    ensures var out := InheritedSources(files, path, src).value;
            && Distinct(out)
            && ParentsComeFirst(files, out)
            && forall p :: p in src.inherits ==> p in out[..|out| - 1]
  {
    InheritedSourcesIff(files, path, src);
    var below := UnfoldParents(files, src.inherits, 0);
    UnfoldParentsOrdered(files, src.inherits, 0);
    AppendOrdered(files, below, path);
    assert (below + [path])[..|below|] == below;
  }

  lemma {:induction false} LeafCollects(files: Files, path: Path, visited: set<Path>, depth: nat)
    requires depth <= MAX_INHERIT_DEPTH
    ensures Collect(files, path, Parsed([]), visited, depth) == Ok(([path], visited))
  {
    assert [] + [path] == [path];
  }

  /** Acyclic is not enough: a diamond is refused as a cycle, whatever the four files are called. */
  lemma DiamondIsRefused(files: Files, child: Path, left: Path, right: Path, base: Path)
    requires Distinct([child, left, right, base]) && child != "" && left != "" && right != ""
    requires left in files && right in files && base in files
    requires files[left] == Parsed([base]) && files[right] == Parsed([base]) && files[base] == Parsed([])
    ensures InheritedSources(files, child, Parsed([left])) == Ok([base, left, child])
    ensures InheritedSources(files, child, Parsed([left, right])) == Err(Cycle)
  {
    var all := [child, left, right, base];
    assert all[0] != all[1] && all[0] != all[2] && all[0] != all[3] && all[1] != all[2] && all[1] != all[3] && all[2] != all[3];
    LeafCollects(files, base, {child, left, base}, 2);
    LastParentCollects(files, left, [], base, {child, left}, 1);
    assert [] + [base] == [base] && {child, left} + {base} == {child, left, base};
    assert CollectParents(files, left, [base], {child, left}, 1) == Ok(([base], {child, left, base}));
    assert [base] + [left] == [base, left] && [] + [base, left] == [base, left];
    LastParentCollects(files, child, [], left, {child}, 0);
    assert [] + [left] == [left] && {child} + {left} == {child, left};
    assert CollectParents(files, child, [left], {child}, 0) == Ok(([base, left], {child, left, base}));
    assert [base, left] + [child] == [base, left, child];
    LastParentCollects(files, right, [], base, {child, left, base, right}, 1);
    LastParentCollects(files, child, [left], right, {child}, 0);
    assert [left] + [right] == [left, right] && {child, left, base} + {right} == {child, left, base, right};
  }
}
