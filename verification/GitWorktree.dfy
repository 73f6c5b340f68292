/** The comparison of the index with the disk. */
module GitWorktree {
  import opened Basics
  import opened GitPaths
  import opened GitIndex
  import opened GitStaged

  datatype Node = Missing | Unreadable | Directory | Special | Link | File(executable: bool)

  /** The file system and `git hash-object`: what is found at a path, and the object id of its content. */
  datatype Worktree = Worktree(node: Path -> Node, hash: Path -> Option<Oid>)

  /** The mode of something that can be hashed. */
  function NodeMode(node: Node): Option<Mode> {
    match node
    case Link => Some(SymbolicLink)
    case File(executable) => Some(if executable then Executable else Regular)
    case Missing => None
    case Unreadable => None
    case Directory => None
    case Special => None
  }

  datatype Verdict = Same | Differs(change: Change) | Fails

  function Compare(tree: Worktree, e: Entry): Verdict {
    var node := tree.node(e.path);
    if e.mode == Gitlink || node.Unreadable? || node.Special? then Fails
    else if node.Missing? || node.Directory? then Differs(Change(e.path, Some(e.mode), None, Deleted))
    else
      var actual := NodeMode(node).value;
      match tree.hash(e.path)
      case None => Fails
      case Some(oid) =>
        if actual != e.mode then Differs(Change(e.path, Some(e.mode), Some(actual), TypeChanged))
        else if oid != e.oid then Differs(Change(e.path, Some(e.mode), Some(actual), Modified))
        else Same
  }

  /** The worktree holds the entry's mode and content. */
  predicate Holds(tree: Worktree, e: Entry) {
    NodeMode(tree.node(e.path)) == Some(e.mode) && tree.hash(e.path) == Some(e.oid)
  }

  /** The comparison is possible. */
  predicate Comparable(tree: Worktree, e: Entry) {
    && e.mode != Gitlink
    && (tree.node(e.path).Missing? || tree.node(e.path).Directory?
        || (NodeMode(tree.node(e.path)).Some? && tree.hash(e.path).Some?))
  }

  lemma {:induction false} CompareExact(tree: Worktree, e: Entry)
    ensures Compare(tree, e).Fails? <==> !Comparable(tree, e)
    ensures Comparable(tree, e) ==> (Compare(tree, e).Same? <==> Holds(tree, e))
    ensures Compare(tree, e).Differs? ==>
              var c := Compare(tree, e).change;
              && c.path == e.path && c.oldMode == Some(e.mode)
              && c.newMode == NodeMode(tree.node(e.path))
              && c.status != Added && (c.status == Deleted <==> c.newMode.None?)
              && (c.status == TypeChanged <==> c.newMode.Some? && c.newMode != c.oldMode)
  {
  }

  /** The changes of the stage-0 entries, in order; None if any of them cannot be compared. */
  function Compared(tree: Worktree, es: seq<Entry>): Option<seq<Change>> {
    if es == [] then Some([])
    else
      var e := es[|es| - 1];
      match Compared(tree, es[..|es| - 1])
      case None => None
      case Some(changes) =>
        if e.stage != 0 then Some(changes)
        else
          match Compare(tree, e)
          case Same => Some(changes)
          case Differs(change) => Some(changes + [change])
          case Fails => None
  }

  /** The staging area's entry for a path, if it has exactly one version. */
  function Stage0(es: seq<Entry>, path: Path): (r: Option<Entry>)
    ensures r.Some? ==> r.value in es && r.value.path == path && r.value.stage == 0
  {
    if es == [] then None
    else
      var e := es[|es| - 1];
      if e.path == path && e.stage == 0 then Some(e) else Stage0(es[..|es| - 1], path)
  }

  lemma {:induction false} Stage0Key(es: seq<Entry>, path: Path)
    ensures Stage0(es, path).Some? <==> (path, 0) in Keys(es)
  {
    if es != [] {
      Stage0Key(es[..|es| - 1], path);
    }
  }

  function Find(changes: seq<Change>, path: Path): (r: Option<Change>)
    ensures r.Some? ==> r.value in changes && r.value.path == path
  {
    if changes == [] then None
    else if changes[|changes| - 1].path == path then Some(changes[|changes| - 1])
    else Find(changes[..|changes| - 1], path)
  }

  lemma {:induction false} FindSnoc(changes: seq<Change>, c: Change, path: Path)
    ensures Find(changes + [c], path) == if c.path == path then Some(c) else Find(changes, path)
  {
    assert (changes + [c])[..|changes|] == changes;
  }

  /** No path occurs twice. */
  predicate DistinctPaths(changes: seq<Change>) {
    changes == []
    || (Find(changes[..|changes| - 1], changes[|changes| - 1].path).None? && DistinctPaths(changes[..|changes| - 1]))
  }

  function VerdictAt(tree: Worktree, es: seq<Entry>, path: Path): Option<Change> {
    match Stage0(es, path)
    case None => None
    case Some(e) => if Compare(tree, e).Differs? then Some(Compare(tree, e).change) else None
  }

  /** A compared entry joins the changes of those before it. */
  function WithVerdict(changes: seq<Change>, verdict: Verdict): seq<Change> {
    if verdict.Differs? then changes + [verdict.change] else changes
  }

  lemma {:induction false} WithVerdictExact(changes: seq<Change>, verdict: Verdict, path: Path)
    requires DistinctPaths(changes)
    requires verdict.Differs? ==> Find(changes, verdict.change.path).None?
    ensures DistinctPaths(WithVerdict(changes, verdict))
    ensures Find(WithVerdict(changes, verdict), path) ==
              if verdict.Differs? && verdict.change.path == path then Some(verdict.change) else Find(changes, path)
  {
    if verdict.Differs? {
      FindSnoc(changes, verdict.change, path);
      assert (changes + [verdict.change])[..|changes|] == changes;
    }
  }

  lemma {:induction false} VerdictSnoc(tree: Worktree, es: seq<Entry>, path: Path)
    requires es != []
    ensures var e := es[|es| - 1];
            VerdictAt(tree, es, path) ==
              if e.path != path || e.stage != 0 then VerdictAt(tree, es[..|es| - 1], path)
              else if Compare(tree, e).Differs? then Some(Compare(tree, e).change)
              else None
  {
  }

  /** The list has one change for each stage-0 entry that differs from the disk, and nothing else. */
  lemma {:induction false} ComparedExact(tree: Worktree, es: seq<Entry>, path: Path)
    requires DistinctKeys(es) && Compared(tree, es).Some?
    ensures Find(Compared(tree, es).value, path) == VerdictAt(tree, es, path)
    ensures DistinctPaths(Compared(tree, es).value)
    decreases |es|, 0
  {
    if es != [] {
      var rest, e := es[..|es| - 1], es[|es| - 1];
      ComparedExact(tree, rest, path);
      VerdictSnoc(tree, es, path);
      if e.stage == 0 {
        ComparedLast(tree, rest, e);
        WithVerdictExact(Compared(tree, rest).value, Compare(tree, e), path);
      }
    }
  }

  /** The last entry is the first of its path. */
  lemma {:induction false} ComparedLast(tree: Worktree, rest: seq<Entry>, e: Entry)
    requires DistinctKeys(rest) && Compared(tree, rest).Some? && e.stage == 0 && Key(e) !in Keys(rest)
    ensures Find(Compared(tree, rest).value, e.path).None?
    ensures Compare(tree, e).Differs? ==> Compare(tree, e).change.path == e.path
    decreases |rest|, 1
  {
    CompareExact(tree, e);
    Stage0Key(rest, e.path);
    ComparedExact(tree, rest, e.path);
  }

  /** The comparison succeeds exactly when every stage-0 entry can be compared. */
  lemma {:induction false} ComparedSucceeds(tree: Worktree, es: seq<Entry>)
    ensures Compared(tree, es).Some? <==>
              forall i :: 0 <= i < |es| && es[i].stage == 0 ==> Comparable(tree, es[i])
  {
    if es != [] {
      var rest, e := es[..|es| - 1], es[|es| - 1];
      ComparedSucceeds(tree, rest);
      CompareExact(tree, e);
      assert forall i :: 0 <= i < |rest| ==> rest[i] == es[i];
    }
  }

  /** The comparison loop over the parsed index: for the printing of a well-formed index its outcome
      is the comparison of that index, and anything else is refused. */
  method CollectWorktreeChanges(stable: Stable, tree: Worktree, index: seq<byte>) returns (r: Option<seq<Change>>)
    ensures forall es :: WellFormedIndex(stable, es) && PrintIndex(es) == index ==> r == Compared(tree, es)
    ensures r.Some? ==> exists es :: WellFormedIndex(stable, es) && PrintIndex(es) == index
  {
    var entries := ParseIndexStage(stable, index);
    if entries.None? {
      return None;
    }
    var es := entries.value;
    var changes: seq<Change> := [];
    for i := 0 to |es|
      invariant Compared(tree, es[..i]) == Some(changes)
    {
      ComparedNext(tree, es, i, changes);
      if es[i].stage != 0 {
        continue;
      }
      var verdict := Compare(tree, es[i]);
      if verdict.Fails? {
        FailureIsFinal(tree, es, i + 1);
        return None;
      }
      if verdict.Differs? {
        changes := changes + [verdict.change];
      }
    }
    assert es[..|es|] == es;
    return Some(changes);
  }

  lemma {:induction false} ComparedNext(tree: Worktree, es: seq<Entry>, i: nat, changes: seq<Change>)
    requires i < |es| && Compared(tree, es[..i]) == Some(changes)
    ensures Compared(tree, es[..i + 1]) ==
              if es[i].stage != 0 then Some(changes)
              else if Compare(tree, es[i]).Fails? then None
              else Some(WithVerdict(changes, Compare(tree, es[i])))
  {
    assert es[..i + 1][..i] == es[..i];
  }

  lemma {:induction false} FailureIsFinal(tree: Worktree, es: seq<Entry>, n: nat)
    ensures n <= |es| && Compared(tree, es[..n]).None? ==> Compared(tree, es).None?
  {
    if n < |es| {
      assert es[..|es| - 1][..n] == es[..n];
      FailureIsFinal(tree, es[..|es| - 1], n);
    } else if n == |es| {
      assert es[..n] == es;
    }
  }
}
