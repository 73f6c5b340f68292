/** HEAD, index and worktree. */
module GitThreeWay {
  import opened Basics
  import opened GitPaths
  import opened GitIndex
  import opened GitRecords
  import opened GitConflicts
  import opened GitStaged
  import opened GitWorktree
  import opened GitListing
  import opened GitInventory

  datatype Version = Version(mode: Mode, oid: Oid)

  /** A repository: the committed tree, the index records, the files on disk, the paths git calls untracked,
      and the paths marked skip-worktree. */
  datatype State = State(
    head: map<Path, Version>, index: seq<Entry>, tree: Worktree, untracked: seq<Path>, skipped: set<Path>)

  function HeadAt(st: State, path: Path): Option<Version> {
    if path in st.head then Some(st.head[path]) else None
  }

  function IndexAt(st: State, path: Path): Option<Version> {
    match Stage0(st.index, path)
    case None => None
    case Some(e) => Some(Version(e.mode, e.oid))
  }

  predicate IsUnmerged(st: State, path: Path) {
    (path, 1) in Keys(st.index) || (path, 2) in Keys(st.index) || (path, 3) in Keys(st.index)
  }

  /** The file on disk is not what the index records for the path. */
  predicate DiffersOnDisk(st: State, path: Path) {
    Stage0(st.index, path).Some? && !Holds(st.tree, Stage0(st.index, path).value)
  }

  /** The change on disk: deletion if nothing hashable is left, then a change of mode, then of content. */
  function DiskChange(st: State, path: Path): Option<Change> {
    if !DiffersOnDisk(st, path) then None
    else
      var e, found := Stage0(st.index, path).value, NodeMode(st.tree.node(path));
      var kind := if found.None? then Deleted else if found != Some(e.mode) then TypeChanged else Modified;
      Some(Change(path, Some(e.mode), found, kind))
  }

  /** The mode the index holds for one stage of a path. */
  function StageMode(es: seq<Entry>, path: Path, stage: ConflictStage): Option<Mode> {
    if es == [] then None
    else if Key(es[|es| - 1]) == (path, stage) then Some(es[|es| - 1].mode)
    else StageMode(es[..|es| - 1], path, stage)
  }

  function StagesAt(st: State, path: Path): Stages {
    Stages(StageMode(st.index, path, 1), StageMode(st.index, path, 2), StageMode(st.index, path, 3))
  }

  function ModeOf(version: Option<Version>): Option<Mode> {
    if version.Some? then Some(version.value.mode) else None
  }

  /** An untracked path is in no stage of the index. */
  ghost predicate Repository(st: State) {
    && DistinctKeys(st.index) && Distinct(st.untracked)
    && forall path :: path in st.untracked ==> (path, 0) !in Keys(st.index) && !IsUnmerged(st, path)
  }

  // ---------- The records git prints for a repository ----------

  /** A staged record for each merged path on which HEAD and the index differ. Whether a change of
      an existing path is called modified or type-changed is left to git. */
  ghost predicate CanonicalStaged(st: State, changes: seq<Change>) {
    && DistinctPaths(changes)
    && forall path :: StagedRight(st, path, Find(changes, path))
  }

  /** HEAD and index differ at a merged path. */
  predicate DiffersInIndex(st: State, path: Path) {
    !IsUnmerged(st, path) && HeadAt(st, path) != IndexAt(st, path)
  }

  predicate StagedRight(st: State, path: Path, c: Option<Change>) {
    && (c.Some? <==> DiffersInIndex(st, path))
    && (c.Some? ==>
          && c.value.oldMode == ModeOf(HeadAt(st, path)) && c.value.newMode == ModeOf(IndexAt(st, path))
          && (c.value.status == Added <==> HeadAt(st, path).None?)
          && (c.value.status == Deleted <==> IndexAt(st, path).None?))
  }

  function ConflictEntries(es: seq<Entry>): seq<Entry> {
    if es == [] then []
    else
      var kept := ConflictEntries(es[..|es| - 1]);
      if es[|es| - 1].stage >= 1 then kept + [es[|es| - 1]] else kept
  }

  lemma {:induction false} ConflictKeys(es: seq<Entry>)
    requires DistinctKeys(es)
    ensures Conflicted(ConflictEntries(es)) && DistinctKeys(ConflictEntries(es))
    ensures Keys(ConflictEntries(es)) == set k | k in Keys(es) && k.1 >= 1
  {
    if es != [] {
      var rest, e := es[..|es| - 1], es[|es| - 1];
      ConflictKeys(rest);
      if e.stage >= 1 {
        var kept := ConflictEntries(rest);
        assert (kept + [e])[..|kept|] == kept;
      }
    }
  }

  ghost predicate Canonical(st: State, s: Sources) {
    && CanonicalStaged(st, s.staged)
    && Compared(st.tree, st.index) == Some(s.unstaged)
    && s.untracked == st.untracked
    && ListsTable(s.unmerged, Collect(ConflictEntries(st.index)))
  }

  // ---------- The unmerged list, by path ----------

  function TableAt(table: StageTable, path: Path): Option<Unmerged> {
    if path in table then Describe(path, table[path]) else None
  }

  lemma {:induction false} PathSetSize(list: seq<Unmerged>)
    ensures |PathSet(list)| <= |list|
    ensures |PathSet(list)| == |list| ==> DistinctUnmerged(list)
  {
    if list != [] {
      PathSetSize(list[..|list| - 1]);
      FindInPathSet(list[..|list| - 1], list[|list| - 1].path);
    }
  }

  lemma {:induction false} FindInPathSet(list: seq<Unmerged>, path: Path)
    ensures FindUnmerged(list, path).Some? <==> path in PathSet(list)
  {
    if list != [] {
      FindInPathSet(list[..|list| - 1], path);
    }
  }

  lemma {:induction false} FindDescribed(list: seq<Unmerged>, table: StageTable, path: Path)
    requires AllDescribed(list, table) && FindUnmerged(list, path).Some?
    ensures path in table && FindUnmerged(list, path) == Describe(path, table[path])
  {
    if list[|list| - 1].path != path {
      FindDescribed(list[..|list| - 1], table, path);
    }
  }

  /** A listing of the table, in any order, finds for each path what the table says. */
  lemma {:induction false} ListedTable(list: seq<Unmerged>, table: StageTable, path: Path)
    requires ListsTable(list, table)
    ensures FindUnmerged(list, path) == TableAt(table, path)
    ensures DistinctUnmerged(list)
  {
    PathSetSize(list);
    assert |table.Keys| == |table|;
    FindInPathSet(list, path);
    if path in table {
      FindDescribed(list, table, path);
    }
  }

  /** The stage table holds exactly the modes that the index holds. */
  lemma {:induction false} CollectedSlot(es: seq<Entry>, path: Path, stage: ConflictStage)
    ensures Slot(StagesOf(Collect(ConflictEntries(es)), path), stage) == StageMode(es, path, stage)
  {
    if es != [] {
      var rest, e := es[..|es| - 1], es[|es| - 1];
      CollectedSlot(rest, path, stage);
      if e.stage >= 1 {
        SnocConflict(ConflictEntries(rest), e);
      }
    }
  }

  lemma {:induction false} CollectedAt(st: State, path: Path)
    ensures TableAt(Collect(ConflictEntries(st.index)), path) == Describe(path, StagesAt(st, path))
  {
    var table := Collect(ConflictEntries(st.index));
    CollectedSlot(st.index, path, 1);
    CollectedSlot(st.index, path, 2);
    CollectedSlot(st.index, path, 3);
    assert StagesOf(table, path) == StagesAt(st, path);
  }

  lemma {:induction false} StageKey(es: seq<Entry>, path: Path, stage: ConflictStage)
    ensures StageMode(es, path, stage).Some? <==> (path, stage) in Keys(es)
  {
    if es != [] {
      StageKey(es[..|es| - 1], path, stage);
    }
  }

  lemma {:induction false} UnmergedExact(st: State, path: Path)
    ensures IsUnmerged(st, path) <==> StagesAt(st, path) != Stages(None, None, None)
  {
    StageKey(st.index, path, 1);
    StageKey(st.index, path, 2);
    StageKey(st.index, path, 3);
  }

  // ---------- The refinement ----------

  /** What the four sources of a repository find for a path is the three-way difference at that path. */
  lemma {:induction false} FindingIsDifference(st: State, s: Sources, path: Path)
    requires Repository(st) && Canonical(st, s)
    ensures var f := FindingAt(s, path);
            && StagedRight(st, path, f.staged)
            && f.unstaged == DiskChange(st, path)
            && (f.untracked <==> path in st.untracked)
            && f.unmerged == Describe(path, StagesAt(st, path))
            && (f.unmerged.Some? <==> IsUnmerged(st, path))
  {
    assert StagedRight(st, path, Find(s.staged, path));
    ComparedExact(st.tree, st.index, path);
    DiskExact(st, path);
    ListedTable(s.unmerged, Collect(ConflictEntries(st.index)), path);
    CollectedAt(st, path);
    UnmergedExact(st, path);
  }

  lemma {:induction false} DiskExact(st: State, path: Path)
    requires DistinctKeys(st.index) && Compared(st.tree, st.index).Some?
    ensures VerdictAt(st.tree, st.index, path) == DiskChange(st, path)
    ensures Stage0(st.index, path).Some? ==> Stage0(st.index, path).value.mode != Gitlink
  {
    if Stage0(st.index, path).Some? {
      var e := Stage0(st.index, path).value;
      ComparedSucceeds(st.tree, st.index);
      var i :| 0 <= i < |st.index| && st.index[i] == e;
      assert Comparable(st.tree, st.index[i]);
      CompareExact(st.tree, e);
    }
  }

  /** Something about the path differs. */
  predicate IsChanged(st: State, path: Path) {
    || IsUnmerged(st, path) || HeadAt(st, path) != IndexAt(st, path)
    || DiffersOnDisk(st, path) || path in st.untracked
  }

  /** The file listed for a path says what differs there, in every field. */
  predicate Tells(st: State, path: Path, file: ChangedFile) {
    && file.path == path
    && (file.indexChange.Some? <==> DiffersInIndex(st, path))
    && (DiffersInIndex(st, path) ==>
          && (file.indexChange == Some(Added) <==> HeadAt(st, path).None?)
          && (file.indexChange == Some(Deleted) <==> IndexAt(st, path).None?))
    && file.worktreeChange == (if DiffersOnDisk(st, path) then Some(DiskChange(st, path).value.status) else None)
    && file.conflict == Classify(StagesAt(st, path))
    && (file.untracked <==> path in st.untracked)
    && file.submodule == (if TouchesSubmodule(st, path) then Some(Submodule(true, false, false)) else None)
    && file.modeHead == (if DiffersInIndex(st, path) then ModeOf(HeadAt(st, path)) else StagesAt(st, path).base)
    && file.modeIndex == (if DiffersInIndex(st, path) || DiffersOnDisk(st, path) then ModeOf(IndexAt(st, path))
                          else if StagesAt(st, path).ours.Some? then StagesAt(st, path).ours else StagesAt(st, path).theirs)
    && file.modeWorktree == (if DiffersOnDisk(st, path) then NodeMode(st.tree.node(path)) else None)
  }

  predicate TouchesSubmodule(st: State, path: Path) {
    DiffersInIndex(st, path)
    && (ModeOf(HeadAt(st, path)) == Some(Gitlink) || ModeOf(IndexAt(st, path)) == Some(Gitlink))
  }

  /** The list refines the difference: a path is listed exactly when it is unmerged, differs between
      HEAD and index, differs between index and disk, or is untracked; and every field of its file
      says what HEAD, the index, the stages and the disk hold. */
  lemma {:induction false} InventoryIsDifference(st: State, s: Sources, list: seq<ChangedFile>, path: Path)
    requires Repository(st) && Canonical(st, s) && Reports(list, s)
    ensures FileAt(list, path).Some? <==> IsChanged(st, path)
    ensures FileAt(list, path).Some? ==> Tells(st, path, FileAt(list, path).value)
  {
    FindingIsDifference(st, s, path);
    assert FileAt(list, path) == EntryFor(path, FindingAt(s, path));
    if FileAt(list, path).Some? {
      DiskExact(st, path);
      FileTells(st, path, FindingAt(s, path));
    }
  }

  lemma {:induction false} FileTells(st: State, path: Path, f: Finding)
    requires StagedRight(st, path, f.staged) && f.unstaged == DiskChange(st, path)
    requires (f.untracked <==> path in st.untracked) && f.unmerged == Describe(path, StagesAt(st, path))
    requires f.unmerged.Some? <==> IsUnmerged(st, path)
    requires Stage0(st.index, path).Some? ==> Stage0(st.index, path).value.mode != Gitlink
    ensures Tells(st, path, FileFor(path, f))
  {
    UnmergedExact(st, path);
    assert !TouchesGitlink(f.unstaged);
  }

  /** The merge refuses a repository exactly when a path git calls untracked is still in HEAD: its
      deletion is staged, so one path would carry both findings. */
  lemma {:induction false} MergeableExactly(st: State, s: Sources)
    requires Repository(st) && Canonical(st, s)
    ensures Mergeable(s) <==> forall path :: path in st.untracked ==> path !in st.head
  {
    ListedTable(s.unmerged, Collect(ConflictEntries(st.index)), []);
    ComparedExact(st.tree, st.index, []);
    forall path | path in s.untracked
      ensures var f := FindingAt(s, path);
              f.unstaged.None? && f.unmerged.None? && (f.staged.None? <==> path !in st.head)
    {
      FindingIsDifference(st, s, path);
      Stage0Key(st.index, path);
    }
  }

  /** Such a repository: the path was taken out of the index and left on disk. */
  lemma {:induction false} StillInHead(path: Path, version: Version, tree: Worktree)
    ensures var st := State(map[path := version], [], tree, [path], {});
            var s := Sources([Change(path, Some(version.mode), None, Deleted)], [], [path], []);
            Repository(st) && Canonical(st, s) && !Mergeable(s)
  {
    var st := State(map[path := version], [], tree, [path], {});
    var deleted := Change(path, Some(version.mode), None, Deleted);
    var s := Sources([deleted], [], [path], []);
    var none: seq<Change> := [];
    assert s.staged == none + [deleted] && s.untracked[..0] == [];
    forall other ensures StagedRight(st, other, Find(s.staged, other)) {
      FindSnoc(none, deleted, other);
    }
    assert s.staged[..0] == none;
    MergeableExactly(st, s);
    assert path in st.untracked && path in st.head;
  }
}
