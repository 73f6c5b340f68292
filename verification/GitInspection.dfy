/** The inspection of a worktree. */
module GitInspection {
  import opened Basics
  import opened GitPaths
  import opened GitIndex
  import opened GitFlags
  import opened GitRecords
  import opened GitConflicts
  import opened GitStaged
  import opened GitWorktree
  import opened GitListing
  import opened GitInventory
  import opened GitThreeWay
  import opened GitSnapshot

  // From two readings of git's output to the three-way difference.

  /** One reading: the tags of the index, the index before and after, the disk in between, and the other
      three outputs. */
  datatype Reading = Reading(flags: seq<byte>, before: seq<byte>, tree: Worktree, streams: Streams, after: seq<byte>)

  datatype Snapshot = Snapshot(before: seq<byte>, streams: Streams, unstaged: seq<Change>, after: seq<byte>)

  /** How git tags an index entry. A path with several stages has several entries, each printed. */
  function FlagOf(st: State, e: Entry): Flag {
    Flag(if e.stage >= 1 then UNMERGED else if e.path in st.skipped then SKIPPED else CACHED, e.path)
  }

  function FlagsOf(st: State, es: seq<Entry>): (fs: seq<Flag>)
    ensures |fs| == |es|
  {
    if es == [] then [] else FlagsOf(st, es[..|es| - 1]) + [FlagOf(st, es[|es| - 1])]
  }

  /** The reading is what git prints for a repository; `p` holds the records. */
  ghost predicate Reads(stable: Stable, st: State, p: Parsed, reading: Reading) {
    && Repository(st) && reading.tree == st.tree
    && WellFormedIndex(stable, st.index) && reading.before == PrintIndex(st.index) == reading.after
    && reading.flags == PrintFlags(FlagsOf(st, st.index))
    && Prints(stable, p, reading.streams)
    && CanonicalStaged(st, Reported(p.staged)) && p.untracked == st.untracked && p.unmerged == ConflictEntries(st.index)
  }

  /** The paths on which something differs. */
  function ChangedPathsOf(st: State): set<Path> {
    set path | path in st.head.Keys + (set key | key in Keys(st.index) :: key.0) + (set u | u in st.untracked) && IsChanged(st, path)
  }

  ghost predicate OneEntryEach(es: seq<Entry>) {
    forall i, j :: 0 <= i < j < |es| ==> es[i].path != es[j].path
  }

  ghost predicate NoneSkipped(st: State, es: seq<Entry>) {
    forall i :: 0 <= i < |es| ==> FlagOf(st, es[i]).tag != SKIPPED
  }

  /** Every path of the index has one entry, and no merged one is marked skip-worktree. */
  ghost predicate PlainIndex(st: State) {
    OneEntryEach(st.index) && NoneSkipped(st, st.index)
  }

  /** The index is plain, every merged file can be compared, nothing untracked is still in HEAD, and there
      is room for the list. */
  ghost predicate Reportable(st: State) {
    && PlainIndex(st)
    && (forall i :: 0 <= i < |st.index| && st.index[i].stage == 0 ==> Comparable(st.tree, st.index[i]))
    && (forall path :: path in st.untracked ==> path !in st.head)
    && |ChangedPathsOf(st)| <= MAX_STATUS_RECORDS
  }

  /** The sorted list of exactly the differing paths, with every field as HEAD, index, stages and disk have it. */
  ghost predicate IsDifference(st: State, list: seq<ChangedFile>) {
    Sorted(list) && forall path :: DescribesPath(st, path, FileAt(list, path))
  }

  predicate DescribesPath(st: State, path: Path, file: Option<ChangedFile>) {
    (file.Some? <==> IsChanged(st, path)) && (file.Some? ==> Tells(st, path, file.value))
  }

  lemma {:induction false} FlagsValid(stable: Stable, st: State, es: seq<Entry>)
    requires ValidEntries(stable, es)
    ensures ValidFlags(stable, FlagsOf(st, es))
  {
    if es != [] {
      var rest := es[..|es| - 1];
      FlagsValid(stable, st, rest);
      assert FlagsOf(st, es)[..|rest|] == FlagsOf(st, rest);
    }
  }

  lemma {:induction false} SkippedExact(st: State, es: seq<Entry>)
    ensures AnySkipped(FlagsOf(st, es)) <==> !NoneSkipped(st, es)
  {
    if es != [] {
      var rest, fs := es[..|es| - 1], FlagsOf(st, es);
      SkippedExact(st, rest);
      assert fs[..|rest|] == FlagsOf(st, rest);
      assert forall i :: 0 <= i < |rest| ==> rest[i] == es[i];
    }
  }

  lemma {:induction false} PathIn(st: State, es: seq<Entry>, path: Path)
    ensures path in FlagPaths(FlagsOf(st, es)) <==> exists i :: 0 <= i < |es| && es[i].path == path
  {
    if es != [] {
      var rest, fs := es[..|es| - 1], FlagsOf(st, es);
      PathIn(st, rest, path);
      assert fs[..|rest|] == FlagsOf(st, rest);
      assert forall i :: 0 <= i < |rest| ==> rest[i] == es[i];
    }
  }

  lemma {:induction false} DistinctExact(st: State, es: seq<Entry>)
    ensures Distinct(FlagPaths(FlagsOf(st, es))) <==> OneEntryEach(es)
  {
    if es != [] {
      var rest, last, fs := es[..|es| - 1], es[|es| - 1], FlagsOf(st, es);
      DistinctExact(st, rest);
      PathIn(st, rest, last.path);
      assert fs[..|rest|] == FlagsOf(st, rest);
      assert FlagPaths(fs)[..|rest|] == FlagPaths(FlagsOf(st, rest));
      assert forall i :: 0 <= i < |rest| ==> rest[i] == es[i];
    }
  }

  /** What the tags git prints for an index say. */
  lemma {:induction false} FlagsExact(stable: Stable, st: State)
    requires WellFormedIndex(stable, st.index)
    ensures var fs := FlagsOf(st, st.index);
            && ValidFlags(stable, fs)
            && (WellFormedFlags(stable, fs) && !AnySkipped(fs) <==> PlainIndex(st))
  {
    FlagsValid(stable, st, st.index);
    SkippedExact(st, st.index);
    DistinctExact(st, st.index);
  }

  method CollectSnapshot(stable: Stable, reading: Reading) returns (r: Option<Snapshot>)
    ensures r.Some? ==>
              && r.value.before == reading.before == reading.after == r.value.after && r.value.streams == reading.streams
    ensures forall st, p :: Reads(stable, st, p, reading) ==>
              if r.Some? then PlainIndex(st) && Compared(st.tree, st.index) == Some(r.value.unstaged)
              else !PlainIndex(st) || Compared(st.tree, st.index) == None
  {
    var skipped := HasSkipWorktree(stable, reading.flags);
    forall st, p | Reads(stable, st, p, reading) ensures PlainIndex(st) <==> skipped == Some(false) {
      FlagsDecide(stable, st, reading.flags, skipped);
    }
    if skipped != Some(false) {
      return None;
    }
    var unstaged := CollectWorktreeChanges(stable, reading.tree, reading.before);
    if unstaged.None? || reading.before != reading.after {
      return None;
    }
    return Some(Snapshot(reading.before, reading.streams, unstaged.value, reading.after));
  }

  lemma {:induction false} FlagsDecide(stable: Stable, st: State, bytes: seq<byte>, skipped: Option<bool>)
    requires WellFormedIndex(stable, st.index) && bytes == PrintFlags(FlagsOf(st, st.index))
    requires skipped.Some? ==> exists fs :: WellFormedFlags(stable, fs) && PrintFlags(fs) == bytes
    requires forall fs :: WellFormedFlags(stable, fs) && PrintFlags(fs) == bytes ==> skipped == Some(AnySkipped(fs))
    ensures PlainIndex(st) <==> skipped == Some(false)
  {
    var flags := FlagsOf(st, st.index);
    FlagsExact(stable, st);
    if skipped.Some? {
      var fs :| WellFormedFlags(stable, fs) && PrintFlags(fs) == bytes;
      PrintFlagsInjective(stable, fs, flags);
    }
  }

  lemma {:induction false} DifferingExact(st: State, path: Path)
    ensures path in ChangedPathsOf(st) <==> IsChanged(st, path)
  {
    Stage0Key(st.index, path);
    if IsChanged(st, path) {
      if IsUnmerged(st, path) {
        var stage: Stage :| (path, stage) in Keys(st.index);
        assert (path, stage).0 == path;
      } else if Stage0(st.index, path).Some? {
        assert (path, 0).0 == path;
      }
    }
  }

  /** A repository can be reported exactly if its index is plain and the merge of its records succeeds. */
  lemma {:induction false} AcceptedExactly(st: State, s: Sources)
    requires Repository(st) && Canonical(st, s)
    ensures Reportable(st) <==> PlainIndex(st) && Accepted(s)
  {
    MergeableExactly(st, s);
    ComparedSucceeds(st.tree, st.index);
    forall path ensures path in Listed(s) <==> path in ChangedPathsOf(st) {
      ListedExact(s, path);
      FindingIsDifference(st, s, path);
      DifferingExact(st, path);
    }
    assert Listed(s) == ChangedPathsOf(st);
  }

  lemma {:induction false} ReportIsDifference(st: State, s: Sources, list: seq<ChangedFile>)
    requires Repository(st) && Canonical(st, s) && Reports(list, s)
    ensures IsDifference(st, list)
  {
    forall path ensures DescribesPath(st, path, FileAt(list, path)) {
      InventoryIsDifference(st, s, list, path);
    }
  }

  /** What git prints for a repository is refused exactly if that repository cannot be reported, and
      otherwise gives its three-way difference. Two readings that differ are refused. */
  method InspectChanges(stable: Stable, first: Reading, second: Reading) returns (r: Option<seq<ChangedFile>>)
    ensures r.Some? ==> first.streams == second.streams && first.before == first.after == second.before == second.after
    ensures forall st, p :: Reads(stable, st, p, first) && Reads(stable, st, p, second) ==> Outcome(st, r)
  {
    var a := CollectSnapshot(stable, first);
    if a.None? {
      forall st, p | Reads(stable, st, p, first) ensures Outcome(st, None) {
        NotComparable(st);
      }
      return None;
    }
    var b := CollectSnapshot(stable, second);
    if b.None? || a != b {
      return None;
    }
    ghost var p, s;
    r, p, s := MergeSnapshot(stable, a.value.streams, a.value.unstaged);
    forall st, q | Reads(stable, st, q, first) ensures Outcome(st, r) {
      MergeOutcome(stable, st, q, first, a.value.unstaged, r, p, s);
    }
  }

  /** Refused, or the difference. */
  ghost predicate Outcome(st: State, r: Option<seq<ChangedFile>>) {
    if r.Some? then Reportable(st) && IsDifference(st, r.value) else !Reportable(st)
  }

  lemma {:induction false} NotComparable(st: State)
    ensures Compared(st.tree, st.index) == None ==> !Reportable(st)
  {
    ComparedSucceeds(st.tree, st.index);
  }

  /** Some listing of a stage table. */
  lemma {:induction false} SomeListing(es: seq<Entry>) returns (list: seq<Unmerged>)
    requires DistinctKeys(es)
    ensures ListsTable(list, Collect(es))
  {
    CollectedStages(es);
    var table := Collect(es);
    list := ListsOf(table, table.Keys);
  }

  lemma {:induction false} ListsOf(table: StageTable, paths: set<Path>) returns (list: seq<Unmerged>)
    requires NoEmptyStages(table) && paths <= table.Keys
    ensures PathSet(list) == paths && |list| == |paths| && AllDescribed(list, table)
  {
    if paths == {} {
      list := [];
    } else {
      var path :| path in paths;
      var rest := ListsOf(table, paths - {path});
      var u := Describe(path, table[path]).value;
      list := rest + [u];
      assert list[..|rest|] == rest;
    }
  }

  lemma {:induction false} MergeOutcome(
    stable: Stable, st: State, q: Parsed, reading: Reading, unstaged: seq<Change>,
    r: Option<seq<ChangedFile>>, p: Parsed, s: Sources)
    requires Reads(stable, st, q, reading) && PlainIndex(st) && Compared(st.tree, st.index) == Some(unstaged)
    requires r.Some? ==>
               Prints(stable, p, reading.streams) && SourcesOf(p, unstaged, s) && Accepted(s) && Reports(r.value, s)
    requires r.None? ==>
               forall p, t :: Prints(stable, p, reading.streams) && SourcesOf(p, unstaged, t) ==> !Accepted(t)
    ensures Outcome(st, r)
  {
    if r.Some? {
      PrintsOne(stable, p, q, reading.streams);
      assert Canonical(st, s);
      AcceptedExactly(st, s);
      ReportIsDifference(st, s, r.value);
    } else {
      var list := SomeListing(q.unmerged);
      var t := Sources(Reported(q.staged), unstaged, q.untracked, list);
      assert SourcesOf(q, unstaged, t) && Canonical(st, t);
      AcceptedExactly(st, t);
    }
  }

  // ---------- Conflicts ----------

  lemma {:induction false} StageEntry(es: seq<Entry>, path: Path, stage: ConflictStage) returns (i: nat)
    requires StageMode(es, path, stage).Some?
    ensures i < |es| && es[i].path == path && es[i].stage == stage
  {
    i := |es| - 1;
    if Key(es[i]) != (path, stage) {
      i := StageEntry(es[..i], path, stage);
    }
  }

  lemma {:induction false} OneStage(st: State, path: Path, a: ConflictStage, b: ConflictStage)
    requires PlainIndex(st) && a != b && StageMode(st.index, path, a).Some?
    ensures StageMode(st.index, path, b).None?
  {
    if StageMode(st.index, path, b).Some? {
      var i := StageEntry(st.index, path, a);
      var j := StageEntry(st.index, path, b);
    }
  }

  /** A repository can be reported only if each conflict has a single stage: git prints an entry for each
      stage of a path, and the skip-worktree check takes the second one for malformed. So no conflict with
      a version on both sides, such as one modified on both, is ever listed. */
  lemma {:induction false} OnlyOneStage(st: State, path: Path)
    requires Reportable(st)
    ensures Classify(StagesAt(st, path)) in {None, Some(BothDeleted), Some(AddedByUs), Some(AddedByThem)}
  {
    if StagesAt(st, path).base.Some? {
      OneStage(st, path, 1, 2);
      OneStage(st, path, 1, 3);
    } else if StagesAt(st, path).ours.Some? {
      OneStage(st, path, 2, 3);
    }
  }
}
