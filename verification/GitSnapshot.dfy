/** The merge, from bytes. */
module GitSnapshot {
  import opened Basics
  import opened Segments
  import opened GitPaths
  import opened GitIndex
  import opened GitRecords
  import opened GitConflicts
  import opened GitStaged
  import opened GitListing
  import opened GitInventory
  import opened GitThreeWay

  /** The three byte streams of a snapshot, and what they are printings of. */
  datatype Streams = Streams(staged: seq<byte>, untracked: seq<byte>, unmerged: seq<byte>)

  datatype Parsed = Parsed(staged: seq<RawChange>, untracked: seq<Path>, unmerged: seq<Entry>)

  ghost predicate Prints(stable: Stable, p: Parsed, bytes: Streams) {
    && WellFormedStaged(stable, p.staged) && PrintStaged(p.staged) == bytes.staged
    && WellFormedPaths(stable, p.untracked) && Terminated(p.untracked, NUL) == bytes.untracked
    && WellFormedUnmerged(stable, p.unmerged) && PrintIndex(p.unmerged) == bytes.unmerged
  }

  lemma {:induction false} PrintsOne(stable: Stable, p: Parsed, q: Parsed, bytes: Streams)
    requires Prints(stable, p, bytes) && Prints(stable, q, bytes)
    ensures p == q
  {
    PrintStagedInjective(stable, p.staged, q.staged);
    PrintedPaths(stable, bytes.untracked);
    PrintIndexInjective(stable, p.unmerged, q.unmerged);
  }

  /** The sources that records and a worktree comparison stand for; the unmerged paths come in any order. */
  ghost predicate SourcesOf(p: Parsed, unstaged: seq<Change>, s: Sources) {
    && s.staged == Reported(p.staged) && s.unstaged == unstaged && s.untracked == p.untracked
    && ListsTable(s.unmerged, Collect(p.unmerged))
  }

  ghost predicate Accepted(s: Sources) {
    Mergeable(s) && |Listed(s)| <= MAX_STATUS_RECORDS
  }

  lemma {:induction false} SameSources(p: Parsed, unstaged: seq<Change>, s: Sources, t: Sources)
    requires SourcesOf(p, unstaged, s) && SourcesOf(p, unstaged, t)
    ensures forall path :: FindingAt(s, path) == FindingAt(t, path)
    ensures Accepted(s) <==> Accepted(t)
  {
    forall path ensures FindingAt(s, path) == FindingAt(t, path) {
      ListedTable(s.unmerged, Collect(p.unmerged), path);
      ListedTable(t.unmerged, Collect(p.unmerged), path);
    }
    ListedTable(s.unmerged, Collect(p.unmerged), []);
    ListedTable(t.unmerged, Collect(p.unmerged), []);
    forall path ensures path in Listed(s) <==> path in Listed(t) {
      ListedExact(s, path);
      ListedExact(t, path);
      assert FindingAt(s, path) == FindingAt(t, path);
    }
    assert Listed(s) == Listed(t);
    assert UntrackedAlone(s) <==> UntrackedAlone(t) by {
      SameAlone(s, t);
      SameAlone(t, s);
    }
  }

  lemma {:induction false} SameAlone(s: Sources, t: Sources)
    requires s.untracked == t.untracked && forall path :: FindingAt(s, path) == FindingAt(t, path)
    ensures UntrackedAlone(s) ==> UntrackedAlone(t)
  {
    if UntrackedAlone(s) {
      forall path | path in t.untracked
        ensures var f := FindingAt(t, path); f.staged.None? && f.unstaged.None? && f.unmerged.None?
      {
        assert FindingAt(s, path) == FindingAt(t, path);
      }
    }
  }

  /** The merge of a snapshot: refused exactly when some stream is not a printing of well-formed
      records or the records cannot be merged, and otherwise the sorted report of what they say. */
  method MergeSnapshot(stable: Stable, bytes: Streams, unstaged: seq<Change>)
    returns (r: Option<seq<ChangedFile>>, ghost p: Parsed, ghost s: Sources)
    ensures r.Some? ==> Prints(stable, p, bytes) && SourcesOf(p, unstaged, s) && Accepted(s) && Reports(r.value, s)
    ensures r.None? ==> forall q, t :: Prints(stable, q, bytes) && SourcesOf(q, unstaged, t) ==> !Accepted(t)
  {
    p, s := Parsed([], [], []), Sources([], [], [], []);
    r := None;
    var staged, cs := ParseStaged(stable, bytes.staged);
    if staged.None? {
      return;
    }
    var untracked := ParseUntracked(stable, bytes.untracked);
    if untracked.None? {
      return;
    }
    var unmerged, es := ParseUnmerged(stable, bytes.unmerged);
    if unmerged.None? {
      return;
    }
    p := Parsed(cs, untracked.value, es);
    var sources := Sources(staged.value, unstaged, untracked.value, unmerged.value);
    s := sources;
    r := MergeLists(sources);
    if r.None? {
      forall q, t | Prints(stable, q, bytes) && SourcesOf(q, unstaged, t) ensures !Accepted(t) {
        PrintsOne(stable, p, q, bytes);
        SameSources(p, unstaged, s, t);
      }
    }
  }
}
