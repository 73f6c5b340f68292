/** Merging the staged, worktree, untracked and unmerged findings into one file list. */
module GitInventory {
  import opened Basics
  import opened GitPaths
  import opened GitRecords
  import opened GitConflicts
  import opened GitStaged
  import opened GitWorktree
  import opened GitListing

  type Files = map<Path, ChangedFile>

  // ---------- What a path's entry says ----------

  /** What each of the four sources found for one path. */
  datatype Finding = Finding(
    staged: Option<Change>, unstaged: Option<Change>, untracked: bool, unmerged: Option<Unmerged>)

  predicate Nothing(f: Finding) {
    f.staged.None? && f.unstaged.None? && !f.untracked && f.unmerged.None?
  }

  function OldMode(c: Option<Change>): Option<Mode> { if c.Some? then c.value.oldMode else None }

  function NewMode(c: Option<Change>): Option<Mode> { if c.Some? then c.value.newMode else None }

  predicate TouchesGitlink(c: Option<Change>) {
    c.Some? && (c.value.oldMode == Some(Gitlink) || c.value.newMode == Some(Gitlink))
  }

  /** The listed file: each field is taken from the source it describes. */
  function FileFor(path: Path, f: Finding): ChangedFile {
    ChangedFile(
      path,
      if f.staged.Some? then Some(f.staged.value.status) else None,
      if f.unstaged.Some? then Some(f.unstaged.value.status) else None,
      if f.unmerged.Some? then Some(f.unmerged.value.conflict) else None,
      f.untracked,
      if TouchesGitlink(f.unstaged) then Some(Submodule(true, true, false))
      else if TouchesGitlink(f.staged) then Some(Submodule(true, false, false))
      else None,
      Or(OldMode(f.staged), if f.unmerged.Some? then f.unmerged.value.headMode else None),
      Or(Or(NewMode(f.staged), OldMode(f.unstaged)), if f.unmerged.Some? then f.unmerged.value.indexMode else None),
      NewMode(f.unstaged))
  }

  /** A path is flagged as a submodule exactly if one of its changes has a gitlink on either side, and as
      modified exactly if the change on disk has. */
  lemma {:induction false} SubmoduleExactly(path: Path, f: Finding)
    ensures var linked := (c: Change) => c.oldMode == Some(Gitlink) || c.newMode == Some(Gitlink);
            FileFor(path, f).submodule ==
              if f.unstaged.Some? && linked(f.unstaged.value) then Some(Submodule(true, true, false))
              else if f.staged.Some? && linked(f.staged.value) then Some(Submodule(true, false, false))
              else None
  {
  }

  function EntryFor(path: Path, f: Finding): Option<ChangedFile> {
    if Nothing(f) then None else Some(FileFor(path, f))
  }

  function FindUnmerged(conflicts: seq<Unmerged>, path: Path): (r: Option<Unmerged>)
    ensures r.Some? ==> r.value.path == path
  {
    if conflicts == [] then None
    else if conflicts[|conflicts| - 1].path == path then Some(conflicts[|conflicts| - 1])
    else FindUnmerged(conflicts[..|conflicts| - 1], path)
  }

  predicate DistinctUnmerged(conflicts: seq<Unmerged>) {
    conflicts == []
    || (FindUnmerged(conflicts[..|conflicts| - 1], conflicts[|conflicts| - 1].path).None?
        && DistinctUnmerged(conflicts[..|conflicts| - 1]))
  }

  /** The four lists that are merged. */
  datatype Sources = Sources(
    staged: seq<Change>, unstaged: seq<Change>, untracked: seq<Path>, unmerged: seq<Unmerged>)

  function FindingAt(s: Sources, path: Path): Finding {
    Finding(Find(s.staged, path), Find(s.unstaged, path), path in s.untracked, FindUnmerged(s.unmerged, path))
  }

  /** The map so far holds exactly what the sources say. */
  ghost predicate Agrees(files: Files, s: Sources) {
    forall path :: Lookup(files, path) == EntryFor(path, FindingAt(s, path))
  }

  function Lookup(files: Files, path: Path): Option<ChangedFile> {
    if path in files then Some(files[path]) else None
  }

  /** An untracked path may have no other finding. */
  ghost predicate UntrackedAlone(s: Sources) {
    forall path :: path in s.untracked ==>
      var f := FindingAt(s, path);
      f.staged.None? && f.unstaged.None? && f.unmerged.None?
  }

  /** Each source names a path at most once, and untracked paths have no other finding. */
  ghost predicate Mergeable(s: Sources) {
    && DistinctPaths(s.staged) && DistinctPaths(s.unstaged) && Distinct(s.untracked) && DistinctUnmerged(s.unmerged)
    && UntrackedAlone(s)
  }

  // ---------- The steps ----------

  function Empty(path: Path): ChangedFile {
    ChangedFile(path, None, None, None, false, None, None, None, None)
  }

  function FileOr(files: Files, path: Path): ChangedFile {
    if path in files then files[path] else Empty(path)
  }

  function NoteGitlink(file: ChangedFile, change: Change): ChangedFile {
    if change.oldMode == Some(Gitlink) || change.newMode == Some(Gitlink)
    then file.(submodule := Some(Submodule(true, file.worktreeChange.Some?, false)))
    else file
  }

  /** Entering a file for one path, when nothing else is found anywhere else. */
  lemma {:induction false} Entered(files: Files, s: Sources, t: Sources, path: Path, file: ChangedFile)
    requires Agrees(files, s) && EntryFor(path, FindingAt(t, path)) == Some(file)
    requires forall p :: p != path ==> FindingAt(t, p) == FindingAt(s, p)
    ensures Agrees(files[path := file], t)
  {
    forall p ensures Lookup(files[path := file], p) == EntryFor(p, FindingAt(t, p)) {
      assert Lookup(files, p) == EntryFor(p, FindingAt(s, p));
    }
  }

  lemma {:induction false} StagedFinding(s: Sources, c: Change)
    ensures forall p :: FindingAt(s.(staged := s.staged + [c]), p) ==
              if p == c.path then FindingAt(s, p).(staged := Some(c)) else FindingAt(s, p)
  {
    assert (s.staged + [c])[..|s.staged|] == s.staged;
  }

  lemma {:induction false} UnstagedFinding(s: Sources, c: Change)
    ensures forall p :: FindingAt(s.(unstaged := s.unstaged + [c]), p) ==
              if p == c.path then FindingAt(s, p).(unstaged := Some(c)) else FindingAt(s, p)
  {
    assert (s.unstaged + [c])[..|s.unstaged|] == s.unstaged;
  }

  lemma {:induction false} UnmergedFinding(s: Sources, u: Unmerged)
    ensures forall p :: FindingAt(s.(unmerged := s.unmerged + [u]), p) ==
              if p == u.path then FindingAt(s, p).(unmerged := Some(u)) else FindingAt(s, p)
  {
    assert (s.unmerged + [u])[..|s.unmerged|] == s.unmerged;
  }

  method AddStaged(files: Files, change: Change, ghost s: Sources) returns (r: Option<Files>)
    requires Agrees(files, s) && s.unstaged == [] && s.untracked == [] && s.unmerged == []
    ensures r.None? <==> Find(s.staged, change.path).Some?
    ensures r.Some? ==> Agrees(r.value, s.(staged := s.staged + [change]))
  {
    var path := change.path;
    assert Lookup(files, path) == EntryFor(path, FindingAt(s, path));
    var file := FileOr(files, path);
    if file.indexChange.Some? {
      return None;
    }
    file := file.(indexChange := Some(change.status), modeHead := change.oldMode, modeIndex := change.newMode);
    file := NoteGitlink(file, change);
    StagedFinding(s, change);
    Entered(files, s, s.(staged := s.staged + [change]), path, file);
    return Some(files[path := file]);
  }

  method AddUnstaged(files: Files, change: Change, ghost s: Sources) returns (r: Option<Files>)
    requires Agrees(files, s) && s.untracked == [] && s.unmerged == []
    ensures r.None? <==> Find(s.unstaged, change.path).Some?
    ensures r.Some? ==> Agrees(r.value, s.(unstaged := s.unstaged + [change]))
  {
    var path := change.path;
    assert Lookup(files, path) == EntryFor(path, FindingAt(s, path));
    var file := FileOr(files, path);
    if file.worktreeChange.Some? {
      return None;
    }
    file := file.(worktreeChange := Some(change.status));
    if file.modeIndex.None? {
      file := file.(modeIndex := change.oldMode);
    }
    file := file.(modeWorktree := change.newMode);
    file := NoteGitlink(file, change);
    UnstagedFinding(s, change);
    Entered(files, s, s.(unstaged := s.unstaged + [change]), path, file);
    return Some(files[path := file]);
  }

  method AddUntracked(files: Files, path: Path, ghost s: Sources) returns (r: Option<Files>)
    requires Agrees(files, s) && s.unmerged == []
    ensures r.None? <==> !Nothing(FindingAt(s, path))
    ensures r.Some? ==> Agrees(r.value, s.(untracked := s.untracked + [path]))
  {
    assert Lookup(files, path) == EntryFor(path, FindingAt(s, path));
    if path in files {
      return None;
    }
    var file := Empty(path).(untracked := true);
    Entered(files, s, s.(untracked := s.untracked + [path]), path, file);
    return Some(files[path := file]);
  }

  method AddUnmerged(files: Files, u: Unmerged, ghost s: Sources) returns (r: Option<Files>)
    requires Agrees(files, s)
    ensures r.None? <==> FindUnmerged(s.unmerged, u.path).Some? || u.path in s.untracked
    ensures r.Some? ==> Agrees(r.value, s.(unmerged := s.unmerged + [u]))
  {
    var path := u.path;
    assert Lookup(files, path) == EntryFor(path, FindingAt(s, path));
    var file := FileOr(files, path);
    if file.conflict.Some? || file.untracked {
      return None;
    }
    file := file.(conflict := Some(u.conflict));
    if file.modeHead.None? {
      file := file.(modeHead := u.headMode);
    }
    if file.modeIndex.None? {
      file := file.(modeIndex := u.indexMode);
    }
    UnmergedFinding(s, u);
    Entered(files, s, s.(unmerged := s.unmerged + [u]), path, file);
    return Some(files[path := file]);
  }

  // ---------- When the steps succeed ----------

  lemma {:induction false} StagedStep(s: Sources, c: Change)
    requires s.unstaged == [] && s.untracked == [] && s.unmerged == []
    ensures Mergeable(s.(staged := s.staged + [c])) <==> Mergeable(s) && Find(s.staged, c.path).None?
  {
    assert (s.staged + [c])[..|s.staged|] == s.staged;
  }

  lemma {:induction false} UnstagedStep(s: Sources, c: Change)
    requires s.untracked == [] && s.unmerged == []
    ensures Mergeable(s.(unstaged := s.unstaged + [c])) <==> Mergeable(s) && Find(s.unstaged, c.path).None?
  {
    assert (s.unstaged + [c])[..|s.unstaged|] == s.unstaged;
  }

  lemma {:induction false} UntrackedStep(s: Sources, path: Path)
    requires s.unmerged == []
    ensures Mergeable(s.(untracked := s.untracked + [path])) <==> Mergeable(s) && Nothing(FindingAt(s, path))
  {
    var t := s.(untracked := s.untracked + [path]);
    assert t.untracked[..|s.untracked|] == s.untracked;
    assert path in t.untracked;
    assert forall p :: p in t.untracked <==> p in s.untracked || p == path;
  }

  lemma {:induction false} UnmergedStep(s: Sources, u: Unmerged)
    ensures Mergeable(s.(unmerged := s.unmerged + [u])) <==>
              Mergeable(s) && FindUnmerged(s.unmerged, u.path).None? && u.path !in s.untracked
  {
    var t := s.(unmerged := s.unmerged + [u]);
    assert t.unmerged[..|s.unmerged|] == s.unmerged;
    assert FindUnmerged(t.unmerged, u.path).Some?;
    if Mergeable(t) {
      forall p | p in s.untracked
        ensures var f := FindingAt(s, p); f.staged.None? && f.unstaged.None? && f.unmerged.None?
      {
        assert p in t.untracked;
      }
    }
  }

  /** The sources up to some point of each list. */
  predicate PrefixOf(t: Sources, s: Sources) {
    t.staged <= s.staged && t.unstaged <= s.unstaged && t.untracked <= s.untracked && t.unmerged <= s.unmerged
  }

  lemma {:induction false} FindPrefix(all: seq<Change>, n: nat, path: Path)
    requires n <= |all| && Find(all[..n], path).Some?
    ensures Find(all, path).Some?
  {
    if n < |all| {
      assert all[..|all| - 1][..n] == all[..n];
      FindPrefix(all[..|all| - 1], n, path);
    } else {
      assert all[..n] == all;
    }
  }

  lemma {:induction false} DistinctPrefix(all: seq<Change>, n: nat)
    requires n <= |all| && DistinctPaths(all)
    ensures DistinctPaths(all[..n])
  {
    if n < |all| {
      DistinctPrefix(all[..|all| - 1], n);
      assert all[..|all| - 1][..n] == all[..n];
    } else {
      assert all[..n] == all;
    }
  }

  lemma {:induction false} UntrackedPrefix(all: seq<Path>, n: nat)
    requires n <= |all| && Distinct(all)
    ensures Distinct(all[..n])
  {
    if n < |all| {
      UntrackedPrefix(all[..|all| - 1], n);
      assert all[..|all| - 1][..n] == all[..n];
    } else {
      assert all[..n] == all;
    }
  }

  lemma {:induction false} UnmergedPrefix(all: seq<Unmerged>, n: nat, path: Path)
    requires n <= |all| && DistinctUnmerged(all)
    ensures DistinctUnmerged(all[..n]) && (FindUnmerged(all[..n], path).Some? ==> FindUnmerged(all, path).Some?)
  {
    if n < |all| {
      UnmergedPrefix(all[..|all| - 1], n, path);
      assert all[..|all| - 1][..n] == all[..n];
    } else {
      assert all[..n] == all;
    }
  }

  /** What is found in part of the sources is found in all of them. */
  lemma {:induction false} FindingPrefix(t: Sources, s: Sources, path: Path)
    requires PrefixOf(t, s) && DistinctUnmerged(s.unmerged)
    ensures var f, g := FindingAt(t, path), FindingAt(s, path);
            && (f.staged.Some? ==> g.staged.Some?) && (f.unstaged.Some? ==> g.unstaged.Some?)
            && (f.untracked ==> g.untracked) && (f.unmerged.Some? ==> g.unmerged.Some?)
  {
    if Find(t.staged, path).Some? {
      assert t.staged == s.staged[..|t.staged|];
      FindPrefix(s.staged, |t.staged|, path);
    }
    if Find(t.unstaged, path).Some? {
      assert t.unstaged == s.unstaged[..|t.unstaged|];
      FindPrefix(s.unstaged, |t.unstaged|, path);
    }
    assert t.unmerged == s.unmerged[..|t.unmerged|];
    UnmergedPrefix(s.unmerged, |t.unmerged|, path);
  }

  /** Sources that merge also merge up to any point, so the first failure is final. */
  lemma {:induction false} MergeablePrefix(t: Sources, s: Sources)
    requires PrefixOf(t, s)
    ensures Mergeable(s) ==> Mergeable(t)
  {
    if Mergeable(s) {
      forall p | p in t.untracked
        ensures var f := FindingAt(t, p); f.staged.None? && f.unstaged.None? && f.unmerged.None?
      {
        FindingPrefix(t, s, p);
      }
      assert t.staged == s.staged[..|t.staged|] && t.unstaged == s.unstaged[..|t.unstaged|];
      assert t.untracked == s.untracked[..|t.untracked|] && t.unmerged == s.unmerged[..|t.unmerged|];
      DistinctPrefix(s.staged, |t.staged|);
      DistinctPrefix(s.unstaged, |t.unstaged|);
      UntrackedPrefix(s.untracked, |t.untracked|);
      UnmergedPrefix(s.unmerged, |t.unmerged|, []);
    }
  }

  // ---------- The listed paths ----------

  function ChangedPaths(changes: seq<Change>): set<Path> {
    set c | c in changes :: c.path
  }

  function Listed(s: Sources): set<Path> {
    ChangedPaths(s.staged) + ChangedPaths(s.unstaged) + (set p | p in s.untracked) + (set u | u in s.unmerged :: u.path)
  }

  lemma {:induction false} FindExact(changes: seq<Change>, path: Path)
    ensures Find(changes, path).Some? <==> path in ChangedPaths(changes)
  {
    if changes != [] {
      FindExact(changes[..|changes| - 1], path);
      assert forall c :: c in changes <==> c in changes[..|changes| - 1] || c == changes[|changes| - 1];
    }
  }

  lemma {:induction false} FindUnmergedExact(conflicts: seq<Unmerged>, path: Path)
    ensures FindUnmerged(conflicts, path).Some? <==> path in (set u | u in conflicts :: u.path)
  {
    if conflicts != [] {
      FindUnmergedExact(conflicts[..|conflicts| - 1], path);
      assert forall u :: u in conflicts <==> u in conflicts[..|conflicts| - 1] || u == conflicts[|conflicts| - 1];
    }
  }

  lemma {:induction false} ListedExact(s: Sources, path: Path)
    ensures path in Listed(s) <==> !Nothing(FindingAt(s, path))
  {
    FindExact(s.staged, path);
    FindExact(s.unstaged, path);
    FindUnmergedExact(s.unmerged, path);
  }

  // ---------- The merge ----------

  /** The outcome of a merge: each path with a finding once, in byte order, with every field from its source. */
  ghost predicate Reports(list: seq<ChangedFile>, s: Sources) {
    Sorted(list) && forall path :: FileAt(list, path) == EntryFor(path, FindingAt(s, path))
  }

  method MergeLists(s: Sources) returns (r: Option<seq<ChangedFile>>)
    ensures r.Some? <==> Mergeable(s) && |Listed(s)| <= MAX_STATUS_RECORDS
    ensures r.Some? ==> Reports(r.value, s)
  {
    var files := MergeStaged(s);
    if files.None? { return None; }
    files := MergeUnstaged(s, files.value);
    if files.None? { return None; }
    files := MergeUntracked(s, files.value);
    if files.None? { return None; }
    files := MergeUnmerged(s, files.value);
    if files.None? { return None; }
    var merged := files.value;
    forall path ensures path in merged <==> path in Listed(s) {
      ListedExact(s, path);
      assert Lookup(merged, path) == EntryFor(path, FindingAt(s, path));
    }
    assert merged.Keys == Listed(s);
    if |merged| > MAX_STATUS_RECORDS { return None; }
    forall path | path in merged ensures merged[path].path == path {
      assert Lookup(merged, path) == EntryFor(path, FindingAt(s, path));
    }
    var list := SortFiles(merged);
    forall path ensures FileAt(list, path) == EntryFor(path, FindingAt(s, path)) {
      assert Lookup(merged, path) == EntryFor(path, FindingAt(s, path));
    }
    return Some(list);
  }

  method MergeStaged(s: Sources) returns (r: Option<Files>)
    ensures r.None? ==> !Mergeable(s)
    ensures r.Some? ==> var t := Sources(s.staged, [], [], []); Agrees(r.value, t) && Mergeable(t)
  {
    var files: Files := map[];
    for i := 0 to |s.staged|
      invariant var t := Sources(s.staged[..i], [], [], []); Agrees(files, t) && Mergeable(t)
    {
      ghost var t := Sources(s.staged[..i], [], [], []);
      var next := AddStaged(files, s.staged[i], t);
      StagedStep(t, s.staged[i]);
      assert s.staged[..i + 1] == t.staged + [s.staged[i]];
      if next.None? {
        MergeablePrefix(Sources(s.staged[..i + 1], [], [], []), s);
        return None;
      }
      files := next.value;
    }
    assert s.staged[..|s.staged|] == s.staged;
    return Some(files);
  }

  method MergeUnstaged(s: Sources, start: Files) returns (r: Option<Files>)
    requires var t := Sources(s.staged, [], [], []); Agrees(start, t) && Mergeable(t)
    ensures r.None? ==> !Mergeable(s)
    ensures r.Some? ==> var t := Sources(s.staged, s.unstaged, [], []); Agrees(r.value, t) && Mergeable(t)
  {
    var files := start;
    for i := 0 to |s.unstaged|
      invariant var t := Sources(s.staged, s.unstaged[..i], [], []); Agrees(files, t) && Mergeable(t)
    {
      ghost var t := Sources(s.staged, s.unstaged[..i], [], []);
      var next := AddUnstaged(files, s.unstaged[i], t);
      UnstagedStep(t, s.unstaged[i]);
      assert s.unstaged[..i + 1] == t.unstaged + [s.unstaged[i]];
      if next.None? {
        MergeablePrefix(Sources(s.staged, s.unstaged[..i + 1], [], []), s);
        return None;
      }
      files := next.value;
    }
    assert s.unstaged[..|s.unstaged|] == s.unstaged;
    return Some(files);
  }

  method MergeUntracked(s: Sources, start: Files) returns (r: Option<Files>)
    requires var t := Sources(s.staged, s.unstaged, [], []); Agrees(start, t) && Mergeable(t)
    ensures r.None? ==> !Mergeable(s)
    ensures r.Some? ==> var t := Sources(s.staged, s.unstaged, s.untracked, []); Agrees(r.value, t) && Mergeable(t)
  {
    var files := start;
    for i := 0 to |s.untracked|
      invariant var t := Sources(s.staged, s.unstaged, s.untracked[..i], []); Agrees(files, t) && Mergeable(t)
    {
      ghost var t := Sources(s.staged, s.unstaged, s.untracked[..i], []);
      var next := AddUntracked(files, s.untracked[i], t);
      UntrackedStep(t, s.untracked[i]);
      assert s.untracked[..i + 1] == t.untracked + [s.untracked[i]];
      if next.None? {
        MergeablePrefix(Sources(s.staged, s.unstaged, s.untracked[..i + 1], []), s);
        return None;
      }
      files := next.value;
    }
    assert s.untracked[..|s.untracked|] == s.untracked;
    return Some(files);
  }

  method MergeUnmerged(s: Sources, start: Files) returns (r: Option<Files>)
    requires var t := Sources(s.staged, s.unstaged, s.untracked, []); Agrees(start, t) && Mergeable(t)
    ensures r.None? <==> !Mergeable(s)
    ensures r.Some? ==> Agrees(r.value, s)
  {
    var files := start;
    for i := 0 to |s.unmerged|
      invariant var t := Sources(s.staged, s.unstaged, s.untracked, s.unmerged[..i]); Agrees(files, t) && Mergeable(t)
    {
      ghost var t := Sources(s.staged, s.unstaged, s.untracked, s.unmerged[..i]);
      var next := AddUnmerged(files, s.unmerged[i], t);
      UnmergedStep(t, s.unmerged[i]);
      assert s.unmerged[..i + 1] == t.unmerged + [s.unmerged[i]];
      if next.None? {
        MergeablePrefix(Sources(s.staged, s.unstaged, s.untracked, s.unmerged[..i + 1]), s);
        return None;
      }
      files := next.value;
    }
    assert s.unmerged[..|s.unmerged|] == s.unmerged;
    assert Sources(s.staged, s.unstaged, s.untracked, s.unmerged) == s;
    return Some(files);
  }

  /** Sources that agree path by path give the same list, whatever order their records came in. */
  lemma {:induction false} OrderIndependent(s: Sources, t: Sources, xs: seq<ChangedFile>, ys: seq<ChangedFile>)
    requires Reports(xs, s) && Reports(ys, t)
    requires forall path :: FindingAt(s, path) == FindingAt(t, path)
    ensures xs == ys
  {
    forall path ensures FileAt(xs, path) == FileAt(ys, path) {
      assert FindingAt(s, path) == FindingAt(t, path);
    }
    SortedUnique(xs, ys);
  }
}
