/** Git's formats and limits, in letters and numbers. */
module GitLiterals {
  import opened Basics
  import opened Segments
  import opened GitPaths
  import opened GitIndex
  import opened GitFlags
  import opened GitRecords
  import opened GitConflicts
  import GitStaged
  import opened GitWorktree
  import opened GitWorktreeFields
  import opened PathRules

  /** ASCII text as bytes. */
  function Bytes(text: string): seq<byte> {
    seq(|text|, i requires 0 <= i < |text| => if text[i] as int < 256 then text[i] as int else 0)
  }

  /** What is found on disk has the mode that git would record for it. */
  lemma {:induction false} NodeModes(node: Node, mode: Mode)
    ensures NodeMode(node) == Some(mode) ==>
              ModeNumber(mode) == if node.Link? then 40960 else if node.File? && node.executable then 33261 else 33188
    ensures NodeMode(node).Some? <==> node.Link? || node.File?
  {
  }

  /** The tags of index entries, and which one says skip-worktree. */
  lemma {:induction false} FlagTags(stable: Stable, f: Flag, fs: seq<Flag>)
    ensures ValidFlag(stable, f) <==>
              PathOk(stable, f.path)
              && f.tag in {'H' as int, 'S' as int, 'M' as int, 'R' as int, 'C' as int, 'K' as int}
    ensures AnySkipped(fs) <==> exists i :: 0 <= i < |fs| && fs[i].tag == 'S' as int
  {
    if fs != [] {
      var rest := fs[..|fs| - 1];
      FlagTags(stable, f, rest);
      assert forall i :: 0 <= i < |rest| ==> rest[i] == fs[i];
    }
  }

  /** Every record list has the same limit, and a staged list drops exactly git's `U` records and names
      an absent mode as none. */
  lemma {:induction false} Limits(stable: Stable, es: seq<Entry>, paths: seq<Path>, fs: seq<Flag>, cs: seq<GitStaged.RawChange>)
    ensures WellFormedIndex(stable, es) <==> ValidEntries(stable, es) && DistinctKeys(es) && |es| <= 1000
    ensures WellFormedPaths(stable, paths) <==> AllPathsOk(stable, paths) && Distinct(paths) && |paths| <= 1000
    ensures WellFormedFlags(stable, fs) <==> ValidFlags(stable, fs) && Distinct(FlagPaths(fs)) && |fs| <= 1000
    ensures GitStaged.WellFormedStaged(stable, cs) <==>
              GitStaged.ValidRaws(stable, cs) && Distinct(GitStaged.Paths(cs)) && |cs| <= 1000
    ensures WellFormedUnmerged(stable, es) <==>
              ValidEntries(stable, es) && DistinctKeys(es) && Conflicted(es) && |Collect(es)| <= 1000
  {
  }

  lemma {:induction false} ReportedOne(cs: seq<GitStaged.RawChange>, c: GitStaged.RawChange)
    ensures GitStaged.Reported(cs + [c]) ==
              GitStaged.Reported(cs) +
              match c.status
              case None => []
              case Some(kind) =>
                [GitStaged.Change(c.path, if c.oldMode == Absent then None else Some(c.oldMode),
                                  if c.newMode == Absent then None else Some(c.newMode), kind)]
  {
    assert (cs + [c])[..|cs|] == cs;
  }

  lemma {:induction false} BytesOf(text: string, bytes: seq<byte>)
    requires |bytes| == |text| && forall i :: 0 <= i < |text| ==> bytes[i] == text[i] as int
    ensures Bytes(text) == bytes
  {
  }

  /** The attribute lines of a worktree listing, in letters. */
  lemma {:induction false} FieldTexts(f: Field)
    ensures f.WorktreeAt? ==> FieldText(f) == Bytes("worktree ") + f.path
    ensures f.HeadIs? ==> FieldText(f) == Bytes("HEAD ") + f.commit
    ensures f.OnBranch? ==> FieldText(f) == Bytes("branch ") + f.name
    ensures f.Detached? ==> FieldText(f) == Bytes("detached")
    ensures f.Bare? ==> FieldText(f) == Bytes("bare")
    ensures f.Locked? ==> FieldText(f) == Bytes("locked") + if f.reason == [] then [] else [32] + f.reason
    ensures f.Prunable? ==> FieldText(f) == Bytes("prunable") + if f.reason == [] then [] else [32] + f.reason
  {
    BytesOf("worktree ", WORKTREE);
    BytesOf("HEAD ", HEAD);
    BytesOf("branch ", BRANCH);
    BytesOf("detached", DETACHED);
    BytesOf("bare", BARE);
    BytesOf("locked", LOCKED);
    BytesOf("prunable", PRUNABLE);
  }

  /** A listed path is the root, or begins with a slash behind which no component is empty, `.` or `..`; and
      a commit is forty hexadecimal digits of either case. */
  lemma {:induction false} FieldsExactly(path: Path, commit: seq<byte>)
    ensures NormalPath(path) <==>
              || path == [47]
              || (path != [] && path[0] == 47
                  && forall i: nat, j: nat :: Component(path[1..], i, j) ==>
                       j > i && path[1..][i..j] != [46] && path[1..][i..j] != [46, 46])
    ensures CommitOk(commit) <==>
              |commit| == 40 && forall i :: 0 <= i < 40 ==>
                || '0' as int <= commit[i] <= '9' as int
                || 'a' as int <= commit[i] <= 'f' as int
                || 'A' as int <= commit[i] <= 'F' as int
  {
    if path != [] && path[0] == SLASH {
      PartsExactly(path[1..]);
    }
  }
}
