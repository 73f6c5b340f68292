/** The strict parser for untracked paths, the simplest of the NUL-record formats:
    it accepts exactly the terminated forms of lists of distinct valid paths, and
    gives the list back. */
module GitRecords {
  import opened Basics
  import opened Segments
  import opened GitPaths

  predicate Distinct<T(==)>(s: seq<T>) {
    s == [] || (s[|s| - 1] !in s[..|s| - 1] && Distinct(s[..|s| - 1]))
  }

  lemma {:induction false} DistinctAt<T>(s: seq<T>, i: nat)
    requires Distinct(s) && i < |s|
    ensures s[i] !in s[..i]
  {
    if i < |s| - 1 {
      DistinctAt(s[..|s| - 1], i);
      assert s[..|s| - 1][..i] == s[..i];
    }
  }

  // ---------- Untracked paths ----------

  predicate AllPathsOk(stable: Stable, paths: seq<Path>) {
    paths == [] || (AllPathsOk(stable, paths[..|paths| - 1]) && PathOk(stable, paths[|paths| - 1]))
  }

  predicate WellFormedPaths(stable: Stable, paths: seq<Path>) {
    AllPathsOk(stable, paths) && Distinct(paths) && |paths| <= MAX_STATUS_RECORDS
  }

  lemma {:induction false} PathOkAt(stable: Stable, paths: seq<Path>, i: nat)
    requires AllPathsOk(stable, paths) && i < |paths|
    ensures PathOk(stable, paths[i])
  {
    if i < |paths| - 1 {
      PathOkAt(stable, paths[..|paths| - 1], i);
    }
  }

  lemma {:induction false} PathsFree(stable: Stable, paths: seq<Path>)
    requires AllPathsOk(stable, paths)
    ensures Free(paths, NUL)
  {
    forall i | 0 <= i < |paths| ensures NUL !in paths[i] {
      PathOkAt(stable, paths, i);
    }
  }

  lemma {:induction false} PrintedPaths(stable: Stable, bytes: seq<byte>)
    ensures forall paths: seq<Path> :: AllPathsOk(stable, paths) && Terminated(paths, NUL) == bytes ==>
              if bytes == [] then paths == []
              else bytes[|bytes| - 1] == NUL && paths == Split(bytes[..|bytes| - 1], NUL)
  {
    forall paths: seq<Path> | AllPathsOk(stable, paths) && Terminated(paths, NUL) == bytes
      ensures if bytes == [] then paths == []
              else bytes[|bytes| - 1] == NUL && paths == Split(bytes[..|bytes| - 1], NUL)
    {
      PathsFree(stable, paths);
      if paths != [] {
        TerminatedUnique(paths, bytes, NUL);
      }
    }
  }

  /** The parser of `ls-files --others -z`. */
  method ParseUntracked(stable: Stable, bytes: seq<byte>) returns (r: Option<seq<Path>>)
    ensures r.Some? ==> WellFormedPaths(stable, r.value) && Terminated(r.value, NUL) == bytes
    ensures forall paths :: WellFormedPaths(stable, paths) && Terminated(paths, NUL) == bytes ==> r == Some(paths)
  {
    PrintedPaths(stable, bytes);
    if bytes == [] {
      return Some([]);
    }
    if bytes[|bytes| - 1] != NUL {
      return None;
    }
    var raws: seq<seq<byte>> := Split<byte>(bytes[..|bytes| - 1], NUL);
    SplitTerminated(bytes, NUL);
    var result: seq<Path> := [];
    for i := 0 to |raws|
      invariant |result| == i && result == raws[..i] && WellFormedPaths(stable, result)
    {
      if !PathOk(stable, raws[i]) || raws[i] in result || |result| == MAX_STATUS_RECORDS {
        assert !WellFormedPaths(stable, raws) by {
          if WellFormedPaths(stable, raws) {
            PathOkAt(stable, raws, i);
            DistinctAt(raws, i);
          }
        }
        return None;
      }
      assert raws[..i + 1][..i] == raws[..i];
      result := result + [raws[i]];
      assert result == raws[..i + 1];
    }
    assert raws[..|raws|] == raws;
    return Some(result);
  }
}
