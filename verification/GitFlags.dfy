/** The skip-worktree check: flag records, printed and parsed back. */
module GitFlags {
  import opened Basics
  import opened Segments
  import opened GitPaths
  import opened GitRecords

  // The parser of `ls-files -t -z` accepts exactly the printings of tagged distinct paths.

  const CACHED: byte := 72
  const SKIPPED: byte := 83
  const UNMERGED: byte := 77
  const TAGS: set<byte> := {CACHED, SKIPPED, UNMERGED, 82, 67, 75}

  datatype Flag = Flag(tag: byte, path: Path)

  predicate ValidFlag(stable: Stable, f: Flag) {
    f.tag in TAGS && PathOk(stable, f.path)
  }

  function FlagText(f: Flag): seq<byte> {
    [f.tag, SPACE] + f.path
  }

  function ParseFlag(stable: Stable, raw: seq<byte>): Option<Flag> {
    if |raw| < 3 || raw[1] != SPACE || raw[0] !in TAGS || !PathOk(stable, raw[2..]) then None
    else Some(Flag(raw[0], raw[2..]))
  }

  /** A record parses to a flag exactly when it is that flag's text. */
  lemma {:induction false} FlagExact(stable: Stable, raw: seq<byte>, f: Flag)
    ensures ParseFlag(stable, raw) == Some(f) <==> ValidFlag(stable, f) && raw == FlagText(f)
  {
    if ParseFlag(stable, raw) == Some(f) {
      assert raw == [raw[0], raw[1]] + raw[2..];
    }
    if raw == FlagText(f) {
      assert raw[2..] == f.path;
    }
  }

  predicate ValidFlags(stable: Stable, fs: seq<Flag>) {
    fs == [] || (ValidFlags(stable, fs[..|fs| - 1]) && ValidFlag(stable, fs[|fs| - 1]))
  }

  function FlagRecords(fs: seq<Flag>): (records: seq<seq<byte>>)
    ensures |records| == |fs|
  {
    if fs == [] then [] else FlagRecords(fs[..|fs| - 1]) + [FlagText(fs[|fs| - 1])]
  }

  function FlagPaths(fs: seq<Flag>): (paths: seq<Path>)
    ensures |paths| == |fs|
  {
    if fs == [] then [] else FlagPaths(fs[..|fs| - 1]) + [fs[|fs| - 1].path]
  }

  function PrintFlags(fs: seq<Flag>): seq<byte> {
    Terminated(FlagRecords(fs), NUL)
  }

  predicate AnySkipped(fs: seq<Flag>) {
    fs != [] && (fs[|fs| - 1].tag == SKIPPED || AnySkipped(fs[..|fs| - 1]))
  }

  predicate WellFormedFlags(stable: Stable, fs: seq<Flag>) {
    ValidFlags(stable, fs) && Distinct(FlagPaths(fs)) && |fs| <= MAX_STATUS_RECORDS
  }

  lemma {:induction false} FlagAt(stable: Stable, fs: seq<Flag>, i: nat)
    requires i < |fs|
    ensures FlagRecords(fs)[i] == FlagText(fs[i]) && FlagPaths(fs)[i] == fs[i].path
    ensures ValidFlags(stable, fs) ==> ValidFlag(stable, fs[i])
  {
    if i < |fs| - 1 {
      FlagAt(stable, fs[..|fs| - 1], i);
    }
  }

  /** Whatever valid list prints to these bytes, its records are the pieces of the bytes. */
  lemma {:induction false} PrintedFlags(stable: Stable, fs: seq<Flag>, bytes: seq<byte>)
    requires ValidFlags(stable, fs) && PrintFlags(fs) == bytes
    ensures fs == [] <==> bytes == []
    ensures bytes != [] ==> bytes[|bytes| - 1] == NUL && Split(bytes[..|bytes| - 1], NUL) == FlagRecords(fs)
  {
    if fs != [] {
      forall i | 0 <= i < |fs| ensures NUL !in FlagRecords(fs)[i] {
        FlagAt(stable, fs, i);
      }
      TerminatedUnique(FlagRecords(fs), bytes, NUL);
    }
  }

  lemma {:induction false} SameFlags(stable: Stable, fs: seq<Flag>, gs: seq<Flag>, n: nat)
    requires ValidFlags(stable, fs) && ValidFlags(stable, gs) && n <= |fs| && n <= |gs|
    requires FlagRecords(fs)[..n] == FlagRecords(gs)[..n]
    ensures fs[..n] == gs[..n]
  {
    forall i | 0 <= i < n ensures fs[i] == gs[i] {
      assert FlagRecords(fs)[i] == FlagRecords(fs)[..n][i] && FlagRecords(gs)[i] == FlagRecords(gs)[..n][i];
      FlagAt(stable, fs, i);
      FlagAt(stable, gs, i);
      FlagExact(stable, FlagText(fs[i]), fs[i]);
      FlagExact(stable, FlagText(gs[i]), gs[i]);
    }
  }

  /** Printing loses nothing. */
  lemma {:induction false} PrintFlagsInjective(stable: Stable, fs: seq<Flag>, gs: seq<Flag>)
    requires ValidFlags(stable, fs) && ValidFlags(stable, gs) && PrintFlags(fs) == PrintFlags(gs)
    ensures fs == gs
  {
    PrintedFlags(stable, fs, PrintFlags(fs));
    PrintedFlags(stable, gs, PrintFlags(gs));
    if fs != [] {
      SameFlags(stable, fs, gs, |fs|);
      assert fs[..|fs|] == fs && gs[..|gs|] == gs;
    }
  }

  lemma {:induction false} SnocFlag(fs: seq<Flag>, f: Flag)
    ensures FlagRecords(fs + [f]) == FlagRecords(fs) + [FlagText(f)]
    ensures FlagPaths(fs + [f]) == FlagPaths(fs) + [f.path]
    ensures AnySkipped(fs + [f]) <==> f.tag == SKIPPED || AnySkipped(fs)
  {
    assert (fs + [f])[..|fs|] == fs;
  }

  lemma {:induction false} NextFlag(stable: Stable, raws: seq<seq<byte>>, fs: seq<Flag>, f: Flag)
    requires |fs| < |raws| && WellFormedFlags(stable, fs) && FlagRecords(fs) == raws[..|fs|]
    requires ParseFlag(stable, raws[|fs|]) == Some(f) && f.path !in FlagPaths(fs) && |fs| < MAX_STATUS_RECORDS
    ensures WellFormedFlags(stable, fs + [f]) && FlagRecords(fs + [f]) == raws[..|fs| + 1]
  {
    var paths := FlagPaths(fs);
    FlagExact(stable, raws[|fs|], f);
    SnocFlag(fs, f);
    assert (fs + [f])[..|fs|] == fs && (paths + [f.path])[..|paths|] == paths;
  }

  /** If the next record is no flag, repeats a path or is one too many, no list prints to the bytes. */
  lemma {:induction false} RejectedFlag(stable: Stable, bytes: seq<byte>, raws: seq<seq<byte>>, fs: seq<Flag>, gs: seq<Flag>)
    requires bytes != [] && bytes[|bytes| - 1] == NUL && raws == Split(bytes[..|bytes| - 1], NUL)
    requires |fs| < |raws| && ValidFlags(stable, fs) && FlagRecords(fs) == raws[..|fs|]
    requires var parsed := ParseFlag(stable, raws[|fs|]);
             parsed.None? || |fs| == MAX_STATUS_RECORDS || parsed.value.path in FlagPaths(fs)
    requires WellFormedFlags(stable, gs)
    ensures PrintFlags(gs) != bytes
  {
    if PrintFlags(gs) == bytes {
      var n := |fs|;
      PrintedFlags(stable, gs, bytes);
      assert FlagRecords(fs)[..n] == FlagRecords(fs);
      SameFlags(stable, fs, gs, n);
      assert fs[..n] == fs;
      FlagAt(stable, gs, n);
      FlagExact(stable, raws[n], gs[n]);
      DistinctAt(FlagPaths(gs), n);
      PathsOfPrefix(gs, n);
    }
  }

  lemma {:induction false} PathsOfPrefix(fs: seq<Flag>, n: nat)
    requires n <= |fs|
    ensures FlagPaths(fs[..n]) == FlagPaths(fs)[..n]
  {
    if n < |fs| {
      assert fs[..|fs| - 1][..n] == fs[..n];
      PathsOfPrefix(fs[..|fs| - 1], n);
    } else {
      assert fs[..n] == fs;
    }
  }

  /** The parser: whether some entry is marked skip-worktree. */
  method HasSkipWorktree(stable: Stable, bytes: seq<byte>) returns (r: Option<bool>)
    ensures r.Some? ==> exists fs :: WellFormedFlags(stable, fs) && PrintFlags(fs) == bytes
    ensures forall fs :: WellFormedFlags(stable, fs) && PrintFlags(fs) == bytes ==> r == Some(AnySkipped(fs))
  {
    if bytes == [] {
      var none: seq<Flag> := [];
      assert WellFormedFlags(stable, none) && PrintFlags(none) == bytes;
      forall fs | WellFormedFlags(stable, fs) && PrintFlags(fs) == bytes ensures fs == none {
        PrintFlagsInjective(stable, fs, none);
      }
      return Some(false);
    }
    if bytes[|bytes| - 1] != NUL {
      forall fs | WellFormedFlags(stable, fs) ensures PrintFlags(fs) != bytes {
        if PrintFlags(fs) == bytes {
          PrintedFlags(stable, fs, bytes);
        }
      }
      return None;
    }
    var raws: seq<seq<byte>> := Split<byte>(bytes[..|bytes| - 1], NUL);
    SplitTerminated(bytes, NUL);
    var fs: seq<Flag> := [];
    var seen: seq<Path> := [];
    var skip := false;
    for i := 0 to |raws|
      invariant |fs| == i && WellFormedFlags(stable, fs) && FlagRecords(fs) == raws[..i]
      invariant seen == FlagPaths(fs) && skip == AnySkipped(fs)
    {
      var parsed := ParseFlag(stable, raws[i]);
      if parsed.None? || parsed.value.path in seen || |seen| == MAX_STATUS_RECORDS {
        forall gs | WellFormedFlags(stable, gs) ensures PrintFlags(gs) != bytes {
          RejectedFlag(stable, bytes, raws, fs, gs);
        }
        return None;
      }
      NextFlag(stable, raws, fs, parsed.value);
      SnocFlag(fs, parsed.value);
      seen := seen + [parsed.value.path];
      skip := skip || parsed.value.tag == SKIPPED;
      fs := fs + [parsed.value];
    }
    assert raws[..|raws|] == raws;
    forall gs | WellFormedFlags(stable, gs) && PrintFlags(gs) == bytes ensures gs == fs {
      PrintFlagsInjective(stable, gs, fs);
    }
    return Some(skip);
  }
}
