/** The files an inventory reports, and their order: strictly by the bytes of the
    path. A strictly sorted list is determined by what it lists, so it does not
    matter in which order the program's hash map hands out its values. */
module GitListing {
  import opened Basics
  import opened GitPaths
  import opened GitStaged
  import opened GitConflicts

  datatype Submodule = Submodule(commitChanged: bool, modified: bool, untracked: bool)

  datatype ChangedFile = ChangedFile(
    path: Path,
    indexChange: Option<ChangeKind>,
    worktreeChange: Option<ChangeKind>,
    conflict: Option<ConflictKind>,
    untracked: bool,
    submodule: Option<Submodule>,
    modeHead: Option<Mode>,
    modeIndex: Option<Mode>,
    modeWorktree: Option<Mode>)

  /** Byte-wise lexicographic order; a proper prefix comes first. */
  predicate Less(a: Path, b: Path) {
    b != [] && (a == [] || a[0] < b[0] || (a[0] == b[0] && Less(a[1..], b[1..])))
  }

  lemma {:induction false} LessTransitive(a: Path, b: Path, c: Path)
    requires Less(a, b) && Less(b, c)
    ensures Less(a, c)
  {
    if a != [] && a[0] == b[0] && b[0] == c[0] {
      LessTransitive(a[1..], b[1..], c[1..]);
    }
  }

  lemma {:induction false} LessIsTotal(a: Path, b: Path)
    ensures !Less(a, a)
    ensures if a == b then !Less(a, b) && !Less(b, a) else Less(a, b) <==> !Less(b, a)
  {
    if a != [] {
      LessIsTotal(a[1..], a[1..]);
    }
    if a != [] && b != [] && a[0] == b[0] {
      LessIsTotal(a[1..], b[1..]);
      assert a == [a[0]] + a[1..] && b == [b[0]] + b[1..];
    }
  }

  predicate Sorted(list: seq<ChangedFile>) {
    |list| <= 1 || (Less(list[0].path, list[1].path) && Sorted(list[1..]))
  }

  /** The entry listed for a path, if any. */
  function FileAt(list: seq<ChangedFile>, path: Path): (r: Option<ChangedFile>)
    ensures r.Some? ==> r.value.path == path && r.value in list
  {
    if list == [] then None
    else if list[0].path == path then Some(list[0])
    else FileAt(list[1..], path)
  }

  /** Nothing before the head of a sorted list is listed. */
  lemma {:induction false} NotBeforeHead(list: seq<ChangedFile>, path: Path)
    requires Sorted(list) && list != [] && Less(path, list[0].path)
    ensures FileAt(list, path).None?
  {
    LessIsTotal(path, list[0].path);
    if |list| > 1 {
      LessTransitive(path, list[0].path, list[1].path);
      NotBeforeHead(list[1..], path);
    }
  }

  lemma {:induction false} HeadIsNew(list: seq<ChangedFile>)
    requires Sorted(list) && list != []
    ensures FileAt(list[1..], list[0].path).None?
  {
    if |list| > 1 {
      NotBeforeHead(list[1..], list[0].path);
    }
  }

  function Insert(file: ChangedFile, list: seq<ChangedFile>): (r: seq<ChangedFile>)
    ensures |r| == |list| + 1
  {
    if list == [] || Less(file.path, list[0].path) then [file] + list
    else [list[0]] + Insert(file, list[1..])
  }

  lemma {:induction false} InsertKeepsSorted(file: ChangedFile, list: seq<ChangedFile>)
    requires Sorted(list) && FileAt(list, file.path).None?
    ensures Sorted(Insert(file, list))
    ensures Insert(file, list)[0].path == file.path || (list != [] && Insert(file, list)[0] == list[0])
  {
    if list != [] && !Less(file.path, list[0].path) {
      LessIsTotal(file.path, list[0].path);
      InsertKeepsSorted(file, list[1..]);
      var rest := Insert(file, list[1..]);
      assert Insert(file, list)[1..] == rest;
    } else {
      assert Insert(file, list)[1..] == list;
    }
  }

  lemma {:induction false} InsertAt(file: ChangedFile, list: seq<ChangedFile>, path: Path)
    requires FileAt(list, file.path).None?
    ensures FileAt(Insert(file, list), path) == if path == file.path then Some(file) else FileAt(list, path)
  {
    if list != [] && !Less(file.path, list[0].path) {
      InsertAt(file, list[1..], path);
      assert Insert(file, list)[1..] == Insert(file, list[1..]);
    } else {
      assert Insert(file, list)[1..] == list;
    }
  }

  /** A sorted list is determined by what it lists: no other order of the same files is sorted. */
  lemma {:induction false} SortedUnique(xs: seq<ChangedFile>, ys: seq<ChangedFile>)
    requires Sorted(xs) && Sorted(ys)
    requires forall path :: FileAt(xs, path) == FileAt(ys, path)
    ensures xs == ys
  {
    assert xs != [] ==> FileAt(xs, xs[0].path).Some?;
    assert ys != [] ==> FileAt(ys, ys[0].path).Some?;
    if xs != [] && ys != [] {
      SameHead(xs, ys);
      forall path ensures FileAt(xs[1..], path) == FileAt(ys[1..], path) {
        HeadIsNew(xs);
        HeadIsNew(ys);
        assert FileAt(xs, path) == FileAt(ys, path);
      }
      SortedUnique(xs[1..], ys[1..]);
      assert xs == [xs[0]] + xs[1..] && ys == [ys[0]] + ys[1..];
    }
  }

  lemma {:induction false} SameHead(xs: seq<ChangedFile>, ys: seq<ChangedFile>)
    requires Sorted(xs) && Sorted(ys) && xs != [] && ys != []
    requires forall path :: FileAt(xs, path) == FileAt(ys, path)
    ensures xs[0] == ys[0]
  {
    var a, b := xs[0].path, ys[0].path;
    assert FileAt(xs, a) == FileAt(ys, a) && FileAt(xs, b) == FileAt(ys, b);
    LessIsTotal(a, b);
    if Less(a, b) {
      NotBeforeHead(ys, a);
    } else if Less(b, a) {
      NotBeforeHead(xs, b);
    }
  }

  /** The files of a map, taken out in an arbitrary order and sorted. */
  method SortFiles(files: map<Path, ChangedFile>) returns (list: seq<ChangedFile>)
    requires forall path :: path in files ==> files[path].path == path
    ensures Sorted(list) && |list| == |files|
    ensures forall path :: FileAt(list, path) == if path in files then Some(files[path]) else None
  {
    list := [];
    var rest := files.Keys;
    while rest != {}
      invariant rest <= files.Keys && |list| + |rest| == |files| && Sorted(list)
      invariant forall path :: FileAt(list, path) == if path in files && path !in rest then Some(files[path]) else None
      decreases |rest|
    {
      var next :| next in rest;
      var file := files[next];
      assert FileAt(list, next).None?;
      InsertKeepsSorted(file, list);
      forall path ensures FileAt(Insert(file, list), path) == if path == next then Some(file) else FileAt(list, path) {
        InsertAt(file, list, path);
      }
      list := Insert(file, list);
      rest := rest - {next};
    }
  }

  /** The order is that of the first byte in which two paths differ, and a proper prefix comes first. */
  lemma {:induction false} LessExactly(a: Path, b: Path)
    ensures Less(a, b) <==>
              || (|a| < |b| && b[..|a|] == a)
              || exists i :: 0 <= i < |a| && i < |b| && a[..i] == b[..i] && a[i] < b[i]
  {
    if a == [] || b == [] {
      assert b[..0] == [];
    } else {
      var x, y := a[1..], b[1..];
      LessExactly(x, y);
      if a[0] == b[0] {
        assert |a| < |b| ==> b[..|a|] == [b[0]] + y[..|x|];
        assert a == [a[0]] + x;
        forall i | 0 < i <= |a| && i <= |b| ensures a[..i] == b[..i] <==> x[..i - 1] == y[..i - 1] {
          assert a[..i] == [a[0]] + x[..i - 1] && b[..i] == [b[0]] + y[..i - 1];
          assert x[..i - 1] == a[..i][1..] && y[..i - 1] == b[..i][1..];
        }
        FirstDifference(a, b, x, y);
      } else {
        assert a[..0] == b[..0];
        assert |a| < |b| ==> b[..|a|][0] == b[0];
        forall i | 0 < i < |a| && i < |b| ensures a[..i] != b[..i] {
          assert a[..i][0] != b[..i][0];
        }
      }
    }
  }

  lemma {:induction false} FirstDifference(a: Path, b: Path, x: Path, y: Path)
    requires a != [] && b != [] && a[0] == b[0] && x == a[1..] && y == b[1..]
    requires forall i :: 0 < i <= |a| && i <= |b| ==> (a[..i] == b[..i] <==> x[..i - 1] == y[..i - 1])
    ensures (exists i :: 0 <= i < |a| && i < |b| && a[..i] == b[..i] && a[i] < b[i]) <==>
              (exists i :: 0 <= i < |x| && i < |y| && x[..i] == y[..i] && x[i] < y[i])
  {
    if exists i :: 0 <= i < |a| && i < |b| && a[..i] == b[..i] && a[i] < b[i] {
      var i :| 0 <= i < |a| && i < |b| && a[..i] == b[..i] && a[i] < b[i];
      assert x[i - 1] == a[i] && y[i - 1] == b[i];
    }
    if exists i :: 0 <= i < |x| && i < |y| && x[..i] == y[..i] && x[i] < y[i] {
      var i :| 0 <= i < |x| && i < |y| && x[..i] == y[..i] && x[i] < y[i];
      assert a[i + 1] == x[i] && b[i + 1] == y[i] && a[..i + 1] == b[..i + 1];
    }
  }
}
