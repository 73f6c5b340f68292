/** The staged half of the inventory: the raw `diff-index --cached` stream, in which a
    header and a path make one record. The parser accepts exactly the printings of
    well-formed record lists and reports all records but the unmerged ones. */
module GitStaged {
  import opened Basics
  import opened Segments
  import opened GitPaths
  import opened GitRecords

  datatype ChangeKind = Added | Modified | Deleted | TypeChanged

  /** One raw record. Without a status it is git's `U`, an unmerged path. */
  datatype RawChange = RawChange(
    path: Path, oldMode: Mode, newMode: Mode, oldOid: Oid, newOid: Oid, status: Option<ChangeKind>)

  /** One side of the inventory: what changed, with an absent mode as None. */
  datatype Change = Change(path: Path, oldMode: Option<Mode>, newMode: Option<Mode>, status: ChangeKind)

  predicate ValidRaw(stable: Stable, c: RawChange) {
    PathOk(stable, c.path) && ValidOid(c.oldOid) && ValidOid(c.newOid)
  }

  function StatusText(status: Option<ChangeKind>): seq<byte> {
    match status
    case None => [85]
    case Some(Added) => [65]
    case Some(Modified) => [77]
    case Some(Deleted) => [68]
    case Some(TypeChanged) => [84]
  }

  function ParseStatus(text: seq<byte>): (status: Option<Option<ChangeKind>>)
    ensures status.Some? ==> text == StatusText(status.value)
  {
    if text == [65] then Some(Some(Added))
    else if text == [77] then Some(Some(Modified))
    else if text == [68] then Some(Some(Deleted))
    else if text == [84] then Some(Some(TypeChanged))
    else if text == [85] then Some(None)
    else None
  }

  function HeaderParts(c: RawChange): seq<seq<byte>> {
    [[COLON] + ModeText(c.oldMode), ModeText(c.newMode), c.oldOid, c.newOid, StatusText(c.status)]
  }

  function RawHeader(c: RawChange): seq<byte> {
    Join(HeaderParts(c), SPACE)
  }

  /** The record of one header and path field. */
  function ParseRaw(stable: Stable, header: seq<byte>, path: seq<byte>): Option<RawChange> {
    var parts: seq<seq<byte>> := Split<byte>(header, SPACE);
    if !PathOk(stable, path) || |parts| != 5 || parts[0] == [] || parts[0][0] != COLON then None
    else
      match (ParseMode(parts[0][1..]), ParseMode(parts[1]), ParseStatus(parts[4]))
      case (Some(oldMode), Some(newMode), Some(status)) =>
        if ValidOid(parts[2]) && ValidOid(parts[3])
        then Some(RawChange(path, oldMode, newMode, parts[2], parts[3], status))
        else None
      case (_, _, _) => None
  }

  lemma {:induction false} HeaderPartsFree(c: RawChange)
    ensures ValidOid(c.oldOid) && ValidOid(c.newOid) ==> Free(HeaderParts(c), SPACE) && Free(HeaderParts(c), NUL)
  {
  }

  lemma {:induction false} JoinFree<T>(parts: seq<seq<T>>, sep: T, other: T)
    requires |parts| >= 1 && Free(parts, other) && sep != other
    ensures other !in Join(parts, sep)
  {
    if |parts| > 1 {
      JoinFree(parts[1..], sep, other);
    }
  }

  lemma {:induction false} RawSound(stable: Stable, header: seq<byte>, path: seq<byte>)
    requires ParseRaw(stable, header, path).Some?
    ensures var c := ParseRaw(stable, header, path).value;
            ValidRaw(stable, c) && header == RawHeader(c) && path == c.path
  {
    JoinSplit(header, SPACE);
    var parts: seq<seq<byte>> := Split<byte>(header, SPACE);
    assert parts[0] == [COLON] + parts[0][1..];
    assert parts == HeaderParts(ParseRaw(stable, header, path).value);
  }

  lemma {:induction false} RawComplete(stable: Stable, c: RawChange)
    requires ValidRaw(stable, c)
    ensures ParseRaw(stable, RawHeader(c), c.path) == Some(c)
  {
    HeaderPartsFree(c);
    SplitJoin(HeaderParts(c), SPACE);
    ModeRoundTrip(c.oldMode);
    ModeRoundTrip(c.newMode);
    assert HeaderParts(c)[0][1..] == ModeText(c.oldMode);
  }

  /** A header and a path parse to a record exactly when they are that record's two fields. */
  lemma {:induction false} RawExact(stable: Stable, header: seq<byte>, path: seq<byte>, c: RawChange)
    ensures ParseRaw(stable, header, path) == Some(c) <==>
              ValidRaw(stable, c) && header == RawHeader(c) && path == c.path
  {
    if ParseRaw(stable, header, path) == Some(c) {
      RawSound(stable, header, path);
    }
    if ValidRaw(stable, c) && header == RawHeader(c) && path == c.path {
      RawComplete(stable, c);
    }
  }

  // ---------- Lists of records ----------

  predicate ValidRaws(stable: Stable, cs: seq<RawChange>) {
    cs == [] || (ValidRaws(stable, cs[..|cs| - 1]) && ValidRaw(stable, cs[|cs| - 1]))
  }

  function Fields(cs: seq<RawChange>): (fields: seq<seq<byte>>)
    ensures |fields| == 2 * |cs|
  {
    if cs == [] then [] else
    var c := cs[|cs| - 1];
    Fields(cs[..|cs| - 1]) + [RawHeader(c), c.path]
  }

  function PrintStaged(cs: seq<RawChange>): seq<byte> {
    Terminated(Fields(cs), NUL)
  }

  function Paths(cs: seq<RawChange>): (paths: seq<Path>)
    ensures |paths| == |cs|
  {
    if cs == [] then [] else Paths(cs[..|cs| - 1]) + [cs[|cs| - 1].path]
  }

  function SeenPaths(cs: seq<RawChange>): set<Path> {
    if cs == [] then {} else SeenPaths(cs[..|cs| - 1]) + {cs[|cs| - 1].path}
  }

  lemma {:induction false} SeenPathsExact(cs: seq<RawChange>, p: Path)
    ensures p in SeenPaths(cs) <==> p in Paths(cs)
  {
    if cs != [] {
      SeenPathsExact(cs[..|cs| - 1], p);
    }
  }

  lemma {:induction false} PathsAt(cs: seq<RawChange>, n: nat)
    requires n < |cs|
    ensures Paths(cs)[n] == cs[n].path && Paths(cs)[..n] == Paths(cs[..n])
  {
    if n < |cs| - 1 {
      PathsAt(cs[..|cs| - 1], n);
      assert cs[..|cs| - 1][..n] == cs[..n];
    }
  }

  predicate WellFormedStaged(stable: Stable, cs: seq<RawChange>) {
    ValidRaws(stable, cs) && Distinct(Paths(cs)) && |cs| <= MAX_STATUS_RECORDS
  }

  function Present(mode: Mode): Option<Mode> {
    if mode == Absent then None else Some(mode)
  }

  /** What is reported: every record but the unmerged ones, in order. */
  function Reported(cs: seq<RawChange>): seq<Change> {
    if cs == [] then []
    else
      var c := cs[|cs| - 1];
      var rest := Reported(cs[..|cs| - 1]);
      if c.status.None? then rest
      else rest + [Change(c.path, Present(c.oldMode), Present(c.newMode), c.status.value)]
  }

  lemma {:induction false} FieldsAt(cs: seq<RawChange>, i: nat)
    requires i < |cs|
    ensures Fields(cs)[2 * i] == RawHeader(cs[i]) && Fields(cs)[2 * i + 1] == cs[i].path
  {
    if i < |cs| - 1 {
      FieldsAt(cs[..|cs| - 1], i);
    }
  }

  lemma {:induction false} ValidRawAt(stable: Stable, cs: seq<RawChange>, i: nat)
    requires ValidRaws(stable, cs) && i < |cs|
    ensures ValidRaw(stable, cs[i])
  {
    if i < |cs| - 1 {
      ValidRawAt(stable, cs[..|cs| - 1], i);
    }
  }

  lemma {:induction false} FieldsFree(stable: Stable, cs: seq<RawChange>)
    requires ValidRaws(stable, cs)
    ensures Free(Fields(cs), NUL)
  {
    if cs != [] {
      FieldsFree(stable, cs[..|cs| - 1]);
      HeaderPartsFree(cs[|cs| - 1]);
      JoinFree(HeaderParts(cs[|cs| - 1]), SPACE, NUL);
    }
  }

  lemma {:induction false} PrintedFields(stable: Stable, cs: seq<RawChange>, bytes: seq<byte>)
    requires ValidRaws(stable, cs) && PrintStaged(cs) == bytes
    ensures cs == [] <==> bytes == []
    ensures bytes != [] ==> bytes[|bytes| - 1] == NUL && Split(bytes[..|bytes| - 1], NUL) == Fields(cs)
  {
    if cs != [] {
      FieldsFree(stable, cs);
      TerminatedUnique(Fields(cs), bytes, NUL);
    }
  }

  /** Each field pair determines its record, so a list is the parse of its fields. */
  lemma {:induction false} SameFields(stable: Stable, cs: seq<RawChange>, ds: seq<RawChange>, n: nat)
    requires ValidRaws(stable, cs) && ValidRaws(stable, ds) && n <= |cs| && n <= |ds|
    requires Fields(cs)[..2 * n] == Fields(ds)[..2 * n]
    ensures cs[..n] == ds[..n]
  {
    forall i | 0 <= i < n ensures cs[i] == ds[i] {
      FieldsAt(cs, i);
      FieldsAt(ds, i);
      assert Fields(cs)[2 * i] == Fields(cs)[..2 * n][2 * i] && Fields(cs)[2 * i + 1] == Fields(cs)[..2 * n][2 * i + 1];
      assert Fields(ds)[2 * i] == Fields(ds)[..2 * n][2 * i] && Fields(ds)[2 * i + 1] == Fields(ds)[..2 * n][2 * i + 1];
      ValidRawAt(stable, cs, i);
      ValidRawAt(stable, ds, i);
      RawExact(stable, RawHeader(cs[i]), cs[i].path, cs[i]);
      RawExact(stable, RawHeader(ds[i]), ds[i].path, ds[i]);
    }
  }

  /** Printing a staged list loses nothing. */
  lemma {:induction false} PrintStagedInjective(stable: Stable, cs: seq<RawChange>, ds: seq<RawChange>)
    requires ValidRaws(stable, cs) && ValidRaws(stable, ds) && PrintStaged(cs) == PrintStaged(ds)
    ensures cs == ds
  {
    PrintedFields(stable, cs, PrintStaged(cs));
    PrintedFields(stable, ds, PrintStaged(ds));
    if cs != [] {
      assert |cs| == |ds|;
      SameFields(stable, cs, ds, |cs|);
      assert cs[..|cs|] == cs && ds[..|ds|] == ds;
    }
  }

  ghost predicate Unprintable(stable: Stable, bytes: seq<byte>) {
    forall cs :: WellFormedStaged(stable, cs) ==> PrintStaged(cs) != bytes
  }

  /** The parser of `diff-index --cached --raw -z`; `cs` is the record list it accepted. */
  method ParseStaged(stable: Stable, bytes: seq<byte>) returns (r: Option<seq<Change>>, ghost cs: seq<RawChange>)
    ensures r.Some? ==> WellFormedStaged(stable, cs) && PrintStaged(cs) == bytes && r.value == Reported(cs)
    ensures r.None? ==> Unprintable(stable, bytes)
  {
    cs := [];
    if bytes == [] {
      return Some([]), cs;
    }
    if bytes[|bytes| - 1] != NUL {
      BadShape(stable, bytes);
      return None, cs;
    }
    var fields: seq<seq<byte>> := Split<byte>(bytes[..|bytes| - 1], NUL);
    SplitTerminated(bytes, NUL);
    if OddOrLong(fields) {
      BadShape(stable, bytes);
      return None, cs;
    }
    var paths: set<Path> := {};
    var changes: seq<Change> := [];
    for i := 0 to |fields| / 2
      invariant |cs| == i && ValidRaws(stable, cs) && Distinct(Paths(cs))
      invariant Fields(cs) == fields[..2 * i] && changes == Reported(cs)
      invariant paths == SeenPaths(cs)
    {
      var parsed := ParseRaw(stable, fields[2 * i], fields[2 * i + 1]);
      if parsed.None? || parsed.value.path in paths {
        BadRecord(stable, bytes, fields, cs);
        return None, cs;
      }
      var c := parsed.value;
      RawExact(stable, fields[2 * i], fields[2 * i + 1], c);
      GoodRecord(stable, fields, cs, c);
      SnocChange(stable, cs, c);
      paths := paths + {c.path};
      if c.status.Some? {
        changes := changes + [Change(c.path, Present(c.oldMode), Present(c.newMode), c.status.value)];
      }
      cs := cs + [c];
    }
    assert fields[..2 * (|fields| / 2)] == fields;
    return Some(changes), cs;
  }

  lemma {:induction false} SnocChange(stable: Stable, cs: seq<RawChange>, c: RawChange)
    ensures ValidRaws(stable, cs + [c]) <==> ValidRaws(stable, cs) && ValidRaw(stable, c)
    ensures Fields(cs + [c]) == Fields(cs) + [RawHeader(c), c.path]
    ensures Paths(cs + [c]) == Paths(cs) + [c.path]
    ensures SeenPaths(cs + [c]) == SeenPaths(cs) + {c.path}
    ensures Reported(cs + [c]) ==
              if c.status.None? then Reported(cs)
              else Reported(cs) + [Change(c.path, Present(c.oldMode), Present(c.newMode), c.status.value)]
  {
    assert (cs + [c])[..|cs|] == cs;
  }

  lemma {:induction false} GoodRecord(stable: Stable, fields: seq<seq<byte>>, cs: seq<RawChange>, c: RawChange)
    requires 2 * |cs| + 1 < |fields| && Distinct(Paths(cs)) && Fields(cs) == fields[..2 * |cs|]
    requires fields[2 * |cs|] == RawHeader(c) && fields[2 * |cs| + 1] == c.path && c.path !in SeenPaths(cs)
    ensures Fields(cs + [c]) == fields[..2 * (|cs| + 1)] && Distinct(Paths(cs + [c]))
  {
    SeenPathsExact(cs, c.path);
    assert (cs + [c])[..|cs|] == cs;
    NextPair(fields, |cs|);
    assert (Paths(cs) + [c.path])[..|cs|] == Paths(cs);
  }

  lemma {:induction false} NextPair<T>(s: seq<T>, n: nat)
    ensures 2 * n + 1 < |s| ==> s[..2 * (n + 1)] == s[..2 * n] + [s[2 * n], s[2 * n + 1]]
  {
  }

  predicate OddOrLong(fields: seq<seq<byte>>) {
    |fields| % 2 != 0 || |fields| / 2 > MAX_STATUS_RECORDS
  }

  lemma {:induction false} EvenAndShort(cs: seq<RawChange>)
    ensures OddOrLong(Fields(cs)) <==> |cs| > MAX_STATUS_RECORDS
  {
  }

  lemma {:induction false} BadShape(stable: Stable, bytes: seq<byte>)
    requires bytes != []
    requires bytes[|bytes| - 1] != NUL || OddOrLong(Split(bytes[..|bytes| - 1], NUL))
    ensures Unprintable(stable, bytes)
  {
    forall cs | WellFormedStaged(stable, cs) ensures PrintStaged(cs) != bytes {
      if PrintStaged(cs) == bytes {
        PrintedFields(stable, cs, bytes);
        EvenAndShort(cs);
      }
    }
  }

  lemma {:induction false} BadRecord(stable: Stable, bytes: seq<byte>, fields: seq<seq<byte>>, cs: seq<RawChange>)
    requires bytes != [] && bytes[|bytes| - 1] == NUL && fields == Split(bytes[..|bytes| - 1], NUL)
    requires 2 * |cs| + 1 < |fields| && ValidRaws(stable, cs) && Fields(cs) == fields[..2 * |cs|]
    requires var parsed := ParseRaw(stable, fields[2 * |cs|], fields[2 * |cs| + 1]);
             parsed.None? || parsed.value.path in SeenPaths(cs)
    ensures Unprintable(stable, bytes)
  {
    forall ds: seq<RawChange> | WellFormedStaged(stable, ds) ensures PrintStaged(ds) != bytes {
      if PrintStaged(ds) == bytes {
        PrintedFields(stable, ds, bytes);
        NextRaw(stable, cs, ds);
        FieldsAt(ds, |cs|);
        ValidRawAt(stable, ds, |cs|);
        RawComplete(stable, ds[|cs|]);
        SeenPathsExact(cs, ds[|cs|].path);
      }
    }
  }

  lemma {:induction false} NextRaw(stable: Stable, cs: seq<RawChange>, ds: seq<RawChange>)
    requires ValidRaws(stable, cs) && ValidRaws(stable, ds) && Distinct(Paths(ds)) && |cs| < |ds|
    requires Fields(cs) == Fields(ds)[..2 * |cs|]
    ensures ds[|cs|].path !in Paths(cs)
  {
    var n := |cs|;
    assert Fields(cs)[..2 * n] == Fields(cs);
    SameFields(stable, cs, ds, n);
    assert cs[..n] == cs;
    DistinctAt(Paths(ds), n);
    PathsAt(ds, n);
  }
}
