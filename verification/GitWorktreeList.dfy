/** The `git worktree list` parser and its lookup: it normalises what it accepts, and
    after it has accepted a listing at most one record matches a worktree. */
module GitWorktreeList {
  import opened Basics
  import opened Segments
  import opened GitPaths
  import opened GitWorktreeFields

  datatype Record = Record(
    path: Path,
    head: Option<seq<byte>>,
    branch: Option<seq<byte>>,
    detached: bool,
    bare: bool,
    locked: Option<seq<byte>>,
    prunable: Option<seq<byte>>)

  /** The attributes seen so far of the record being read. */
  datatype Draft = Draft(
    path: Option<Path>,
    head: Option<seq<byte>>,
    branch: Option<seq<byte>>,
    detached: bool,
    bare: bool,
    locked: Option<seq<byte>>,
    prunable: Option<seq<byte>>)

  const EMPTY := Draft(None, None, None, false, false, None, None)

  /** An attribute may be given once. */
  predicate Taken(d: Draft, f: Field) {
    match f
    case WorktreeAt(_) => d.path.Some?
    case HeadIs(_) => d.head.Some?
    case OnBranch(_) => d.branch.Some?
    case Detached => d.detached
    case Bare => d.bare
    case Locked(_) => d.locked.Some?
    case Prunable(_) => d.prunable.Some?
  }

  function Put(d: Draft, f: Field): Draft {
    match f
    case WorktreeAt(path) => d.(path := Some(path))
    case HeadIs(commit) => d.(head := Some(commit))
    case OnBranch(name) => d.(branch := Some(name))
    case Detached => d.(detached := true)
    case Bare => d.(bare := true)
    case Locked(reason) => d.(locked := Some(reason))
    case Prunable(reason) => d.(prunable := Some(reason))
  }

  function Absorb(d: Draft, text: seq<byte>): Option<Draft> {
    match ParseField(text)
    case None => None
    case Some(f) => if Taken(d, f) then None else Some(Put(d, f))
  }

  function AbsorbAll(texts: seq<seq<byte>>): Option<Draft> {
    if texts == [] then Some(EMPTY)
    else
      match AbsorbAll(texts[..|texts| - 1])
      case None => None
      case Some(d) => Absorb(d, texts[|texts| - 1])
  }

  /** Bare excludes a commit, a branch and detachment; a branch excludes detachment. */
  predicate Consistent(r: Record) {
    && !(r.branch.Some? && r.detached)
    && !(r.bare && (r.head.Some? || r.branch.Some? || r.detached))
  }

  function Finish(d: Draft): Option<Record> {
    if d.path.None? then None
    else
      var r := Record(d.path.value, d.head, d.branch, d.detached, d.bare, d.locked, d.prunable);
      if Consistent(r) then Some(r) else None
  }

  function RecordOf(texts: seq<seq<byte>>): Option<Record> {
    match AbsorbAll(texts)
    case None => None
    case Some(d) => Finish(d)
  }

  /** The field loop of one record. */
  method ParseRecord(texts: seq<seq<byte>>) returns (r: Option<Record>)
    ensures r == RecordOf(texts)
  {
    var d := EMPTY;
    for i := 0 to |texts|
      invariant AbsorbAll(texts[..i]) == Some(d)
    {
      assert texts[..i + 1][..i] == texts[..i];
      var next := Absorb(d, texts[i]);
      if next.None? {
        AbsorbFailed(texts, i + 1);
        return None;
      }
      d := next.value;
    }
    assert texts[..|texts|] == texts;
    return Finish(d);
  }

  lemma {:induction false} AbsorbFailed(texts: seq<seq<byte>>, n: nat)
    ensures n <= |texts| && AbsorbAll(texts[..n]).None? ==> AbsorbAll(texts).None?
  {
    if n < |texts| {
      assert texts[..|texts| - 1][..n] == texts[..n];
      AbsorbFailed(texts[..|texts| - 1], n);
    } else if n == |texts| {
      assert texts[..n] == texts;
    }
  }

  // ---------- The canonical printing of a record ----------

  predicate ValidRecord(r: Record) {
    && ValidField(WorktreeAt(r.path))
    && (r.head.Some? ==> ValidField(HeadIs(r.head.value)))
    && (r.branch.Some? ==> ValidField(OnBranch(r.branch.value)))
    && (r.locked.Some? ==> ValidField(Locked(r.locked.value)))
    && (r.prunable.Some? ==> ValidField(Prunable(r.prunable.value)))
    && Consistent(r)
  }

  function Fields(r: Record): seq<Field> {
    [WorktreeAt(r.path)]
    + (if r.head.Some? then [HeadIs(r.head.value)] else [])
    + (if r.bare then [Bare] else [])
    + (if r.detached then [Detached] else [])
    + (if r.branch.Some? then [OnBranch(r.branch.value)] else [])
    + (if r.locked.Some? then [Locked(r.locked.value)] else [])
    + (if r.prunable.Some? then [Prunable(r.prunable.value)] else [])
  }

  function Texts(fields: seq<Field>): (texts: seq<seq<byte>>)
    ensures |texts| == |fields|
  {
    if fields == [] then [] else Texts(fields[..|fields| - 1]) + [FieldText(fields[|fields| - 1])]
  }

  function PutAll(fields: seq<Field>): Draft {
    if fields == [] then EMPTY else Put(PutAll(fields[..|fields| - 1]), fields[|fields| - 1])
  }

  /** Valid fields, each given once. */
  predicate Placeable(fields: seq<Field>) {
    fields == []
    || (ValidField(fields[|fields| - 1]) && !Taken(PutAll(fields[..|fields| - 1]), fields[|fields| - 1])
        && Placeable(fields[..|fields| - 1]))
  }

  lemma {:induction false} AbsorbTexts(fields: seq<Field>)
    requires Placeable(fields)
    ensures AbsorbAll(Texts(fields)) == Some(PutAll(fields))
  {
    if fields != [] {
      var f := fields[|fields| - 1];
      AbsorbTexts(fields[..|fields| - 1]);
      FieldRoundTrip(f);
      assert Texts(fields)[..|fields| - 1] == Texts(fields[..|fields| - 1]);
    }
  }

  /** One more optional field. */
  lemma {:induction false} Also(fields: seq<Field>, more: seq<Field>)
    requires Placeable(fields) && |more| <= 1
    requires more != [] ==> ValidField(more[0]) && !Taken(PutAll(fields), more[0])
    ensures Placeable(fields + more)
    ensures PutAll(fields + more) == if more == [] then PutAll(fields) else Put(PutAll(fields), more[0])
  {
    if more == [] {
      assert fields + more == fields;
    } else {
      assert (fields + more)[..|fields|] == fields;
    }
  }

  /** The fields of a valid record can be placed, and give back the record. */
  lemma {:induction false} RecordFields(r: Record)
    requires ValidRecord(r)
    ensures Placeable(Fields(r)) && Finish(PutAll(Fields(r))) == Some(r)
  {
    var m4 := if r.branch.Some? then [OnBranch(r.branch.value)] else [];
    var m5 := if r.locked.Some? then [Locked(r.locked.value)] else [];
    var m6 := if r.prunable.Some? then [Prunable(r.prunable.value)] else [];
    var f3 := FirstFields(r);
    FirstFieldsPlaced(r);
    var f4 := f3 + m4;
    Also(f3, m4);
    var f5 := f4 + m5;
    Also(f4, m5);
    Also(f5, m6);
    assert Fields(r) == f5 + m6;
  }

  function FirstFields(r: Record): seq<Field> {
    [WorktreeAt(r.path)] + (if r.head.Some? then [HeadIs(r.head.value)] else [])
    + (if r.bare then [Bare] else []) + (if r.detached then [Detached] else [])
  }

  lemma {:induction false} FirstFieldsPlaced(r: Record)
    requires ValidRecord(r)
    ensures Placeable(FirstFields(r))
    ensures PutAll(FirstFields(r)) == Draft(Some(r.path), r.head, None, r.detached, r.bare, None, None)
  {
    var f0 := [WorktreeAt(r.path)];
    var m1 := if r.head.Some? then [HeadIs(r.head.value)] else [];
    var m2 := if r.bare then [Bare] else [];
    var m3 := if r.detached then [Detached] else [];
    Also([], f0);
    assert [] + f0 == f0;
    var f1 := f0 + m1;
    Also(f0, m1);
    var f2 := f1 + m2;
    Also(f1, m2);
    Also(f2, m3);
    assert FirstFields(r) == f2 + m3;
  }

  predicate ValidDraft(d: Draft) {
    && (d.path.Some? ==> ValidField(WorktreeAt(d.path.value)))
    && (d.head.Some? ==> ValidField(HeadIs(d.head.value)))
    && (d.branch.Some? ==> ValidField(OnBranch(d.branch.value)))
    && (d.locked.Some? ==> ValidField(Locked(d.locked.value)))
    && (d.prunable.Some? ==> ValidField(Prunable(d.prunable.value)))
  }

  lemma {:induction false} PutValid(d: Draft, f: Field)
    requires ValidDraft(d) && ValidField(f)
    ensures ValidDraft(Put(d, f))
  {
  }

  /** Text without NUL is only accepted as a valid record. */
  lemma {:induction false} AcceptedDraft(texts: seq<seq<byte>>)
    requires AbsorbAll(texts).Some? && Free(texts, NUL)
    ensures ValidDraft(AbsorbAll(texts).value)
  {
    if texts != [] {
      var rest, text := texts[..|texts| - 1], texts[|texts| - 1];
      AcceptedDraft(rest);
      AcceptedField(text);
      PutValid(AbsorbAll(rest).value, ParseField(text).value);
    }
  }

  // ---------- The list ----------

  /** The records completed so far and the fields of the current one. */
  datatype Scan = Scan(records: seq<Record>, fields: seq<seq<byte>>)

  function Step(scan: Scan, piece: seq<byte>): Option<Scan> {
    if piece != [] then Some(Scan(scan.records, scan.fields + [piece]))
    else if scan.fields == [] then None
    else
      match RecordOf(scan.fields)
      case None => None
      case Some(r) => Some(Scan(scan.records + [r], []))
  }

  function ScanAll(pieces: seq<seq<byte>>): Option<Scan> {
    if pieces == [] then Some(Scan([], []))
    else
      match ScanAll(pieces[..|pieces| - 1])
      case None => None
      case Some(scan) => Step(scan, pieces[|pieces| - 1])
  }

  function Paths(records: seq<Record>): set<Path> {
    if records == [] then {} else Paths(records[..|records| - 1]) + {records[|records| - 1].path}
  }

  predicate DistinctPaths(records: seq<Record>) {
    records == []
    || (records[|records| - 1].path !in Paths(records[..|records| - 1]) && DistinctPaths(records[..|records| - 1]))
  }

  predicate EndsTwice(bytes: seq<byte>) {
    |bytes| >= 2 && bytes[|bytes| - 1] == NUL && bytes[|bytes| - 2] == NUL
  }

  function ListOf(bytes: seq<byte>): Option<seq<Record>> {
    if !EndsTwice(bytes) then None
    else
      match ScanAll(Split(bytes[..|bytes| - 1], NUL))
      case None => None
      case Some(scan) =>
        if scan.fields == [] && scan.records != [] && DistinctPaths(scan.records) then Some(scan.records) else None
  }

  /** The parser, with its scan over the pieces and its check for repeated paths. */
  method ParseList(bytes: seq<byte>) returns (r: Option<seq<Record>>)
    ensures r == ListOf(bytes)
  {
    if !EndsTwice(bytes) {
      return None;
    }
    var pieces: seq<seq<byte>> := Split<byte>(bytes[..|bytes| - 1], NUL);
    var records: seq<Record> := [];
    var fields: seq<seq<byte>> := [];
    for i := 0 to |pieces|
      invariant ScanAll(pieces[..i]) == Some(Scan(records, fields))
    {
      ScanNext(pieces, i);
      if pieces[i] == [] {
        if fields == [] {
          return None;
        }
        var record := ParseRecord(fields);
        if record.None? {
          return None;
        }
        records := records + [record.value];
        fields := [];
      } else {
        fields := fields + [pieces[i]];
      }
    }
    assert pieces[..|pieces|] == pieces;
    if fields != [] || records == [] {
      return None;
    }
    var distinct := CheckDistinct(records);
    return if distinct then Some(records) else None;
  }

  /** One more piece; if it cannot be taken, the whole list cannot be read. */
  lemma {:induction false} ScanNext(pieces: seq<seq<byte>>, i: nat)
    requires i < |pieces| && ScanAll(pieces[..i]).Some?
    ensures ScanAll(pieces[..i + 1]) == Step(ScanAll(pieces[..i]).value, pieces[i])
    ensures Step(ScanAll(pieces[..i]).value, pieces[i]).None? ==> ScanAll(pieces).None?
  {
    assert pieces[..i + 1][..i] == pieces[..i];
    ScanFailed(pieces, i + 1);
  }

  lemma {:induction false} ScanFailed(pieces: seq<seq<byte>>, n: nat)
    ensures n <= |pieces| && ScanAll(pieces[..n]).None? ==> ScanAll(pieces).None?
  {
    if n < |pieces| {
      assert pieces[..|pieces| - 1][..n] == pieces[..n];
      ScanFailed(pieces[..|pieces| - 1], n);
    } else if n == |pieces| {
      assert pieces[..n] == pieces;
    }
  }

  method CheckDistinct(records: seq<Record>) returns (distinct: bool)
    ensures distinct == DistinctPaths(records)
  {
    var keys: set<Path> := {};
    for i := 0 to |records|
      invariant keys == Paths(records[..i]) && DistinctPaths(records[..i])
    {
      assert records[..i + 1][..i] == records[..i];
      if records[i].path in keys {
        RepeatedPath(records, i + 1);
        return false;
      }
      keys := keys + {records[i].path};
    }
    assert records[..|records|] == records;
    return true;
  }

  lemma {:induction false} RepeatedPath(records: seq<Record>, n: nat)
    ensures n <= |records| && !DistinctPaths(records[..n]) ==> !DistinctPaths(records)
  {
    if n < |records| {
      assert records[..|records| - 1][..n] == records[..n];
      RepeatedPath(records[..|records| - 1], n);
    } else if n == |records| {
      assert records[..n] == records;
    }
  }

  // ---------- Printing and parsing ----------

  /** The fields of a record and the empty piece that ends it. */
  function Group(r: Record): seq<seq<byte>> {
    Texts(Fields(r)) + [[]]
  }

  function Pieces(records: seq<Record>): seq<seq<byte>> {
    if records == [] then [] else Pieces(records[..|records| - 1]) + Group(records[|records| - 1])
  }

  function PrintList(records: seq<Record>): seq<byte> {
    Terminated(Pieces(records), NUL)
  }

  predicate ValidRecords(records: seq<Record>) {
    records == [] || (ValidRecord(records[|records| - 1]) && ValidRecords(records[..|records| - 1]))
  }

  lemma {:induction false} TextsGood(fields: seq<Field>)
    requires Placeable(fields)
    ensures Free(Texts(fields), NUL) && [] !in Texts(fields)
  {
    if fields != [] {
      TextsGood(fields[..|fields| - 1]);
      FieldRoundTrip(fields[|fields| - 1]);
    }
  }

  /** Nonempty pieces collect as the fields of the current record. */
  lemma {:induction false} ScanTexts(before: seq<seq<byte>>, texts: seq<seq<byte>>, records: seq<Record>)
    requires ScanAll(before) == Some(Scan(records, [])) && [] !in texts
    ensures ScanAll(before + texts) == Some(Scan(records, texts))
  {
    if texts == [] {
      assert before + texts == before;
    } else {
      var rest := texts[..|texts| - 1];
      ScanTexts(before, rest, records);
      assert (before + texts)[..|before + texts| - 1] == before + rest;
      assert texts[|texts| - 1] in texts && rest + [texts[|texts| - 1]] == texts;
    }
  }

  lemma {:induction false} ScanEnd(pieces: seq<seq<byte>>)
    ensures ScanAll(pieces + [[]]) == match ScanAll(pieces) case None => None case Some(scan) => Step(scan, [])
  {
    assert (pieces + [[]])[..|pieces|] == pieces;
  }

  lemma {:induction false} ScanRecord(before: seq<seq<byte>>, records: seq<Record>, r: Record)
    requires ScanAll(before) == Some(Scan(records, [])) && ValidRecord(r)
    ensures ScanAll(before + Group(r)) == Some(Scan(records + [r], []))
  {
    var texts := Texts(Fields(r));
    RecordRoundTrip(r);
    ScanTexts(before, texts, records);
    ScanEnd(before + texts);
    assert before + Group(r) == before + texts + [[]];
  }

  /** The printed fields of a valid record parse to the record; none is empty or has a NUL. */
  lemma {:induction false} RecordRoundTrip(r: Record)
    requires ValidRecord(r)
    ensures RecordOf(Texts(Fields(r))) == Some(r)
    ensures Texts(Fields(r)) != [] && Free(Texts(Fields(r)), NUL) && [] !in Texts(Fields(r))
  {
    RecordFields(r);
    AbsorbTexts(Fields(r));
    TextsGood(Fields(r));
  }

  lemma {:induction false} ScanPieces(records: seq<Record>)
    requires ValidRecords(records)
    ensures ScanAll(Pieces(records)) == Some(Scan(records, []))
  {
    if records != [] {
      var rest, r := records[..|records| - 1], records[|records| - 1];
      ScanPieces(rest);
      ScanRecord(Pieces(rest), rest, r);
      assert rest + [r] == records && Pieces(records) == Pieces(rest) + Group(r);
    }
  }

  lemma {:induction false} PiecesFree(records: seq<Record>)
    requires ValidRecords(records)
    ensures Free(Pieces(records), NUL)
  {
    if records != [] {
      PiecesFree(records[..|records| - 1]);
      RecordRoundTrip(records[|records| - 1]);
    }
  }

  /** Printing any nonempty list of valid records with distinct paths and parsing it gives the list back. */
  lemma {:induction false} ListRoundTrip(records: seq<Record>)
    requires records != [] && ValidRecords(records) && DistinctPaths(records)
    ensures ListOf(PrintList(records)) == Some(records)
  {
    var pieces := Pieces(records);
    ScanPieces(records);
    PiecesFree(records);
    TerminatedUnique(pieces, PrintList(records), NUL);
    TerminatedJoin(pieces, NUL);
    EndsTwiceWhenLastEmpty(pieces);
  }

  lemma {:induction false} EndsTwiceWhenLastEmpty(pieces: seq<seq<byte>>)
    requires |pieces| >= 2 && pieces[|pieces| - 1] == []
    ensures EndsTwice(Terminated(pieces, NUL))
  {
    var front := pieces[..|pieces| - 1];
    assert pieces == front + [[]];
    TerminatedAppend(front, [[]], NUL);
    TerminatedJoin(front, NUL);
    assert Terminated<byte>([[]], NUL) == [NUL];
  }

  lemma {:induction false} ScannedRecords(pieces: seq<seq<byte>>)
    requires ScanAll(pieces).Some? && Free(pieces, NUL)
    ensures ValidRecords(ScanAll(pieces).value.records) && Free(ScanAll(pieces).value.fields, NUL)
  {
    if pieces != [] {
      var scan := ScanAll(pieces[..|pieces| - 1]).value;
      ScannedRecords(pieces[..|pieces| - 1]);
      if pieces[|pieces| - 1] == [] {
        AcceptedDraft(scan.fields);
        assert (scan.records + [RecordOf(scan.fields).value])[..|scan.records|] == scan.records;
      }
    }
  }

  /** Whatever bytes are accepted, the records are valid and consistent and have distinct paths. */
  lemma {:induction false} AcceptedList(bytes: seq<byte>)
    requires ListOf(bytes).Some?
    ensures ListOf(bytes).value != [] && ValidRecords(ListOf(bytes).value) && DistinctPaths(ListOf(bytes).value)
  {
    JoinSplit(bytes[..|bytes| - 1], NUL);
    ScannedRecords(Split(bytes[..|bytes| - 1], NUL));
  }

  /** So printing what was accepted and parsing it again changes nothing. */
  lemma {:induction false} Normalizes(bytes: seq<byte>)
    requires ListOf(bytes).Some?
    ensures ListOf(PrintList(ListOf(bytes).value)) == ListOf(bytes)
  {
    AcceptedList(bytes);
    ListRoundTrip(ListOf(bytes).value);
  }

  // ---------- The lookup ----------

  datatype Lookup = NotListed | Listed | Ambiguous

  function Count(records: seq<Record>, path: Path): nat {
    if records == [] then 0
    else Count(records[..|records| - 1], path) + if records[|records| - 1].path == path then 1 else 0
  }

  /** How often the expected path is listed decides the answer. */
  method LookUp(records: seq<Record>, expected: Path) returns (r: Lookup)
    ensures r == if Count(records, expected) == 0 then NotListed
                 else if Count(records, expected) == 1 then Listed else Ambiguous
  {
    var matches := 0;
    for i := 0 to |records|
      invariant matches == Count(records[..i], expected)
    {
      assert records[..i + 1][..i] == records[..i];
      if records[i].path == expected {
        matches := matches + 1;
      }
    }
    assert records[..|records|] == records;
    return if matches == 0 then NotListed else if matches == 1 then Listed else Ambiguous;
  }

  lemma {:induction false} CountDistinct(records: seq<Record>, path: Path)
    requires DistinctPaths(records)
    ensures Count(records, path) == if path in Paths(records) then 1 else 0
  {
    if records != [] {
      CountDistinct(records[..|records| - 1], path);
    }
  }

  /** After an accepted parse the lookup is never ambiguous: it says whether the path is listed. */
  lemma {:induction false} LookupIsDecided(bytes: seq<byte>, expected: Path)
    requires ListOf(bytes).Some?
    ensures Count(ListOf(bytes).value, expected) <= 1
    ensures Count(ListOf(bytes).value, expected) == 1 <==> expected in Paths(ListOf(bytes).value)
  {
    AcceptedList(bytes);
    CountDistinct(ListOf(bytes).value, expected);
  }

  /** The whole lookup: an error exactly when the listing is malformed, and otherwise whether the
      expected path is among the listed ones. */
  method MetadataLookup(bytes: seq<byte>, expected: Path) returns (r: Option<bool>)
    ensures r.None? <==> ListOf(bytes).None?
    ensures r.Some? ==> (r.value <==> expected in Paths(ListOf(bytes).value))
  {
    var records := ParseList(bytes);
    if records.None? {
      return None;
    }
    var found := LookUp(records.value, expected);
    LookupIsDecided(bytes, expected);
    match found
    case NotListed => return Some(false);
    case Listed => return Some(true);
    case Ambiguous => return None;
  }
}
