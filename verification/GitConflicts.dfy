/** The unmerged stage set. */
module GitConflicts {
  import opened Basics
  import opened Segments
  import opened GitPaths
  import opened GitIndex

  datatype ConflictKind =
    BothDeleted | AddedByUs | DeletedByThem | AddedByThem | DeletedByUs | BothAdded | BothModified

  /** The modes recorded for stages 1, 2 and 3 of one path. */
  datatype Stages = Stages(base: Option<Mode>, ours: Option<Mode>, theirs: Option<Mode>)

  datatype Unmerged = Unmerged(path: Path, conflict: ConflictKind, headMode: Option<Mode>, indexMode: Option<Mode>)

  type StageTable = map<Path, Stages>

  /** The stages of an unmerged path. */
  type ConflictStage = s: int | 1 <= s <= 3 witness 1

  function Slot(stages: Stages, stage: ConflictStage): Option<Mode> {
    if stage == 1 then stages.base else if stage == 2 then stages.ours else stages.theirs
  }

  function WithSlot(stages: Stages, stage: ConflictStage, mode: Mode): Stages {
    if stage == 1 then stages.(base := Some(mode))
    else if stage == 2 then stages.(ours := Some(mode))
    else stages.(theirs := Some(mode))
  }

  function StagesOf(table: StageTable, path: Path): Stages {
    if path in table then table[path] else Stages(None, None, None)
  }

  predicate Conflicted(es: seq<Entry>) {
    es == [] || (es[|es| - 1].stage >= 1 && Conflicted(es[..|es| - 1]))
  }

  function Enter(table: StageTable, e: Entry): StageTable {
    if e.stage == 0 then table else table[e.path := WithSlot(StagesOf(table, e.path), e.stage, e.mode)]
  }

  /** The stage map after the records in order; well-formed lists never fill a slot twice. */
  function Collect(es: seq<Entry>): StageTable {
    if es == [] then map[] else Enter(Collect(es[..|es| - 1]), es[|es| - 1])
  }

  /** A slot is filled exactly by the entry with that path and stage. */
  lemma {:induction false} SlotExact(es: seq<Entry>, path: Path, stage: ConflictStage)
    requires DistinctKeys(es)
    ensures Slot(StagesOf(Collect(es), path), stage).Some? <==> (path, stage) in Keys(es)
    ensures forall i: nat :: i < |es| && Key(es[i]) == (path, stage) ==>
              Slot(StagesOf(Collect(es), path), stage) == Some(es[i].mode)
    ensures path in Collect(es) ==> Collect(es)[path] != Stages(None, None, None)
  {
    if es != [] {
      var rest := es[..|es| - 1];
      SlotExact(rest, path, stage);
      forall i: nat | i < |es| && Key(es[i]) == (path, stage)
        ensures Slot(StagesOf(Collect(es), path), stage) == Some(es[i].mode)
      {
        if i < |rest| {
          KeyIn(rest, i);
          assert rest[i] == es[i];
        }
      }
    }
  }

  lemma {:induction false} KeyIn(es: seq<Entry>, i: nat)
    requires i < |es|
    ensures Key(es[i]) in Keys(es)
  {
    if i < |es| - 1 {
      KeyIn(es[..|es| - 1], i);
    }
  }

  function Classify(stages: Stages): Option<ConflictKind> {
    match (stages.base.Some?, stages.ours.Some?, stages.theirs.Some?)
    case (true, false, false) => Some(BothDeleted)
    case (false, true, false) => Some(AddedByUs)
    case (true, false, true) => Some(DeletedByThem)
    case (false, false, true) => Some(AddedByThem)
    case (true, true, false) => Some(DeletedByUs)
    case (false, true, true) => Some(BothAdded)
    case (true, true, true) => Some(BothModified)
    case (false, false, false) => None
  }

  /** The table of git-status(1): what became of the base version on each side. */
  function Documented(stages: Stages): Option<ConflictKind> {
    if stages.base.Some? then
      if stages.ours.Some? && stages.theirs.Some? then Some(BothModified)
      else if stages.ours.Some? then Some(DeletedByThem)
      else if stages.theirs.Some? then Some(DeletedByUs)
      else Some(BothDeleted)
    else if stages.ours.Some? && stages.theirs.Some? then Some(BothAdded)
    else if stages.ours.Some? then Some(AddedByUs)
    else if stages.theirs.Some? then Some(AddedByThem)
    else None
  }

  /** The program's names are git's except for a file that one side deleted: there it names the other side. */
  lemma {:induction false} NamesOtherSide(stages: Stages)
    ensures Classify(stages) == Documented(stages) <==> !(stages.base.Some? && stages.ours.Some? != stages.theirs.Some?)
    ensures Classify(stages) != Documented(stages) ==>
              Classify(stages) == Documented(Stages(stages.base, stages.theirs, stages.ours))
  {
  }

  function Or<T>(first: Option<T>, second: Option<T>): Option<T> {
    if first.Some? then first else second
  }

  /** What is reported for a path; a path without any stage would be an error. */
  function Describe(path: Path, stages: Stages): (u: Option<Unmerged>)
    ensures u.None? <==> stages == Stages(None, None, None)
    ensures u.Some? ==>
              && u.value.path == path && u.value.headMode == stages.base
              && (u.value.indexMode.Some? <==> stages.ours.Some? || stages.theirs.Some?)
  {
    match Classify(stages)
    case None => None
    case Some(kind) => Some(Unmerged(path, kind, stages.base, Or(stages.ours, stages.theirs)))
  }

  /** No path of the table lacks all three stages. */
  ghost predicate NoEmptyStages(table: StageTable) {
    forall path :: path in table ==> table[path] != Stages(None, None, None)
  }

  lemma {:induction false} CollectedStages(es: seq<Entry>)
    ensures DistinctKeys(es) ==> NoEmptyStages(Collect(es))
  {
    if DistinctKeys(es) {
      forall path | path in Collect(es) ensures Collect(es)[path] != Stages(None, None, None) {
        SlotExact(es, path, 1);
      }
    }
  }

  /** The list holds each path of the table once, in whatever order. */
  ghost predicate ListsTable(list: seq<Unmerged>, table: StageTable) {
    PathSet(list) == table.Keys && |list| == |table| && AllDescribed(list, table)
  }

  ghost predicate AllDescribed(list: seq<Unmerged>, table: StageTable) {
    list == [] || (Described(list[|list| - 1], table) && AllDescribed(list[..|list| - 1], table))
  }

  predicate Described(u: Unmerged, table: StageTable) {
    u.path in table && Describe(u.path, table[u.path]) == Some(u)
  }

  function PathSet(list: seq<Unmerged>): set<Path> {
    if list == [] then {} else PathSet(list[..|list| - 1]) + {list[|list| - 1].path}
  }

  ghost predicate WellFormedUnmerged(stable: Stable, es: seq<Entry>) {
    ValidEntries(stable, es) && DistinctKeys(es) && Conflicted(es) && |Collect(es)| <= MAX_STATUS_RECORDS
  }

  /** The parser of `ls-files --unmerged -z`; `es` is the record list it accepted. */
  method ParseUnmerged(stable: Stable, bytes: seq<byte>) returns (r: Option<seq<Unmerged>>, ghost es: seq<Entry>)
    ensures r.Some? ==> WellFormedUnmerged(stable, es) && PrintIndex(es) == bytes
    ensures r.Some? ==> ListsTable(r.value, Collect(es))
    ensures r.None? ==> forall fs :: WellFormedUnmerged(stable, fs) ==> PrintIndex(fs) != bytes
  {
    es := [];
    if bytes == [] {
      return Some([]), es;
    }
    if bytes[|bytes| - 1] != NUL {
      NotTerminated(stable, bytes);
      return None, es;
    }
    var raws: seq<seq<byte>> := Split<byte>(bytes[..|bytes| - 1], NUL);
    SplitTerminated(bytes, NUL);
    var table: StageTable := map[];
    for i := 0 to |raws|
      invariant |es| == i && WellFormedUnmerged(stable, es)
      invariant Records(es) == raws[..i] && table == Collect(es)
    {
      var parsed := ParseEntry(stable, raws[i]);
      if parsed.None? || parsed.value.stage == 0 {
        Refused(stable, bytes, raws, es);
        return None, es;
      }
      var e := parsed.value;
      NextConflict(stable, bytes, raws, es, e);
      var stages := StagesOf(table, e.path);
      table := Enter(table, e);
      if Slot(stages, e.stage).Some? || |table| > MAX_STATUS_RECORDS {
        return None, es;
      }
      es := es + [e];
    }
    assert raws[..|raws|] == raws;
    CollectedStages(es);
    r := ListConflicts(table);
  }

  lemma {:induction false} NotTerminated(stable: Stable, bytes: seq<byte>)
    requires bytes != [] && bytes[|bytes| - 1] != NUL
    ensures forall fs :: WellFormedUnmerged(stable, fs) ==> PrintIndex(fs) != bytes
  {
    forall fs | WellFormedUnmerged(stable, fs) ensures PrintIndex(fs) != bytes {
      if PrintIndex(fs) == bytes {
        PrintedRecords(stable, fs, bytes);
      }
    }
  }

  lemma {:induction false} SnocConflict(es: seq<Entry>, e: Entry)
    ensures Conflicted(es + [e]) <==> Conflicted(es) && e.stage >= 1
    ensures Collect(es + [e]) == Enter(Collect(es), e)
  {
    assert (es + [e])[..|es|] == es;
  }

  lemma {:induction false} ExtendAccepted(stable: Stable, raws: seq<seq<byte>>, es: seq<Entry>, e: Entry)
    requires |es| < |raws| && ValidEntries(stable, es) && DistinctKeys(es) && Records(es) == raws[..|es|]
    requires ValidEntry(stable, e) && raws[|es|] == EntryText(e) && Key(e) !in Keys(es)
    ensures ValidEntries(stable, es + [e]) && DistinctKeys(es + [e]) && Records(es + [e]) == raws[..|es| + 1]
  {
    SnocEntry(es, e);
    NextSlice(raws, |es|);
    assert (es + [e])[..|es|] == es;
  }

  /** The next record is refused if its slot is filled or it makes too many paths, and joins the others if not. */
  lemma {:induction false} NextConflict(stable: Stable, bytes: seq<byte>, raws: seq<seq<byte>>, es: seq<Entry>, e: Entry)
    requires bytes != [] && bytes[|bytes| - 1] == NUL && raws == Split(bytes[..|bytes| - 1], NUL)
    requires |es| < |raws| && WellFormedUnmerged(stable, es) && Records(es) == raws[..|es|]
    requires ParseEntry(stable, raws[|es|]) == Some(e) && e.stage >= 1
    ensures var table := Enter(Collect(es), e);
            if Slot(StagesOf(Collect(es), e.path), e.stage).Some? || |table| > MAX_STATUS_RECORDS then
              forall fs :: WellFormedUnmerged(stable, fs) ==> PrintIndex(fs) != bytes
            else
              WellFormedUnmerged(stable, es + [e]) && Records(es + [e]) == raws[..|es| + 1] && table == Collect(es + [e])
  {
    EntryExact(stable, raws[|es|], e);
    SlotExact(es, e.path, e.stage);
    SnocConflict(es, e);
    if Slot(StagesOf(Collect(es), e.path), e.stage).Some? || |Enter(Collect(es), e)| > MAX_STATUS_RECORDS {
      Refused(stable, bytes, raws, es);
    } else {
      ExtendAccepted(stable, raws, es, e);
    }
  }

  /** One more record never makes the table smaller. */
  lemma {:induction false} CollectGrows(es: seq<Entry>, n: nat)
    requires n <= |es|
    ensures |Collect(es[..n])| <= |Collect(es)|
  {
    if n < |es| {
      var rest := es[..|es| - 1];
      CollectGrows(rest, n);
      assert rest[..n] == es[..n];
      var e := es[|es| - 1];
      assert Collect(es).Keys == Collect(rest).Keys + if e.stage == 0 then {} else {e.path};
    } else {
      assert es[..n] == es;
    }
  }

  lemma {:induction false} ConflictedAt(es: seq<Entry>, i: nat)
    requires Conflicted(es) && i < |es|
    ensures es[i].stage >= 1
  {
    if i < |es| - 1 {
      ConflictedAt(es[..|es| - 1], i);
    }
  }

  /** If the next record is no conflict entry, repeats a slot or makes too many paths, nothing prints to the bytes. */
  lemma {:induction false} Refused(stable: Stable, bytes: seq<byte>, raws: seq<seq<byte>>, es: seq<Entry>)
    requires bytes != [] && bytes[|bytes| - 1] == NUL && raws == Split(bytes[..|bytes| - 1], NUL)
    requires |es| < |raws| && ValidEntries(stable, es) && Conflicted(es) && DistinctKeys(es) && Records(es) == raws[..|es|]
    requires var parsed := ParseEntry(stable, raws[|es|]);
             || parsed.None? || parsed.value.stage == 0
             || Key(parsed.value) in Keys(es)
             || |Collect(es + [parsed.value])| > MAX_STATUS_RECORDS
    ensures forall fs :: WellFormedUnmerged(stable, fs) ==> PrintIndex(fs) != bytes
  {
    forall fs | WellFormedUnmerged(stable, fs) ensures PrintIndex(fs) != bytes {
      if PrintIndex(fs) == bytes {
        var n := |es|;
        PrintedRecords(stable, fs, bytes);
        NextRecord(stable, es, fs);
        ValidAt(stable, fs, n);
        EntryExact(stable, raws[n], fs[n]);
        ConflictedAt(fs, n);
        KeyIsNew(fs, n);
        CollectGrows(fs, n + 1);
        NextSlice(fs, n);
      }
    }
  }

  /** The map is walked in an arbitrary order. */
  method ListConflicts(table: StageTable) returns (r: Option<seq<Unmerged>>)
    ensures r.Some? <==> NoEmptyStages(table)
    ensures r.Some? ==> ListsTable(r.value, table)
  {
    var list: seq<Unmerged> := [];
    var rest := table.Keys;
    while rest != {}
      invariant rest <= table.Keys && PathSet(list) == table.Keys - rest && |list| + |rest| == |table|
      invariant AllDescribed(list, table)
      invariant forall path :: path in table && path !in rest ==> table[path] != Stages(None, None, None)
      decreases |rest|
    {
      var path :| path in rest;
      var u := Describe(path, table[path]);
      if u.None? {
        return None;
      }
      ListedNext(list, rest, table, u.value);
      list := list + [u.value];
      rest := rest - {path};
    }
    return Some(list);
  }

  lemma {:induction false} ListedNext(list: seq<Unmerged>, rest: set<Path>, table: StageTable, u: Unmerged)
    requires u.path in rest && rest <= table.Keys && Described(u, table)
    requires PathSet(list) == table.Keys - rest && AllDescribed(list, table)
    ensures PathSet(list + [u]) == table.Keys - (rest - {u.path}) && AllDescribed(list + [u], table)
  {
    assert (list + [u])[..|list|] == list;
  }
}
