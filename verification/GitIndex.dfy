/** The strict parser for `git ls-files --stage -z`. It accepts exactly what its printer
    can print from a well-formed list of index records, and gives that list back. */
module GitIndex {
  import opened Basics
  import opened Segments
  import opened GitPaths

  type Stage = s: int | 0 <= s <= 3

  /** One `ls-files --stage` record. */
  datatype Entry = Entry(path: Path, mode: Mode, oid: Oid, stage: Stage)

  predicate ValidEntry(stable: Stable, e: Entry) {
    ValidOid(e.oid) && PathOk(stable, e.path)
  }

  function StageText(stage: Stage): seq<byte> {
    var digit: byte := ZERO + stage;
    [digit]
  }

  function HeaderText(mode: Mode, oid: Oid, stage: Stage): seq<byte> {
    ModeText(mode) + [SPACE] + (oid + [SPACE] + StageText(stage))
  }

  function EntryText(e: Entry): seq<byte> {
    HeaderText(e.mode, e.oid, e.stage) + [TAB] + e.path
  }

  /** Exactly three nonempty fields, a well-formed object id and a stage digit. */
  function ParseHeader(header: seq<byte>): Option<(Mode, Oid, Stage)> {
    var fields: seq<seq<byte>> := Split<byte>(header, SPACE);
    if |fields| != 3 || fields[0] == [] || fields[1] == [] || fields[2] == [] || !ValidOid(fields[1]) then None
    else if |fields[2]| != 1 || !(ZERO <= fields[2][0] <= ZERO + 3) then None
    else
      match ParseMode(fields[0])
      case None => None
      case Some(mode) => Some((mode, fields[1], fields[2][0] - ZERO))
  }

  function ParseEntry(stable: Stable, raw: seq<byte>): Option<Entry> {
    match Cut(raw, TAB)
    case None => None
    case Some((header, path)) =>
      match ParseHeader(header)
      case None => None
      case Some((mode, oid, stage)) => if PathOk(stable, path) then Some(Entry(path, mode, oid, stage)) else None
  }

  lemma {:induction false} JoinThree(a: seq<byte>, b: seq<byte>, c: seq<byte>, sep: byte)
    ensures Join<byte>([a, b, c], sep) == a + [sep] + (b + [sep] + c)
  {
    var three: seq<seq<byte>> := [a, b, c];
    var two: seq<seq<byte>> := [b, c];
    assert three[1..] == two && two[1..] == [c];
    assert Join<byte>(two, sep) == b + [sep] + Join<byte>([c], sep);
  }

  lemma {:induction false} HeaderSound(header: seq<byte>)
    requires ParseHeader(header).Some?
    ensures var (mode, oid, stage) := ParseHeader(header).value;
            ValidOid(oid) && header == HeaderText(mode, oid, stage)
  {
    var fields: seq<seq<byte>> := Split<byte>(header, SPACE);
    JoinSplit(header, SPACE);
    JoinThree(fields[0], fields[1], fields[2], SPACE);
    assert fields == [fields[0], fields[1], fields[2]];
    assert fields[2] == StageText(fields[2][0] - ZERO);
  }

  lemma {:induction false} HeaderComplete(mode: Mode, oid: Oid, stage: Stage)
    requires ValidOid(oid)
    ensures ParseHeader(HeaderText(mode, oid, stage)) == Some((mode, oid, stage))
    ensures TAB !in HeaderText(mode, oid, stage) && NUL !in HeaderText(mode, oid, stage)
  {
    var parts := [ModeText(mode), oid, StageText(stage)];
    JoinThree(parts[0], parts[1], parts[2], SPACE);
    assert SPACE !in parts[0] && SPACE !in parts[1] && SPACE !in parts[2];
    SplitJoin(parts, SPACE);
    ModeRoundTrip(mode);
    assert ParseHeader(HeaderText(mode, oid, stage)).value.2 == stage;
  }

  /** A record parses to an entry exactly when it is that entry's text. */
  lemma {:induction false} EntryExact(stable: Stable, raw: seq<byte>, e: Entry)
    ensures ParseEntry(stable, raw) == Some(e) <==> ValidEntry(stable, e) && raw == EntryText(e)
  {
    if ParseEntry(stable, raw) == Some(e) {
      HeaderSound(Cut(raw, TAB).value.0);
    }
    if ValidEntry(stable, e) && raw == EntryText(e) {
      HeaderComplete(e.mode, e.oid, e.stage);
      CutUnique(HeaderText(e.mode, e.oid, e.stage), TAB, e.path);
    }
  }

  // ---------- Lists of records ----------

  predicate ValidEntries(stable: Stable, es: seq<Entry>) {
    es == [] || (ValidEntries(stable, es[..|es| - 1]) && ValidEntry(stable, es[|es| - 1]))
  }

  lemma {:induction false} ValidAt(stable: Stable, es: seq<Entry>, i: nat)
    requires ValidEntries(stable, es) && i < |es|
    ensures ValidEntry(stable, es[i])
  {
    if i < |es| - 1 {
      ValidAt(stable, es[..|es| - 1], i);
    }
  }

  function Records(es: seq<Entry>): (records: seq<seq<byte>>)
    ensures |records| == |es|
  {
    if es == [] then [] else Records(es[..|es| - 1]) + [EntryText(es[|es| - 1])]
  }

  function PrintIndex(es: seq<Entry>): seq<byte> {
    Terminated(Records(es), NUL)
  }

  function Keys(es: seq<Entry>): set<(Path, Stage)> {
    if es == [] then {} else Keys(es[..|es| - 1]) + {Key(es[|es| - 1])}
  }

  function Key(e: Entry): (Path, Stage) {
    (e.path, e.stage)
  }

  /** No two entries have the same path and stage. */
  predicate DistinctKeys(es: seq<Entry>) {
    es == [] || (Key(es[|es| - 1]) !in Keys(es[..|es| - 1]) && DistinctKeys(es[..|es| - 1]))
  }

  /** A list the index parser can produce. */
  predicate WellFormedIndex(stable: Stable, es: seq<Entry>) {
    ValidEntries(stable, es) && DistinctKeys(es) && |es| <= MAX_STATUS_RECORDS
  }

  lemma {:induction false} RecordAt(es: seq<Entry>, i: nat)
    requires i < |es|
    ensures Records(es)[i] == EntryText(es[i])
  {
    if i < |es| - 1 {
      RecordAt(es[..|es| - 1], i);
    }
  }

  lemma {:induction false} RecordsFree(stable: Stable, es: seq<Entry>)
    requires ValidEntries(stable, es)
    ensures Free(Records(es), NUL)
  {
    forall i | 0 <= i < |es| ensures NUL !in Records(es)[i] {
      RecordAt(es, i);
      ValidAt(stable, es, i);
      HeaderComplete(es[i].mode, es[i].oid, es[i].stage);
    }
  }

  /** Whatever list prints to these bytes, its records are the pieces of the bytes. */
  lemma {:induction false} PrintedRecords(stable: Stable, es: seq<Entry>, bytes: seq<byte>)
    requires ValidEntries(stable, es) && PrintIndex(es) == bytes
    ensures es == [] <==> bytes == []
    ensures bytes != [] ==> bytes[|bytes| - 1] == NUL && Split(bytes[..|bytes| - 1], NUL) == Records(es)
  {
    if es != [] {
      RecordsFree(stable, es);
      TerminatedUnique(Records(es), bytes, NUL);
    }
  }

  /** Equal records are texts of equal entries. */
  lemma {:induction false} SameRecords(stable: Stable, es: seq<Entry>, fs: seq<Entry>, n: nat)
    requires ValidEntries(stable, es) && ValidEntries(stable, fs) && n <= |es| && n <= |fs|
    requires Records(es)[..n] == Records(fs)[..n]
    ensures es[..n] == fs[..n]
  {
    forall i | 0 <= i < n ensures es[i] == fs[i] {
      assert Records(es)[i] == Records(es)[..n][i] && Records(fs)[i] == Records(fs)[..n][i];
      RecordAt(es, i);
      RecordAt(fs, i);
      ValidAt(stable, es, i);
      ValidAt(stable, fs, i);
      EntryExact(stable, EntryText(es[i]), es[i]);
      EntryExact(stable, EntryText(fs[i]), fs[i]);
    }
  }

  /** Printing loses nothing: no two valid lists have the same text. */
  lemma {:induction false} PrintIndexInjective(stable: Stable, es: seq<Entry>, fs: seq<Entry>)
    requires ValidEntries(stable, es) && ValidEntries(stable, fs) && PrintIndex(es) == PrintIndex(fs)
    ensures es == fs
  {
    PrintedRecords(stable, es, PrintIndex(es));
    PrintedRecords(stable, fs, PrintIndex(fs));
    if es != [] {
      SameRecords(stable, es, fs, |es|);
      assert es[..|es|] == es && fs[..|fs|] == fs;
    }
  }

  lemma {:induction false} OnlyPrinting(stable: Stable, entries: seq<Entry>, bytes: seq<byte>)
    requires WellFormedIndex(stable, entries) && PrintIndex(entries) == bytes
    ensures forall es :: WellFormedIndex(stable, es) && PrintIndex(es) == bytes ==> es == entries
  {
    forall es | WellFormedIndex(stable, es) && PrintIndex(es) == bytes ensures es == entries {
      PrintIndexInjective(stable, es, entries);
    }
  }

  /** Strict parser for `ls-files --stage -z`: the inverse of `PrintIndex` on well-formed lists,
      and a refusal of everything else. */
  method ParseIndexStage(stable: Stable, bytes: seq<byte>) returns (r: Option<seq<Entry>>)
    ensures r.Some? ==> WellFormedIndex(stable, r.value) && PrintIndex(r.value) == bytes
    ensures forall es :: WellFormedIndex(stable, es) && PrintIndex(es) == bytes ==> r == Some(es)
  {
    if bytes == [] {
      OnlyPrinting(stable, [], bytes);
      return Some([]);
    }
    if bytes[|bytes| - 1] != NUL {
      Unterminated(stable, bytes);
      return None;
    }
    var raws := Split(bytes[..|bytes| - 1], NUL);
    SplitTerminated(bytes, NUL);
    var entries: seq<Entry> := [];
    var seen: set<(Path, Stage)> := {};
    for i := 0 to |raws|
      invariant |entries| == i && WellFormedIndex(stable, entries)
      invariant Records(entries) == raws[..i] && seen == Keys(entries)
    {
      var parsed := ParseEntry(stable, raws[i]);
      if parsed.None? || Key(parsed.value) in seen || |entries| == MAX_STATUS_RECORDS {
        Rejected(stable, bytes, raws, entries);
        return None;
      }
      EntryExact(stable, raws[i], parsed.value);
      AcceptedRecord(stable, raws, entries, parsed.value);
      SnocEntry(entries, parsed.value);
      seen := seen + {Key(parsed.value)};
      entries := entries + [parsed.value];
    }
    assert raws[..|raws|] == raws;
    OnlyPrinting(stable, entries, bytes);
    return Some(entries);
  }

  /** In a list without repeated keys, no entry's key occurs before it. */
  lemma {:induction false} KeyIsNew(es: seq<Entry>, n: nat)
    requires DistinctKeys(es) && n < |es|
    ensures Key(es[n]) !in Keys(es[..n])
  {
    if n < |es| - 1 {
      KeyIsNew(es[..|es| - 1], n);
      assert es[..|es| - 1][..n] == es[..n];
    }
  }

  /** If the next record is no entry, repeats a key or is one too many, no list prints to the bytes. */
  lemma {:induction false} Rejected(stable: Stable, bytes: seq<byte>, raws: seq<seq<byte>>, entries: seq<Entry>)
    requires bytes != [] && bytes[|bytes| - 1] == NUL && raws == Split(bytes[..|bytes| - 1], NUL)
    requires |entries| < |raws| && ValidEntries(stable, entries) && Records(entries) == raws[..|entries|]
    requires var parsed := ParseEntry(stable, raws[|entries|]);
             parsed.None? || |entries| == MAX_STATUS_RECORDS || Key(parsed.value) in Keys(entries)
    ensures forall es :: WellFormedIndex(stable, es) ==> PrintIndex(es) != bytes
  {
    forall es | WellFormedIndex(stable, es) ensures PrintIndex(es) != bytes {
      if PrintIndex(es) == bytes {
        PrintedRecords(stable, es, bytes);
        NextRecord(stable, entries, es);
        ValidAt(stable, es, |entries|);
        EntryExact(stable, raws[|entries|], es[|entries|]);
        KeyIsNew(es, |entries|);
      }
    }
  }

  lemma {:induction false} Unterminated(stable: Stable, bytes: seq<byte>)
    requires bytes != [] && bytes[|bytes| - 1] != NUL
    ensures forall es :: WellFormedIndex(stable, es) ==> PrintIndex(es) != bytes
  {
    forall es | WellFormedIndex(stable, es) ensures PrintIndex(es) != bytes {
      if PrintIndex(es) == bytes {
        PrintedRecords(stable, es, bytes);
      }
    }
  }

  lemma {:induction false} SnocEntry(entries: seq<Entry>, e: Entry)
    ensures Records(entries + [e]) == Records(entries) + [EntryText(e)]
    ensures Keys(entries + [e]) == Keys(entries) + {Key(e)}
    ensures DistinctKeys(entries + [e]) <==> DistinctKeys(entries) && Key(e) !in Keys(entries)
  {
    assert (entries + [e])[..|entries|] == entries;
  }

  lemma {:induction false} AcceptedRecord(stable: Stable, raws: seq<seq<byte>>, entries: seq<Entry>, e: Entry)
    requires |entries| < |raws| && ValidEntries(stable, entries) && DistinctKeys(entries) && Records(entries) == raws[..|entries|]
    requires ValidEntry(stable, e) && raws[|entries|] == EntryText(e)
    requires Key(e) !in Keys(entries) && |entries| < MAX_STATUS_RECORDS
    ensures WellFormedIndex(stable, entries + [e]) && Records(entries + [e]) == raws[..|entries| + 1]
  {
    SnocEntry(entries, e);
    NextSlice(raws, |entries|);
    assert (entries + [e])[..|entries|] == entries;
  }

  lemma {:induction false} NextSlice<T>(s: seq<T>, n: nat)
    ensures n < |s| ==> s[..n + 1] == s[..n] + [s[n]]
  {
  }

  lemma {:induction false} NextRecord(stable: Stable, entries: seq<Entry>, es: seq<Entry>)
    requires |entries| < |es| && ValidEntries(stable, entries) && ValidEntries(stable, es)
    requires Records(entries) == Records(es)[..|entries|]
    ensures Records(es)[|entries|] == EntryText(es[|entries|]) && es[..|entries|] == entries
  {
    var n := |entries|;
    RecordAt(es, n);
    assert Records(entries)[..n] == Records(entries);
    SameRecords(stable, entries, es, n);
    assert entries[..n] == entries;
  }
}
