/** Finding credentials. */
module Redaction {
  import opened Basics
  import opened Text

  // Positions count characters: every cut the program makes falls between characters, so
  // character positions and byte offsets correspond one to one.

  /** A stretch of the message, from `start` up to but not including `end`. */
  datatype Range = Range(start: nat, end: nat)

  const MARKER: string := "[REDACTED]"

  /** A text to search for. */
  type Marker = s: string | s != [] witness "-"

  /** The markers that are followed by, or part of, the credential itself. */
  datatype ValueMarker = Bearer | Key {
    function Text(): Marker {
      if this.Bearer? then "bearer " else "sk-"
    }
  }

  const VALUE_MARKERS: seq<ValueMarker> := [Bearer, Key]
  const NAMES: seq<Marker> := ["api_key", "api-key", "apikey", "token", "password", "secret"]

  // ---------- Searching ----------

  function AsciiLower(c: char): char {
    if 'A' <= c <= 'Z' then (c as int + 32) as char else c
  }

  /** The marker occurs at a position, ignoring ASCII case. */
  predicate OccursAt(message: string, marker: Marker, i: nat) {
    i + |marker| <= |message| && forall k :: 0 <= k < |marker| ==> AsciiLower(message[i + k]) == marker[k]
  }

  /** The first occurrence at or after a position. */
  function FindFrom(message: string, marker: Marker, i: nat): (r: Option<nat>)
    ensures r.Some? ==> i <= r.value && OccursAt(message, marker, r.value)
    ensures forall j: nat :: i <= j && (r.Some? ==> j < r.value) ==> !OccursAt(message, marker, j)
    decreases |message| - i
  {
    if i + |marker| > |message| then None
    else if OccursAt(message, marker, i) then Some(i)
    else if i < |message| then FindFrom(message, marker, i + 1)
    else None
  }

  /** The first position at or after `i` that is not white space, or the end. */
  function SkipSpace(message: string, i: nat): (r: nat)
    ensures i <= r && (i <= |message| ==> r <= |message|)
    decreases |message| - i
  {
    if i < |message| && IsWhitespace(message[i]) then SkipSpace(message, i + 1) else i
  }

  /** The first position at or after `i` of a closing quote, or None. */
  function FindQuote(message: string, quote: char, i: nat): (r: Option<nat>)
    ensures r.Some? ==> i <= r.value < |message|
    decreases |message| - i
  {
    if i >= |message| then None
    else if message[i] == quote then Some(i)
    else FindQuote(message, quote, i + 1)
  }

  predicate Stops(c: char) {
    IsWhitespace(c) || c == ',' || c == ';' || c == '&'
  }

  function FindStop(message: string, i: nat): (r: nat)
    ensures i <= r && (i <= |message| ==> r <= |message|)
    decreases |message| - i
  {
    if i < |message| && !Stops(message[i]) then FindStop(message, i + 1) else i
  }

  /** A quoted credential ends after its closing quote, any other before the next delimiter. */
  function CredentialEnd(message: string, start: nat): (end: nat)
    ensures start <= end && (start <= |message| ==> end <= |message|)
  {
    if start < |message| && (message[start] == '\'' || message[start] == '"') then
      match FindQuote(message, message[start], start + 1)
      case None => |message|
      case Some(index) => index + 1
    else FindStop(message, start)
  }

  // ---------- Hits ----------

  /** Where the credential after an occurrence of a value marker begins. */
  function ValueStart(marker: ValueMarker, found: nat): nat {
    if marker.Bearer? then found + |marker.Text()| else found
  }

  lemma {:induction false} ValueScanAdvances(message: string, marker: ValueMarker, found: nat)
    requires OccursAt(message, marker.Text(), found)
    ensures ValueStart(marker, found) <= |message|
    ensures found < CredentialEnd(message, ValueStart(marker, found))
  {
    if marker.Key? {
      assert AsciiLower(message[found + 0]) == marker.Text()[0];
      assert !Stops(message[found]);
    }
  }

  /** The hits of one value marker; the search resumes after each credential. */
  function ValueHits(message: string, marker: ValueMarker, offset: nat): seq<Range>
    decreases |message| - offset
  {
    match FindFrom(message, marker.Text(), offset)
    case None => []
    case Some(found) =>
      ValueScanAdvances(message, marker, found);
      var start := ValueStart(marker, found);
      var end := CredentialEnd(message, start);
      [Range(start, end)] + ValueHits(message, marker, end)
  }

  /** The credential after a name: optional space, a separator, optional space, and a value. */
  function NameHit(message: string, after: nat): (r: Option<Range>)
    ensures r.Some? ==> r.value.start < |message| && r.value.end == CredentialEnd(message, r.value.start)
  {
    var separator := SkipSpace(message, after);
    if separator < |message| && (message[separator] == '=' || message[separator] == ':') then
      var start := SkipSpace(message, separator + 1);
      if start < |message| then Some(Range(start, CredentialEnd(message, start))) else None
    else None
  }

  /** What `NameHit` finds after a name, as a function of where the name ends. */
  type Finder = nat -> Option<Range>

  function FinderIn(message: string): Finder {
    (after: nat) => NameHit(message, after)
  }

  function With(hits: seq<Range>, hit: Option<Range>): seq<Range> {
    if hit.Some? then hits + [hit.value] else hits
  }

  /** The hits of one name added to those found before; the search resumes after the name. */
  function NameHits(message: string, marker: Marker, find: Finder, offset: nat, before: seq<Range>): seq<Range>
    decreases |message| - offset
  {
    match FindFrom(message, marker, offset)
    case None => before
    case Some(found) => NameHits(message, marker, find, found + |marker|, With(before, find(found + |marker|)))
  }

  function AllValueHits(message: string, markers: seq<ValueMarker>): seq<Range> {
    if markers == [] then []
    else AllValueHits(message, markers[..|markers| - 1]) + ValueHits(message, markers[|markers| - 1], 0)
  }

  function AllNameHits(message: string, markers: seq<Marker>, before: seq<Range>): seq<Range> {
    if markers == [] then before
    else NameHits(message, markers[|markers| - 1], FinderIn(message), 0, AllNameHits(message, markers[..|markers| - 1], before))
  }

  function Hits(message: string): seq<Range> {
    AllNameHits(message, NAMES, AllValueHits(message, VALUE_MARKERS))
  }

  method ScanValues(message: string, marker: ValueMarker) returns (ranges: seq<Range>)
    ensures ranges == ValueHits(message, marker, 0)
  {
    ranges := [];
    var offset: nat := 0;
    var found := FindFrom(message, marker.Text(), offset);
    while found.Some?
      invariant found == FindFrom(message, marker.Text(), offset)
      invariant ranges + ValueHits(message, marker, offset) == ValueHits(message, marker, 0)
      decreases |message| - offset, found.Some?
    {
      ValueScanAdvances(message, marker, found.value);
      var start := ValueStart(marker, found.value);
      var end := CredentialEnd(message, start);
      ranges := ranges + [Range(start, end)];
      offset := end;
      found := FindFrom(message, marker.Text(), offset);
    }
  }

  method ScanNames(message: string, marker: Marker, find: Finder, before: seq<Range>) returns (ranges: seq<Range>)
    ensures ranges == NameHits(message, marker, find, 0, before)
  {
    ranges := before;
    var offset: nat := 0;
    var found := FindFrom(message, marker, offset);
    while found.Some?
      invariant found == FindFrom(message, marker, offset)
      invariant NameHits(message, marker, find, offset, ranges) == NameHits(message, marker, find, 0, before)
      decreases |message| - offset, found.Some?
    {
      var after := found.value + |marker|;
      ranges := With(ranges, find(after));
      offset := after;
      found := FindFrom(message, marker, offset);
    }
  }

  method CollectValues(message: string, markers: seq<ValueMarker>) returns (ranges: seq<Range>)
    ensures ranges == AllValueHits(message, markers)
  {
    ranges := [];
    for i := 0 to |markers|
      invariant ranges == AllValueHits(message, markers[..i])
    {
      var found := ScanValues(message, markers[i]);
      assert markers[..i + 1][..i] == markers[..i];
      ranges := ranges + found;
    }
    assert markers[..|markers|] == markers;
  }

  method CollectNames(message: string, markers: seq<Marker>, before: seq<Range>) returns (ranges: seq<Range>)
    ensures ranges == AllNameHits(message, markers, before)
  {
    ranges := before;
    for i := 0 to |markers|
      invariant ranges == AllNameHits(message, markers[..i], before)
    {
      ranges := ScanNames(message, markers[i], FinderIn(message), ranges);
      assert markers[..i + 1][..i] == markers[..i];
    }
    assert markers[..|markers|] == markers;
  }

  // ---------- What the hits cover ----------

  /** A marker whose first character occurs nowhere else in it. */
  predicate Leading(marker: Marker) {
    forall k :: 1 <= k < |marker| ==> marker[k] != marker[0]
  }

  /** So are the two value markers and all names. */
  lemma {:induction false} MarkersLead()
    ensures forall n :: 0 <= n < |NAMES| ==> Leading(NAMES[n])
    ensures Leading(Bearer.Text()) && Leading(Key.Text())
  {
  }

  lemma {:induction false} NotInside(message: string, marker: Marker, i: nat, j: nat)
    requires Leading(marker) && OccursAt(message, marker, i) && i < j < i + |marker|
    ensures !OccursAt(message, marker, j)
  {
    assert AsciiLower(message[i + (j - i)]) == marker[j - i];
    assert AsciiLower(message[j + 0]) != marker[0];
  }

  /** Such a marker never overlaps itself, so a search that resumes after it skips no occurrence. */
  lemma {:induction false} NoOverlap(message: string, marker: Marker, i: nat, j: nat)
    requires Leading(marker) && OccursAt(message, marker, i) && OccursAt(message, marker, j) && i < j
    ensures i + |marker| <= j
  {
    if j < i + |marker| {
      NotInside(message, marker, i, j);
    }
  }

  lemma {:induction false} NameHitsKeep(
    message: string, marker: Marker, find: Finder, offset: nat, before: seq<Range>, hit: Range)
    requires hit in before
    ensures hit in NameHits(message, marker, find, offset, before)
    decreases |message| - offset
  {
    var found := FindFrom(message, marker, offset);
    if found.Some? {
      var after := found.value + |marker|;
      var grown := With(before, find(after));
      NameHitsKeep(message, marker, find, after, grown, hit);
    }
  }

  /** Each occurrence of a name with a value has its value among the hits. */
  lemma {:induction false} NamesAreHit(
    message: string, marker: Marker, find: Finder, offset: nat, before: seq<Range>, i: nat)
    requires Leading(marker) && OccursAt(message, marker, i) && offset <= i && find(i + |marker|).Some?
    ensures find(i + |marker|).value in NameHits(message, marker, find, offset, before)
    decreases |message| - offset
  {
    var found := FindFrom(message, marker, offset).value;
    var after := found + |marker|;
    var grown := With(before, find(after));
    if found < i {
      NoOverlap(message, marker, found, i);
      NamesAreHit(message, marker, find, after, grown, i);
    } else {
      NameHitsKeep(message, marker, find, after, grown, find(after).value);
    }
  }

  /** Each occurrence of a value marker starts a hit or lies inside one. */
  ghost predicate ValueCovered(hits: seq<Range>, marker: ValueMarker, i: nat) {
    exists k :: 0 <= k < |hits| && (hits[k].start == ValueStart(marker, i) || hits[k].start <= i < hits[k].end)
  }

  lemma {:induction false} ValuesAreHit(message: string, marker: ValueMarker, offset: nat, i: nat)
    requires OccursAt(message, marker.Text(), i) && offset <= i
    ensures ValueCovered(ValueHits(message, marker, offset), marker, i)
    decreases |message| - offset
  {
    var found := FindFrom(message, marker.Text(), offset).value;
    ValueScanAdvances(message, marker, found);
    var start := ValueStart(marker, found);
    var end := CredentialEnd(message, start);
    var hits := ValueHits(message, marker, offset);
    assert hits[0] == Range(start, end);
    if found < i {
      MarkersLead();
      NoOverlap(message, marker.Text(), found, i);
      if end <= i {
        ValuesAreHit(message, marker, end, i);
        var rest := ValueHits(message, marker, end);
        var k :| 0 <= k < |rest| && (rest[k].start == ValueStart(marker, i) || rest[k].start <= i < rest[k].end);
        assert hits[k + 1] == rest[k];
      }
    }
  }
}
