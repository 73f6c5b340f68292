/** Replacing the hits, and bounding the result. */
module Masking {
  import opened Basics
  import opened Text
  import opened Utf8
  import opened Redaction

  // ---------- Sorting the hits ----------

  predicate Before(a: Range, b: Range) {
    a.start < b.start || (a.start == b.start && a.end < b.end)
  }

  predicate StrictlySorted(ranges: seq<Range>) {
    |ranges| <= 1 || (Before(ranges[0], ranges[1]) && StrictlySorted(ranges[1..]))
  }

  /** Insertion that drops a duplicate. */
  function Insert(r: Range, ranges: seq<Range>): seq<Range> {
    if ranges == [] || Before(r, ranges[0]) then [r] + ranges
    else if r == ranges[0] then ranges
    else [ranges[0]] + Insert(r, ranges[1..])
  }

  /** The ranges in order and without duplicates. */
  function SortDedup(ranges: seq<Range>): seq<Range> {
    if ranges == [] then [] else Insert(ranges[|ranges| - 1], SortDedup(ranges[..|ranges| - 1]))
  }

  lemma {:induction false} InsertSorted(r: Range, ranges: seq<Range>)
    requires StrictlySorted(ranges)
    ensures StrictlySorted(Insert(r, ranges)) && Insert(r, ranges) != []
    ensures Insert(r, ranges)[0] == r || (ranges != [] && Insert(r, ranges)[0] == ranges[0])
    ensures forall x :: x in Insert(r, ranges) <==> x == r || x in ranges
  {
    if ranges != [] && !Before(r, ranges[0]) && r != ranges[0] {
      InsertSorted(r, ranges[1..]);
      assert Insert(r, ranges)[1..] == Insert(r, ranges[1..]);
      assert ranges == [ranges[0]] + ranges[1..];
    } else if ranges == [] || Before(r, ranges[0]) {
      assert Insert(r, ranges)[1..] == ranges;
    }
  }

  /** The sorted list is strictly sorted and has the same members: which list that is does not depend on the order. */
  lemma {:induction false} SortDedupExact(ranges: seq<Range>)
    ensures StrictlySorted(SortDedup(ranges))
    ensures forall x :: x in SortDedup(ranges) <==> x in ranges
  {
    if ranges != [] {
      var rest := ranges[..|ranges| - 1];
      SortDedupExact(rest);
      InsertSorted(ranges[|ranges| - 1], SortDedup(rest));
      assert ranges == rest + [ranges[|ranges| - 1]];
    }
  }

  lemma {:induction false} HeadIsLeast(ranges: seq<Range>, i: nat)
    requires StrictlySorted(ranges) && i < |ranges|
    ensures ranges[0].start <= ranges[i].start
  {
    if i > 0 {
      HeadIsLeast(ranges[1..], i - 1);
    }
  }

  // ---------- Choosing and replacing ----------

  /** The ranges that are replaced: each that does not start inside the one before. */
  function Chosen(ranges: seq<Range>, cursor: nat): seq<Range> {
    if ranges == [] then []
    else if ranges[0].start < cursor then Chosen(ranges[1..], cursor)
    else [ranges[0]] + Chosen(ranges[1..], ranges[0].end)
  }

  /** The characters between two positions, if they are in order. */
  function Slice(message: string, from: nat, to: nat): string {
    if from <= to <= |message| then message[from..to] else ""
  }

  /** The text from `cursor` on with the chosen ranges replaced and everything else kept in order. */
  function Masked(message: string, chosen: seq<Range>, cursor: nat): string {
    if chosen == [] then Slice(message, cursor, |message|)
    else Slice(message, cursor, chosen[0].start) + MARKER + Masked(message, chosen[1..], chosen[0].end)
  }

  /** Ranges in order, none starting before the end of the one before, all inside the message. */
  predicate Disjoint(chosen: seq<Range>, cursor: nat, length: nat) {
    cursor <= length
    && (chosen == []
        || (cursor <= chosen[0].start <= chosen[0].end <= length && Disjoint(chosen[1..], chosen[0].end, length)))
  }

  predicate Within(ranges: seq<Range>, length: nat) {
    forall i :: 0 <= i < |ranges| ==> ranges[i].start <= ranges[i].end <= length
  }

  lemma {:induction false} ChosenDisjoint(ranges: seq<Range>, cursor: nat, length: nat)
    requires Within(ranges, length) && cursor <= length
    ensures Disjoint(Chosen(ranges, cursor), cursor, length)
  {
    if ranges != [] {
      ChosenDisjoint(ranges[1..], cursor, length);
      ChosenDisjoint(ranges[1..], ranges[0].end, length);
      var chosen := Chosen(ranges, cursor);
      if ranges[0].start >= cursor {
        assert chosen[1..] == Chosen(ranges[1..], ranges[0].end);
      }
    }
  }

  /** The replacement loop from a given state. */
  function Mask(message: string, ranges: seq<Range>, cursor: nat, result: string): string {
    if ranges == [] then result + Slice(message, cursor, |message|)
    else if ranges[0].start < cursor then Mask(message, ranges[1..], cursor, result)
    else Mask(message, ranges[1..], ranges[0].end, result + Slice(message, cursor, ranges[0].start) + MARKER)
  }

  /** The loop replaces exactly the chosen ranges. */
  lemma {:induction false} MaskIsMasked(message: string, ranges: seq<Range>, cursor: nat, result: string)
    ensures Mask(message, ranges, cursor, result) == result + Masked(message, Chosen(ranges, cursor), cursor)
  {
    if ranges != [] {
      var r := ranges[0];
      if r.start < cursor {
        MaskIsMasked(message, ranges[1..], cursor, result);
      } else {
        var kept := Slice(message, cursor, r.start);
        MaskIsMasked(message, ranges[1..], r.end, result + kept + MARKER);
        var rest := Chosen(ranges[1..], r.end);
        assert Chosen(ranges, cursor)[1..] == rest;
        assert result + kept + MARKER + Masked(message, rest, r.end)
            == result + (kept + MARKER + Masked(message, rest, r.end));
      }
    }
  }

  method MaskRanges(message: string, ranges: seq<Range>) returns (result: string)
    requires Within(ranges, |message|)
    ensures result == Mask(message, ranges, 0, "")
  {
    result := "";
    var cursor: nat := 0;
    for i := 0 to |ranges|
      invariant cursor <= |message|
      invariant Mask(message, ranges[i..], cursor, result) == Mask(message, ranges, 0, "")
    {
      var r := ranges[i];
      assert ranges[i..][1..] == ranges[i + 1..];
      if r.start < cursor {
        continue;
      }
      result := result + message[cursor..r.start] + MARKER;
      cursor := r.end;
    }
    result := result + message[cursor..];
  }

  // ---------- What is covered ----------

  /** A range is replaced itself, or starts inside a replaced one. */
  ghost predicate Touched(chosen: seq<Range>, r: Range) {
    exists k :: 0 <= k < |chosen| && (chosen[k] == r || chosen[k].start <= r.start < chosen[k].end)
  }

  /** No collected range escapes: each is replaced or starts inside one that is. */
  lemma {:induction false} EveryHitTouched(ranges: seq<Range>, cursor: nat, i: nat)
    requires StrictlySorted(ranges) && i < |ranges|
    ensures Touched(Chosen(ranges, cursor), ranges[i]) || ranges[i].start < cursor
  {
    var chosen := Chosen(ranges, cursor);
    if ranges[0].start < cursor {
      if i > 0 {
        EveryHitTouched(ranges[1..], cursor, i - 1);
      }
    } else if i == 0 {
      assert chosen[0] == ranges[0];
    } else {
      HeadIsLeast(ranges, i);
      EveryHitTouched(ranges[1..], ranges[0].end, i - 1);
      var rest := Chosen(ranges[1..], ranges[0].end);
      if Touched(rest, ranges[i]) {
        var k :| 0 <= k < |rest| && (rest[k] == ranges[i] || rest[k].start <= ranges[i].start < rest[k].end);
        assert chosen[k + 1] == rest[k];
      } else {
        assert chosen[0].start <= ranges[i].start < chosen[0].end;
      }
    }
  }

  // ---------- The whole redaction ----------

  /** The message with the chosen hits replaced. */
  function Redacted(message: string): string {
    Mask(message, SortDedup(Hits(message)), 0, "")
  }

  /** What every hit is: it ends where its credential ends, and it starts with the key marker itself
      or right after white space or a separator. */
  predicate Credential(message: string, r: Range) {
    && r.start <= |message| && r.end == CredentialEnd(message, r.start)
    && (StartsKey(message, r) || FollowsSpace(message, r.start))
  }

  predicate StartsKey(message: string, r: Range) {
    r.start < r.end && r.start < |message| && (message[r.start] == 's' || message[r.start] == 'S')
  }

  predicate FollowsSpace(message: string, start: nat) {
    1 <= start <= |message| && Spacing(message[start - 1])
  }

  predicate Spacing(c: char) {
    IsWhitespace(c) || c == '=' || c == ':'
  }

  lemma {:induction false} ValueHitIs(message: string, marker: ValueMarker, offset: nat, r: Range)
    requires r in ValueHits(message, marker, offset)
    ensures Credential(message, r)
    decreases |message| - offset
  {
    var found := FindFrom(message, marker.Text(), offset).value;
    ValueScanAdvances(message, marker, found);
    var start := ValueStart(marker, found);
    var end := CredentialEnd(message, start);
    if r == Range(start, end) {
      var last := if marker.Bearer? then |marker.Text()| - 1 else 0;
      assert AsciiLower(message[found + last]) == marker.Text()[last];
    } else {
      ValueHitIs(message, marker, end, r);
    }
  }

  lemma {:induction false} SkippedSpace(message: string, i: nat)
    ensures SkipSpace(message, i) > i ==>
              SkipSpace(message, i) <= |message| && IsWhitespace(message[SkipSpace(message, i) - 1])
    decreases |message| - i
  {
    if i < |message| && IsWhitespace(message[i]) {
      SkippedSpace(message, i + 1);
    }
  }

  lemma {:induction false} NameHitIs(message: string, after: nat)
    ensures NameHit(message, after).Some? ==> Credential(message, NameHit(message, after).value)
  {
    SkippedSpace(message, SkipSpace(message, after) + 1);
  }

  /** Some name ends where the finder finds this hit. */
  ghost predicate Found(find: Finder, r: Range) {
    exists after: nat :: find(after) == Some(r)
  }

  lemma {:induction false} NameHitsAre(
    message: string, marker: Marker, find: Finder, offset: nat, before: seq<Range>, r: Range)
    requires r in NameHits(message, marker, find, offset, before)
    ensures r in before || Found(find, r)
    decreases |message| - offset
  {
    var found := FindFrom(message, marker, offset);
    if found.Some? {
      var after := found.value + |marker|;
      NameHitsAre(message, marker, find, after, With(before, find(after)), r);
    }
  }

  lemma {:induction false} AllValueHitsAre(message: string, markers: seq<ValueMarker>, r: Range)
    requires r in AllValueHits(message, markers)
    ensures Credential(message, r)
  {
    var rest, last := markers[..|markers| - 1], markers[|markers| - 1];
    if r in AllValueHits(message, rest) {
      AllValueHitsAre(message, rest, r);
    } else {
      ValueHitIs(message, last, 0, r);
    }
  }

  lemma {:induction false} AllNameHitsAre(message: string, markers: seq<Marker>, before: seq<Range>, r: Range)
    requires r in AllNameHits(message, markers, before)
    ensures r in before || Found(FinderIn(message), r)
  {
    if markers != [] {
      var rest, last := markers[..|markers| - 1], markers[|markers| - 1];
      var inner := AllNameHits(message, rest, before);
      NameHitsAre(message, last, FinderIn(message), 0, inner, r);
      if r in inner {
        AllNameHitsAre(message, rest, before, r);
      }
    }
  }

  /** Every hit is a credential of the message. */
  lemma {:induction false} HitIsCredential(message: string, r: Range)
    requires r in Hits(message)
    ensures Credential(message, r)
  {
    var values := AllValueHits(message, VALUE_MARKERS);
    AllNameHitsAre(message, NAMES, values, r);
    if r in values {
      AllValueHitsAre(message, VALUE_MARKERS, r);
    } else {
      var after: nat :| FinderIn(message)(after) == Some(r);
      NameHitIs(message, after);
    }
  }

  /** Every hit lies inside the message, and so do the sorted ones. */
  lemma {:induction false} HitsWithin(message: string)
    ensures Within(Hits(message), |message|) && Within(SortDedup(Hits(message)), |message|)
  {
    SortDedupExact(Hits(message));
    var hits, sorted := Hits(message), SortDedup(Hits(message));
    forall r | r in hits ensures r.start <= r.end <= |message| {
      HitIsCredential(message, r);
    }
    forall i | 0 <= i < |sorted| ensures sorted[i].start <= sorted[i].end <= |message| {
      assert sorted[i] in hits;
    }
  }

  /** Redaction, with the program's loops. */
  method Redact(message: string) returns (result: string)
    ensures result == Redacted(message)
  {
    var values := CollectValues(message, VALUE_MARKERS);
    var hits := CollectNames(message, NAMES, values);
    HitsWithin(message);
    result := MaskRanges(message, SortDedup(hits));
  }

  /** The output is the message with disjoint ranges replaced by the marker and all else kept in order;
      each hit is replaced or starts inside a replaced range. */
  lemma {:induction false} RedactedShape(message: string)
    ensures var chosen := Chosen(SortDedup(Hits(message)), 0);
            && Disjoint(chosen, 0, |message|)
            && Redacted(message) == Masked(message, chosen, 0)
            && forall r :: r in Hits(message) ==> Touched(chosen, r)
  {
    HitsWithin(message);
    var sorted := SortDedup(Hits(message));
    ChosenDisjoint(sorted, 0, |message|);
    MaskIsMasked(message, sorted, 0, "");
    SortDedupExact(Hits(message));
    forall r | r in Hits(message) ensures Touched(Chosen(sorted, 0), r) {
      assert r in sorted;
      var i :| 0 <= i < |sorted| && sorted[i] == r;
      EveryHitTouched(sorted, 0, i);
    }
  }

  // ---------- Bounding ----------

  /** The number of characters whose encoding has exactly `bytes` bytes, if that is a character boundary. */
  function Boundary(s: string, bytes: nat): (k: Option<nat>)
    ensures k.Some? ==> k.value <= |s| && Utf8Length(s[..k.value]) == bytes
  {
    if Utf8Length(s) == bytes then
      assert s[..|s|] == s;
      Some(|s|)
    else if s == [] then None
    else
      var k := Boundary(s[..|s| - 1], bytes);
      assert k.Some? ==> s[..|s| - 1][..k.value] == s[..k.value];
      k
  }

  /** Every prefix ends at a boundary. */
  lemma {:induction false} PrefixIsBoundary(s: string, k: nat)
    requires k <= |s|
    ensures Boundary(s, Utf8Length(s[..k])) == Some(k)
  {
    if k == |s| {
      assert s[..k] == s;
    } else {
      var rest := s[..|s| - 1];
      assert rest[..k] == s[..k];
      PrefixIsBoundary(rest, k);
      LengthMonotone(s, k);
    }
  }

  lemma {:induction false} LengthMonotone(s: string, k: nat)
    requires k < |s|
    ensures Utf8Length(s[..k]) < Utf8Length(s)
  {
    if k < |s| - 1 {
      assert s[..|s| - 1][..k] == s[..k];
      LengthMonotone(s[..|s| - 1], k);
    } else {
      assert s[..k] == s[..|s| - 1];
    }
  }

  /** The longest prefix of whole characters that fits in the limit. */
  ghost predicate LongestFitting(s: string, limit: nat, r: string) {
    && r <= s && Utf8Length(r) <= limit
    && (r == s || Utf8Length(s[..|r| + 1]) > limit)
  }

  lemma {:induction false} LongestFittingIsUnique(s: string, limit: nat, a: string, b: string)
    requires LongestFitting(s, limit, a) && LongestFitting(s, limit, b) && |a| <= |b|
    ensures a == b
  {
    assert b[..|b|] == b;
    if |a| < |b| {
      assert b[..|a| + 1] == s[..|a| + 1];
      if |a| + 1 < |b| {
        LengthMonotone(b, |a| + 1);
      }
    }
  }

  /** The truncation loop, moving back from the limit to a character boundary. */
  method Bound(s: string, limit: nat) returns (r: string)
    ensures LongestFitting(s, limit, r)
    ensures r <= s && |EncodeAll(r)| <= limit && (r == s || |EncodeAll(s[..|r| + 1])| > limit)
  {
    if Utf8Length(s) <= limit {
      LengthIsEncoded(s);
      return s;
    }
    var end: nat := limit;
    var k := Boundary(s, end);
    while end != 0 && k.None?
      invariant end <= limit && k == Boundary(s, end)
      invariant forall e: nat :: end < e <= limit ==> Boundary(s, e).None?
    {
      end := end - 1;
      k := Boundary(s, end);
    }
    PrefixIsBoundary(s, 0);
    assert s[..0] == "";
    r := s[..k.value];
    assert s[..|s|] == s;
    PrefixIsBoundary(s, k.value + 1);
    LengthMonotone(s[..k.value + 1], k.value);
    assert s[..k.value + 1][..k.value] == s[..k.value];
    LengthIsEncoded(r);
    LengthIsEncoded(s[..k.value + 1]);
  }

  method RedactAndBound(message: string, limit: nat) returns (r: string)
    ensures LongestFitting(Redacted(message), limit, r)
    ensures r <= Redacted(message) && |EncodeAll(r)| <= limit
    ensures r == Redacted(message) || |EncodeAll(Redacted(message)[..|r| + 1])| > limit
  {
    var redacted := Redact(message);
    r := Bound(redacted, limit);
  }
}
