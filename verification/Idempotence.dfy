/** When redacting again changes nothing. */
module Idempotence {
  import opened Basics
  import opened Text
  import opened Redaction
  import opened Masking
  import opened Coverage
  import opened Pieces

  // ---------- What a settled text has to redact ----------

  lemma {:induction false} StopFound(message: string, i: nat)
    requires i <= |message|
    ensures FindStop(message, i) < |message| ==> Stops(message[FindStop(message, i)])
    decreases |message| - i
  {
    if i < |message| && !Stops(message[i]) {
      StopFound(message, i + 1);
    }
  }

  /** A credential reads as the marker exactly when a marker stands there and something that ends it follows. */
  lemma {:induction false} ReadsExactly(message: string, v: nat)
    requires v <= |message|
    ensures ReadsMarker(message, Range(v, CredentialEnd(message, v))) <==> ValueSettled(message, v, End)
  {
    var after := v + |MARKER|;
    if after <= |message| && message[v..after] == MARKER {
      MarkerIsTaken(message, v);
      assert message[v] == MARKER[0];
      StopFound(message, v);
      if after < |message| && Stops(message[after]) {
        StopsThere(message, v, after);
      }
    }
  }

  lemma {:induction false} StopsThere(message: string, i: nat, n: nat)
    requires i <= n < |message| && Stops(message[n])
    ensures FindStop(message, i) <= n
    decreases n - i
  {
    if i < n && !Stops(message[i]) {
      StopsThere(message, i + 1, n);
    }
  }

  ghost predicate AllRead(message: string, ranges: seq<Range>) {
    forall r :: r in ranges ==> ReadsMarker(message, r)
  }

  lemma {:induction false} BearersRead(message: string, offset: nat)
    requires Settled(message, End)
    ensures AllRead(message, ValueHits(message, Bearer, offset))
    decreases |message| - offset
  {
    var first := FindFrom(message, Bearer.Text(), offset);
    if first.Some? {
      var found := first.value;
      assert SettledAt(message, End, found);
      ValueScanAdvances(message, Bearer, found);
      var start := ValueStart(Bearer, found);
      var end := CredentialEnd(message, start);
      ReadsExactly(message, start);
      BearersRead(message, end);
      assert ValueHits(message, Bearer, offset) == [Range(start, end)] + ValueHits(message, Bearer, end);
    }
  }

  lemma {:induction false} NoKeys(message: string)
    requires Settled(message, End)
    ensures ValueHits(message, Key, 0) == []
  {
    var first := FindFrom(message, Key.Text(), 0);
    assert first.Some? ==> SettledAt(message, End, first.value);
  }

  lemma {:induction false} NameReads(message: string, after: nat)
    requires NameSettled(message, after, End) && NameHit(message, after).Some?
    ensures ReadsMarker(message, NameHit(message, after).value)
  {
    ReadsExactly(message, NameHit(message, after).value.start);
  }

  lemma {:induction false} NamesRead(message: string, name: Marker, offset: nat, before: seq<Range>)
    requires (forall i :: 0 <= i < |message| ==> NameSettledAt(message, End, i, name)) && AllRead(message, before)
    ensures AllRead(message, NameHits(message, name, FinderIn(message), offset, before))
    decreases |message| - offset
  {
    var first := FindFrom(message, name, offset);
    if first.Some? {
      var after := first.value + |name|;
      assert NameSettledAt(message, End, first.value, name);
      var find, hit := FinderIn(message), NameHit(message, after);
      if hit.Some? {
        NameReads(message, after);
      }
      var grown := With(before, find(after));
      assert AllRead(message, grown);
      NamesRead(message, name, after, grown);
    }
  }

  lemma {:induction false} AllNamesRead(message: string, m: nat, before: seq<Range>)
    requires Settled(message, End) && m <= |NAMES| && AllRead(message, before)
    ensures AllRead(message, AllNameHits(message, NAMES[..m], before))
  {
    if m > 0 {
      AllNamesRead(message, m - 1, before);
      assert NAMES[..m][..m - 1] == NAMES[..m - 1];
      var inner, name := AllNameHits(message, NAMES[..m - 1], before), NAMES[m - 1];
      forall i | 0 <= i < |message| ensures NameSettledAt(message, End, i, name) {
        assert SettledAt(message, End, i);
      }
      NamesRead(message, name, 0, inner);
    }
  }

  /** The hits of the two value markers. */
  lemma {:induction false} BothValues(message: string)
    ensures AllValueHits(message, VALUE_MARKERS) == ValueHits(message, Bearer, 0) + ValueHits(message, Key, 0)
  {
    var none: seq<ValueMarker> := [];
    var bearer := none + [Bearer];
    assert bearer[..|bearer| - 1] == none && VALUE_MARKERS[..|VALUE_MARKERS| - 1] == bearer;
    assert AllValueHits(message, none) == [];
    assert AllValueHits(message, bearer) == ValueHits(message, Bearer, 0);
  }

  lemma {:induction false} SettledReads(message: string)
    requires Settled(message, End)
    ensures AllRead(message, Hits(message))
  {
    BothValues(message);
    BearersRead(message, 0);
    NoKeys(message);
    var values := AllValueHits(message, VALUE_MARKERS);
    AllNamesRead(message, |NAMES|, values);
    assert NAMES[..|NAMES|] == NAMES;
  }

  // ---------- And conversely ----------

  lemma {:induction false} KeptByNames(message: string, markers: seq<Marker>, before: seq<Range>, r: Range)
    requires r in before
    ensures r in AllNameHits(message, markers, before)
  {
    if markers != [] {
      var rest, last := markers[..|markers| - 1], markers[|markers| - 1];
      var inner := AllNameHits(message, rest, before);
      KeptByNames(message, rest, before, r);
      NameHitsKeep(message, last, FinderIn(message), 0, inner, r);
    }
  }

  /** The hits of the value markers are hits. */
  lemma {:induction false} ValueIsHit(message: string, marker: ValueMarker, r: Range)
    requires r in ValueHits(message, marker, 0)
    ensures r in Hits(message)
  {
    BothValues(message);
    KeptByNames(message, NAMES, AllValueHits(message, VALUE_MARKERS), r);
  }

  lemma {:induction false} NameIsHitAmong(
    message: string, markers: seq<Marker>, n: nat, before: seq<Range>, i: nat, r: Range)
    requires n < |markers| && Leading(markers[n]) && OccursAt(message, markers[n], i)
    requires NameHit(message, i + |markers[n]|) == Some(r)
    ensures r in AllNameHits(message, markers, before)
  {
    var rest, last := markers[..|markers| - 1], markers[|markers| - 1];
    var inner, find := AllNameHits(message, rest, before), FinderIn(message);
    var hits := NameHits(message, last, find, 0, inner);
    if n < |rest| {
      NameIsHitAmong(message, rest, n, before, i, r);
      NameHitsKeep(message, last, find, 0, inner, r);
    } else {
      var after := i + |last|;
      assert find(after) == Some(r);
      NamesAreHit(message, last, find, 0, inner, i);
    }
    assert AllNameHits(message, markers, before) == hits;
  }

  /** Every occurrence of a name with a value has that value among the hits of the message. */
  lemma {:induction false} NameIsHit(message: string, n: nat, i: nat)
    requires n < |NAMES| && OccursAt(message, NAMES[n], i) && NameHit(message, i + |NAMES[n]|).Some?
    ensures NameHit(message, i + |NAMES[n]|).value in Hits(message)
  {
    MarkersLead();
    var r := NameHit(message, i + |NAMES[n]|).value;
    NameIsHitAmong(message, NAMES, n, AllValueHits(message, VALUE_MARKERS), i, r);
  }

  lemma {:induction false} ReadCharacter(message: string, r: Range, i: nat)
    requires ReadsMarker(message, r) && r.start <= i < r.end
    ensures i - r.start < |MARKER| && message[i] == MARKER[i - r.start]
  {
    assert message[r.start..r.end][i - r.start] == message[i];
  }

  lemma {:induction false} NoKeyOccurs(message: string, i: nat)
    requires AllRead(message, Hits(message))
    ensures !OccursAt(message, Key.Text(), i)
  {
    var first := FindFrom(message, Key.Text(), 0);
    if first.Some? {
      var found := first.value;
      ValueScanAdvances(message, Key, found);
      var r := Range(found, CredentialEnd(message, found));
      assert ValueHits(message, Key, 0)[0] == r;
      ValueIsHit(message, Key, r);
      assert AsciiLower(message[found + 0]) == Key.Text()[0];
      ReadCharacter(message, r, found);
      assert false;
    }
  }

  lemma {:induction false} BearerSettled(message: string, i: nat)
    requires AllRead(message, Hits(message)) && OccursAt(message, Bearer.Text(), i)
    ensures ValueSettled(message, i + |Bearer.Text()|, End)
  {
    ValuesAreHit(message, Bearer, 0, i);
    var hits := ValueHits(message, Bearer, 0);
    var k :| 0 <= k < |hits| && (hits[k].start == ValueStart(Bearer, i) || hits[k].start <= i < hits[k].end);
    var r := hits[k];
    ValueIsHit(message, Bearer, r);
    HitIsCredential(message, r);
    if r.start == ValueStart(Bearer, i) {
      ReadsExactly(message, r.start);
    } else {
      assert AsciiLower(message[i + 0]) == Bearer.Text()[0];
      NotBearer();
      ReadCharacter(message, r, i);
      assert false;
    }
  }

  lemma {:induction false} NotBearer()
    ensures forall j :: 0 <= j < |MARKER| ==> AsciiLower(MARKER[j]) != 'b'
  {
  }

  lemma {:induction false} NameSettles(message: string, n: nat, i: nat)
    requires AllRead(message, Hits(message)) && n < |NAMES|
    ensures NameSettledAt(message, End, i, NAMES[n])
  {
    if OccursAt(message, NAMES[n], i) {
      var after := i + |NAMES[n]|;
      var hit := NameHit(message, after);
      if hit.Some? {
        NameIsHit(message, n, i);
        ReadsExactly(message, hit.value.start);
      }
    }
  }

  lemma {:induction false} ReadIsSettled(message: string)
    requires AllRead(message, Hits(message))
    ensures Settled(message, End)
  {
    forall i | 0 <= i < |message| ensures SettledAt(message, End, i) {
      NoKeyOccurs(message, i);
      if OccursAt(message, Bearer.Text(), i) {
        BearerSettled(message, i);
      }
      forall n | 0 <= n < |NAMES| ensures NameSettledAt(message, End, i, NAMES[n]) {
        NameSettles(message, n, i);
      }
    }
  }

  // ---------- From the replaced ranges to all hits ----------

  lemma {:induction false} NoneStartsInside(message: string, r: Range, at: nat)
    requires at + |MARKER| <= |message| && message[at..at + |MARKER|] == MARKER
    requires at < r.start < at + |MARKER|
    ensures !Credential(message, r)
  {
    var k := r.start - 1 - at;
    assert message[at..at + |MARKER|][k] == message[r.start - 1];
    assert message[at..at + |MARKER|][k + 1] == message[r.start];
    MarkerCharacters(k);
    MarkerCharacters(k + 1);
  }

  lemma {:induction false} ReadAt(message: string, ranges: seq<Range>, k: nat)
    requires AllReadMarker(message, ranges) && k < |ranges|
    ensures ReadsMarker(message, ranges[k])
  {
    if k > 0 {
      ReadAt(message, ranges[1..], k - 1);
    }
  }

  lemma {:induction false} CredentialAt(message: string, ranges: seq<Range>, k: nat)
    requires AllCredentials(message, ranges) && k < |ranges|
    ensures Credential(message, ranges[k])
  {
    if k > 0 {
      CredentialAt(message, ranges[1..], k - 1);
    }
  }

  lemma {:induction false} SameCredential(message: string, r: Range, c: Range)
    requires Credential(message, r) && Credential(message, c) && ReadsMarker(message, c) && c.start <= r.start < c.end
    ensures r == c
  {
    assert c.end == c.start + |MARKER|;
    if c.start < r.start {
      NoneStartsInside(message, r, c.start);
    }
  }

  /** If everything replaced reads as the marker, so does every hit: none starts inside another. */
  lemma {:induction false} ReplacedIsAll(message: string, r: Range)
    requires AllReadMarker(message, Replaced(message)) && r in Hits(message)
    ensures ReadsMarker(message, r)
  {
    var chosen := Replaced(message);
    RedactedShape(message);
    HitIsCredential(message, r);
    ReplacedAreCredentials(message);
    assert Touched(chosen, r);
    var k :| 0 <= k < |chosen| && (chosen[k] == r || chosen[k].start <= r.start < chosen[k].end);
    ReadAt(message, chosen, k);
    CredentialAt(message, chosen, k);
    if chosen[k] != r {
      SameCredential(message, r, chosen[k]);
    }
  }

  lemma {:induction false} ReadEach(message: string, ranges: seq<Range>)
    requires AllRead(message, ranges)
    ensures AllReadMarker(message, ranges)
  {
    if ranges != [] {
      assert ranges[0] in ranges && forall r :: r in ranges[1..] ==> r in ranges;
      ReadEach(message, ranges[1..]);
    }
  }

  lemma {:induction false} ChosenMembers(ranges: seq<Range>, cursor: nat, r: Range)
    requires r in Chosen(ranges, cursor)
    ensures r in ranges
  {
    if ranges[0].start < cursor {
      ChosenMembers(ranges[1..], cursor, r);
    } else if r != ranges[0] {
      ChosenMembers(ranges[1..], ranges[0].end, r);
    }
  }

  /** A text is left alone exactly when no key occurs in it and each `bearer` and each name with a
      separator is followed by a whole marker. */
  lemma {:induction false} FixedBySettled(message: string)
    ensures Redacted(message) == message <==> Settled(message, End)
  {
    FixedExactly(message);
    if Settled(message, End) {
      SettledReads(message);
      SortDedupExact(Hits(message));
      forall r | r in Replaced(message) ensures ReadsMarker(message, r) {
        ChosenMembers(SortDedup(Hits(message)), 0, r);
      }
      ReadEach(message, Replaced(message));
    }
    if AllReadMarker(message, Replaced(message)) {
      forall r | r in Hits(message) ensures ReadsMarker(message, r) {
        ReplacedIsAll(message, r);
      }
      ReadIsSettled(message);
    }
  }

  // ---------- The kept pieces of a message ----------

  /** The replaced range that ends here is followed by the end or a character that ends a credential,
      and no other replaced range touches it. */
  predicate Delimited(message: string, rest: seq<Range>, end: nat)
    requires end <= |message|
  {
    (rest == [] || rest[0].start != end) && (end == |message| || Stops(message[end]))
  }

  /** Every kept piece of the message is settled, given what redaction puts after it. */
  predicate PiecesSettled(message: string, chosen: seq<Range>, cursor: nat)
    requires Disjoint(chosen, cursor, |message|)
  {
    if chosen == [] then Settled(message[cursor..], End)
    else
      var r := chosen[0];
      && Settled(message[cursor..r.start], Replacement(Delimited(message, chosen[1..], r.end)))
      && PiecesSettled(message, chosen[1..], r.end)
  }

  lemma {:induction false} DelimitedText(message: string, rest: seq<Range>, end: nat)
    requires Disjoint(rest, end, |message|)
    ensures Delimits(Masked(message, rest, end)) <==> Delimited(message, rest, end)
  {
    var text := Masked(message, rest, end);
    if rest == [] {
      assert text == message[end..];
      assert if end == |message| then text == "" else text[0] == message[end];
    } else {
      var kept, tail := message[end..rest[0].start], Masked(message, rest[1..], rest[0].end);
      Letters(0);
      assert text == kept + MARKER + tail;
      assert text[0] == if kept == "" then MARKER[0] else message[end];
    }
  }

  lemma {:induction false} MaskedSettled(message: string, chosen: seq<Range>, cursor: nat)
    requires Disjoint(chosen, cursor, |message|)
    ensures Settled(Masked(message, chosen, cursor), End) <==> PiecesSettled(message, chosen, cursor)
  {
    if chosen != [] {
      var r, rest := chosen[0], chosen[1..];
      MaskedSettled(message, rest, r.end);
      DelimitedText(message, rest, r.end);
      var kept, tail := message[cursor..r.start], Masked(message, rest, r.end);
      assert Masked(message, chosen, cursor) == Glued(kept, tail);
      GluedSettled(kept, tail);
    } else {
      assert Masked(message, chosen, cursor) == message[cursor..];
    }
  }

  /** Redacting a message again changes nothing exactly when each piece of it that is kept is settled:
      no key lies in it, and the value of each `bearer` and each name with a separator is a replaced
      range with a delimiter or the end behind it and no other replaced range at its end, or a marker
      that the message itself contains. */
  lemma {:induction false} IdempotentExactly(message: string)
    ensures Disjoint(Replaced(message), 0, |message|)
    ensures Redacted(Redacted(message)) == Redacted(message) <==> PiecesSettled(message, Replaced(message), 0)
  {
    RedactedShape(message);
    FixedBySettled(Redacted(message));
    MaskedSettled(message, Replaced(message), 0);
  }

  // ---------- A simple sufficient condition ----------

  /** Every replaced range is delimited. */
  predicate AllDelimited(message: string, chosen: seq<Range>, cursor: nat)
    requires Disjoint(chosen, cursor, |message|)
  {
    chosen == []
    || (Delimited(message, chosen[1..], chosen[0].end) && AllDelimited(message, chosen[1..], chosen[0].end))
  }

  /** A stretch that lies between replaced ranges, or after the last one. */
  ghost predicate Between(chosen: seq<Range>, from: nat, to: nat, f: Follows) {
    forall r :: r in chosen ==> r.end <= from || (to <= r.start && f.Replacement?)
  }

  lemma {:induction false} OccursInside(message: string, from: nat, to: nat, w: Marker, i: nat)
    requires from <= to <= |message| && OccursAt(message[from..to], w, i)
    ensures OccursAt(message, w, from + i)
  {
    var piece := message[from..to];
    assert forall j :: 0 <= j < |w| ==> (AsciiLower(message[from + i + j]) == w[j] <==> AsciiLower(piece[i + j]) == w[j]);
  }

  lemma {:induction false} SkipInside(message: string, from: nat, to: nat, i: nat)
    requires from <= to <= |message| && SkipSpace(message[from..to], i) < to - from
    ensures SkipSpace(message, from + i) == from + SkipSpace(message[from..to], i)
    decreases |message[from..to]| - i
  {
    if IsWhitespace(message[from..to][i]) {
      SkipInside(message, from, to, i + 1);
    }
  }

  /** No hit starts inside a kept stretch, and if all is hidden none reaches into it. */
  lemma {:induction false} NoHitStarts(message: string, from: nat, to: nat, f: Follows, r: Range)
    requires Between(Replaced(message), from, to, f) && r in Hits(message) && from < r.start
    ensures to <= r.start && f.Replacement?
  {
    var chosen := Replaced(message);
    RedactedShape(message);
    HitsWithin(message);
    assert Touched(chosen, r);
    var k :| 0 <= k < |chosen| && (chosen[k] == r || chosen[k].start <= r.start < chosen[k].end);
    assert chosen[k] in chosen;
  }

  lemma {:induction false} NothingBetween(chosen: seq<Range>, from: nat, to: nat, f: Follows, p: nat)
    requires Between(chosen, from, to, f) && from <= p < to
    ensures !In(chosen, p)
  {
    InExact(chosen, p);
    assert forall k :: 0 <= k < |chosen| ==> chosen[k] in chosen;
  }

  lemma {:induction false} NoHitReaches(message: string, from: nat, to: nat, f: Follows, r: Range, p: nat)
    requires Between(Replaced(message), from, to, f) && AllHidden(message) && from <= p < to
    requires r in Hits(message)
    ensures !(r.start <= p < r.end)
  {
    NothingBetween(Replaced(message), from, to, f, p);
    assert !In(Hits(message), p);
    InExact(Hits(message), p);
    var i :| 0 <= i < |Hits(message)| && Hits(message)[i] == r;
  }

  lemma {:induction false} NoKeyBetween(message: string, from: nat, to: nat, f: Follows, i: nat)
    requires from <= to <= |message| && Between(Replaced(message), from, to, f) && AllHidden(message)
    ensures !OccursAt(message[from..to], Key.Text(), i)
  {
    if OccursAt(message[from..to], Key.Text(), i) {
      var at := from + i;
      OccursInside(message, from, to, Key.Text(), i);
      ValuesAreHit(message, Key, 0, at);
      ValueScanAdvances(message, Key, at);
      var hits := ValueHits(message, Key, 0);
      var k :| 0 <= k < |hits| && (hits[k].start == ValueStart(Key, at) || hits[k].start <= at < hits[k].end);
      ValueIsHit(message, Key, hits[k]);
      HitIsCredential(message, hits[k]);
      NoHitReaches(message, from, to, f, hits[k], at);
    }
  }

  lemma {:induction false} BearerBetween(message: string, from: nat, to: nat, f: Follows, i: nat)
    requires from <= to <= |message| && Between(Replaced(message), from, to, f) && AllHidden(message)
    requires f.Replacement? ==> f.delimited
    requires OccursAt(message[from..to], Bearer.Text(), i)
    ensures ValueSettled(message[from..to], i + |Bearer.Text()|, f)
  {
    var at := from + i;
    OccursInside(message, from, to, Bearer.Text(), i);
    ValuesAreHit(message, Bearer, 0, at);
    var hits := ValueHits(message, Bearer, 0);
    var k :| 0 <= k < |hits| && (hits[k].start == ValueStart(Bearer, at) || hits[k].start <= at < hits[k].end);
    ValueIsHit(message, Bearer, hits[k]);
    NoHitReaches(message, from, to, f, hits[k], at);
    NoHitStarts(message, from, to, f, hits[k]);
  }

  /** A value inside the piece would be a hit that starts there. */
  lemma {:induction false} ValueBetween(message: string, from: nat, to: nat, after: nat)
    requires from <= to <= |message| && after <= to - from
    ensures var piece := message[from..to];
            var separator := SkipSpace(piece, after);
            separator < |piece| && Separates(piece[separator]) && SkipSpace(piece, separator + 1) < |piece| ==>
              && NameHit(message, from + after).Some?
              && NameHit(message, from + after).value.start == from + SkipSpace(piece, separator + 1)
  {
    var piece := message[from..to];
    var separator := SkipSpace(piece, after);
    if separator < |piece| {
      SkipInside(message, from, to, after);
      if SkipSpace(piece, separator + 1) < |piece| {
        SkipInside(message, from, to, separator + 1);
      }
    }
  }

  lemma {:induction false} NameBetween(message: string, from: nat, to: nat, f: Follows, after: nat)
    requires from <= to <= |message| && after <= to - from && Between(Replaced(message), from, to, f)
    requires f.Replacement? ==> f.delimited
    requires var hit := NameHit(message, from + after);
             hit.Some? ==> from < hit.value.start && hit.value in Hits(message)
    ensures NameSettled(message[from..to], after, f)
  {
    ValueBetween(message, from, to, after);
    var hit := NameHit(message, from + after);
    if hit.Some? {
      NoHitStarts(message, from, to, f, hit.value);
    }
  }

  lemma {:induction false} NamesBetween(message: string, from: nat, to: nat, f: Follows, i: nat, n: nat)
    requires from <= to <= |message| && Between(Replaced(message), from, to, f) && n < |NAMES|
    requires f.Replacement? ==> f.delimited
    ensures NameSettledAt(message[from..to], f, i, NAMES[n])
  {
    if OccursAt(message[from..to], NAMES[n], i) {
      var after := i + |NAMES[n]|;
      OccursInside(message, from, to, NAMES[n], i);
      if NameHit(message, from + after).Some? {
        NameIsHit(message, n, from + i);
      }
      NameBetween(message, from, to, f, after);
    }
  }

  lemma {:induction false} PieceBetween(message: string, from: nat, to: nat, f: Follows)
    requires from <= to <= |message| && Between(Replaced(message), from, to, f) && AllHidden(message)
    requires f.Replacement? ==> f.delimited
    ensures Settled(message[from..to], f)
  {
    var piece := message[from..to];
    forall i | 0 <= i < |piece| ensures SettledAt(piece, f, i) {
      NoKeyBetween(message, from, to, f, i);
      if OccursAt(piece, Bearer.Text(), i) {
        BearerBetween(message, from, to, f, i);
      }
      forall n | 0 <= n < |NAMES| ensures NameSettledAt(piece, f, i, NAMES[n]) {
        NamesBetween(message, from, to, f, i, n);
      }
    }
  }

  lemma {:induction false} StartsLater(ranges: seq<Range>, cursor: nat, length: nat, r: Range)
    requires Disjoint(ranges, cursor, length) && r in ranges
    ensures cursor <= r.start
  {
    if r != ranges[0] {
      StartsLater(ranges[1..], ranges[0].end, length, r);
    }
  }

  lemma {:induction false} PiecesBetween(message: string, done: seq<Range>, rest: seq<Range>, cursor: nat)
    requires Replaced(message) == done + rest && AllHidden(message)
    requires Disjoint(rest, cursor, |message|) && AllDelimited(message, rest, cursor)
    requires forall r :: r in done ==> r.end <= cursor
    ensures PiecesSettled(message, rest, cursor)
    decreases |rest|
  {
    if rest == [] {
      assert message[cursor..|message|] == message[cursor..];
      PieceBetween(message, cursor, |message|, End);
    } else {
      var r, later := rest[0], rest[1..];
      forall q | q in Replaced(message) ensures q.end <= cursor || r.start <= q.start {
        if q in later {
          StartsLater(later, r.end, |message|, q);
        }
      }
      PieceBetween(message, cursor, r.start, Replacement(true));
      assert done + rest == done + [r] + later;
      PiecesBetween(message, done + [r], later, r.end);
    }
  }

  /** If redaction hides every hit, and behind each replaced range is a delimiter or the end and no other
      replaced range, then redacting again changes nothing. */
  lemma {:induction false} DelimitedIsIdempotent(message: string)
    requires Disjoint(Replaced(message), 0, |message|) && AllDelimited(message, Replaced(message), 0)
    requires AllHidden(message)
    ensures Redacted(Redacted(message)) == Redacted(message)
  {
    var none: seq<Range> := [];
    assert none + Replaced(message) == Replaced(message);
    PiecesBetween(message, none, Replaced(message), 0);
    IdempotentExactly(message);
  }
}
