/** What redaction hides, and when it is done. */
module Coverage {
  import opened Redaction
  import opened Masking

  // ---------- Positions ----------

  /** Some range contains the position. */
  predicate In(ranges: seq<Range>, p: nat) {
    ranges != [] && (ranges[0].start <= p < ranges[0].end || In(ranges[1..], p))
  }

  lemma {:induction false} InExact(ranges: seq<Range>, p: nat)
    ensures In(ranges, p) <==> exists i :: 0 <= i < |ranges| && ranges[i].start <= p < ranges[i].end
  {
    if ranges != [] {
      InExact(ranges[1..], p);
      assert forall i :: 0 <= i < |ranges| - 1 ==> ranges[1..][i] == ranges[i + 1];
      if exists i :: 0 <= i < |ranges| && ranges[i].start <= p < ranges[i].end {
        var i :| 0 <= i < |ranges| && ranges[i].start <= p < ranges[i].end;
        assert i > 0 ==> ranges[1..][i - 1] == ranges[i];
      }
    }
  }

  /** All ranges start at or after a position. */
  predicate StartFrom(ranges: seq<Range>, p: nat) {
    ranges == [] || (p <= ranges[0].start && StartFrom(ranges[1..], p))
  }

  /** Ranges in order of their starts, none ending before it starts. */
  predicate Ordered(ranges: seq<Range>) {
    ranges == [] || (ranges[0].start <= ranges[0].end && StartFrom(ranges[1..], ranges[0].start) && Ordered(ranges[1..]))
  }

  lemma {:induction false} NotYet(ranges: seq<Range>, from: nat, p: nat)
    requires StartFrom(ranges, from) && p < from
    ensures !In(ranges, p)
  {
    if ranges != [] {
      NotYet(ranges[1..], from, p);
    }
  }

  lemma {:induction false} ChosenFrom(ranges: seq<Range>, cursor: nat)
    requires Ordered(ranges)
    ensures StartFrom(Chosen(ranges, cursor), cursor)
  {
    if ranges != [] {
      ChosenFrom(ranges[1..], cursor);
      if ranges[0].start >= cursor {
        ChosenFrom(ranges[1..], ranges[0].end);
        Later(Chosen(ranges[1..], ranges[0].end), ranges[0].end, cursor);
        assert Chosen(ranges, cursor)[1..] == Chosen(ranges[1..], ranges[0].end);
      }
    }
  }

  lemma {:induction false} Later(ranges: seq<Range>, from: nat, earlier: nat)
    requires StartFrom(ranges, from) && earlier <= from
    ensures StartFrom(ranges, earlier)
  {
    if ranges != [] {
      Later(ranges[1..], from, earlier);
    }
  }

  lemma {:induction false} SortedIsOrdered(ranges: seq<Range>)
    requires StrictlySorted(ranges) && forall i :: 0 <= i < |ranges| ==> ranges[i].start <= ranges[i].end
    ensures Ordered(ranges)
  {
    if ranges != [] {
      assert forall i :: 0 <= i < |ranges| - 1 ==> ranges[1..][i] == ranges[i + 1];
      SortedIsOrdered(ranges[1..]);
      if |ranges| > 1 {
        Later(ranges[1..], ranges[1].start, ranges[0].start);
      }
    }
  }

  // ---------- Coverage ----------

  /** A scan for leaks. `reach` is how far the ranges seen so far go, `cursor` how far the chosen ones
      go; the next chosen range must not start beyond the cursor while something reaches beyond it. */
  predicate NoLeak(ranges: seq<Range>, cursor: nat, reach: nat) {
    if ranges == [] then reach <= cursor
    else if ranges[0].start < cursor then
      NoLeak(ranges[1..], cursor, if reach < ranges[0].end then ranges[0].end else reach)
    else (reach <= cursor || ranges[0].start == cursor) && NoLeak(ranges[1..], ranges[0].end, reach)
  }

  /** Everything from the cursor on that some range needs hidden is hidden. */
  ghost predicate Covers(ranges: seq<Range>, cursor: nat, reach: nat) {
    forall p: nat :: cursor <= p && (p < reach || In(ranges, p)) ==> In(Chosen(ranges, cursor), p)
  }

  /** The scan is exact. */
  lemma {:induction false} CoversExactly(ranges: seq<Range>, cursor: nat, reach: nat)
    requires Ordered(ranges)
    ensures NoLeak(ranges, cursor, reach) <==> Covers(ranges, cursor, reach)
  {
    if ranges == [] {
      if reach > cursor {
        assert !In(Chosen(ranges, cursor), cursor);
      }
    } else if ranges[0].start < cursor {
      var further := if reach < ranges[0].end then ranges[0].end else reach;
      CoversExactly(ranges[1..], cursor, further);
      SkipCovers(ranges, cursor, reach, further);
    } else {
      CoversExactly(ranges[1..], ranges[0].end, reach);
      TakeCovers(ranges, cursor, reach);
    }
  }

  lemma {:induction false} SkipCovers(ranges: seq<Range>, cursor: nat, reach: nat, further: nat)
    requires ranges != [] && ranges[0].start < cursor
    requires further == if reach < ranges[0].end then ranges[0].end else reach
    ensures Covers(ranges, cursor, reach) <==> Covers(ranges[1..], cursor, further)
  {
    assert Chosen(ranges, cursor) == Chosen(ranges[1..], cursor);
    forall p: nat | cursor <= p
      ensures (p < reach || In(ranges, p)) <==> (p < further || In(ranges[1..], p))
    {
    }
  }

  lemma {:induction false} TakeCovers(ranges: seq<Range>, cursor: nat, reach: nat)
    requires Ordered(ranges) && ranges != [] && cursor <= ranges[0].start
    ensures Covers(ranges, cursor, reach) <==>
              (reach <= cursor || ranges[0].start == cursor) && Covers(ranges[1..], ranges[0].end, reach)
  {
    var r, rest := ranges[0], ranges[1..];
    var chosen, later := Chosen(ranges, cursor), Chosen(rest, r.end);
    assert chosen[0] == r && chosen[1..] == later;
    ChosenFrom(rest, r.end);
    if Covers(ranges, cursor, reach) {
      if reach > cursor {
        assert In(chosen, cursor);
        if r.start > cursor {
          NotYet(later, r.end, cursor);
        }
      }
      forall p: nat | r.end <= p && (p < reach || In(rest, p)) ensures In(later, p) {
        assert In(ranges, p) || p < reach;
        assert In(chosen, p);
      }
    }
    if (reach <= cursor || r.start == cursor) && Covers(rest, r.end, reach) {
      forall p: nat | cursor <= p && (p < reach || In(ranges, p)) ensures In(chosen, p) {
        if p < r.start {
          NotYet(rest, r.start, p);
        } else if p >= r.end {
          assert p < reach || In(rest, p);
          assert In(later, p);
        }
      }
    }
  }

  /** The ranges that redaction replaces in a message. */
  function Replaced(message: string): seq<Range> {
    Chosen(SortDedup(Hits(message)), 0)
  }

  /** Every character of every hit is replaced. */
  ghost predicate AllHidden(message: string) {
    forall p: nat :: In(Hits(message), p) ==> In(Replaced(message), p)
  }

  /** Every character of every hit in a message is replaced exactly when the scan finds no leak. */
  lemma {:induction false} HitsHiddenExactly(message: string)
    ensures AllHidden(message) <==> NoLeak(SortDedup(Hits(message)), 0, 0)
  {
    var sorted := SortDedup(Hits(message));
    HitsWithin(message);
    SortDedupExact(Hits(message));
    SortedIsOrdered(sorted);
    CoversExactly(sorted, 0, 0);
    forall p: nat ensures In(Hits(message), p) <==> In(sorted, p) {
      SameMembers(Hits(message), sorted, p);
      SameMembers(sorted, Hits(message), p);
    }
    if Covers(sorted, 0, 0) {
      forall p: nat | In(Hits(message), p) ensures In(Replaced(message), p) {
        assert In(sorted, p);
      }
    }
    if AllHidden(message) {
      forall p: nat | In(sorted, p) ensures In(Chosen(sorted, 0), p) {
        assert In(Hits(message), p);
      }
    }
  }

  lemma {:induction false} SameMembers(xs: seq<Range>, ys: seq<Range>, p: nat)
    requires forall r :: r in xs ==> r in ys
    ensures In(xs, p) ==> In(ys, p)
  {
    InExact(xs, p);
    InExact(ys, p);
    if In(xs, p) {
      var i :| 0 <= i < |xs| && xs[i].start <= p < xs[i].end;
      assert xs[i] in xs && xs[i] in ys;
      var j :| 0 <= j < |ys| && ys[j] == xs[i];
    }
  }

  // ---------- When redacting again changes nothing ----------

  /** The text of a range is the marker. */
  predicate ReadsMarker(message: string, r: Range) {
    r.start <= r.end <= |message| && message[r.start..r.end] == MARKER
  }

  predicate AllReadMarker(message: string, ranges: seq<Range>) {
    ranges == [] || (ReadsMarker(message, ranges[0]) && AllReadMarker(message, ranges[1..]))
  }

  ghost predicate AllCredentials(message: string, ranges: seq<Range>) {
    ranges == [] || (Credential(message, ranges[0]) && AllCredentials(message, ranges[1..]))
  }

  /** Replacing markers by markers changes nothing. */
  lemma {:induction false} MarkersStay(message: string, chosen: seq<Range>, cursor: nat)
    requires Disjoint(chosen, cursor, |message|) && AllReadMarker(message, chosen)
    ensures Masked(message, chosen, cursor) == message[cursor..]
  {
    if chosen != [] {
      var r := chosen[0];
      MarkersStay(message, chosen[1..], r.end);
      var kept, tail := message[cursor..r.start], message[r.end..];
      assert message[cursor..] == kept + message[r.start..r.end] + tail;
    }
  }

  /** Where the marker stands, a credential takes in all of it. */
  lemma {:induction false} MarkerIsTaken(message: string, start: nat)
    requires start + |MARKER| <= |message| && message[start..start + |MARKER|] == MARKER
    ensures CredentialEnd(message, start) >= start + |MARKER|
  {
    assert message[start] == MARKER[0];
    NoStopBefore(message, start, start + |MARKER|);
  }

  lemma {:induction false} NoStopBefore(message: string, i: nat, n: nat)
    requires i <= n <= |message| && forall k :: i <= k < n ==> !Stops(message[k])
    ensures FindStop(message, i) >= n
    decreases n - i
  {
    if i < n {
      NoStopBefore(message, i + 1, n);
    }
  }

  lemma {:induction false} MarkerCharacters(k: nat)
    requires k < |MARKER|
    ensures !Spacing(MARKER[k]) && MARKER[k] != 's' && MARKER[k] != 'S'
  {
  }

  /** If what is left of the output is what is left of the message, only `d` characters earlier, then
      nothing is shifted and every replaced range was a marker: a range that is shorter than the
      marker would have to start inside a marker, where no credential starts. */
  lemma {:induction false} NothingShifts(message: string, chosen: seq<Range>, cursor: nat, d: nat)
    requires Disjoint(chosen, cursor, |message|) && AllCredentials(message, chosen)
    requires d <= cursor && Masked(message, chosen, cursor) == message[cursor - d..]
    ensures d == 0 && AllReadMarker(message, chosen)
  {
    if chosen == [] {
      assert |message[cursor..]| == |message[cursor - d..]|;
    } else {
      var r := chosen[0];
      var at := r.start - d;
      MarkerMoved(message, chosen, cursor, d);
      ShortRange(message, r, at);
      var shift := r.end - (at + |MARKER|);
      assert r.end - shift == at + |MARKER|;
      NothingShifts(message, chosen[1..], r.end, shift);
    }
  }

  /** The output's first marker stands `d` characters before the first range. */
  lemma {:induction false} MarkerMoved(message: string, chosen: seq<Range>, cursor: nat, d: nat)
    requires chosen != [] && Disjoint(chosen, cursor, |message|)
    requires d <= cursor && Masked(message, chosen, cursor) == message[cursor - d..]
    ensures var at := chosen[0].start - d;
            && 0 <= at && at + |MARKER| <= |message| && message[at..at + |MARKER|] == MARKER
            && Masked(message, chosen[1..], chosen[0].end) == message[at + |MARKER|..]
  {
    var kept := Slice(message, cursor, chosen[0].start);
    var tail := Masked(message, chosen[1..], chosen[0].end);
    var whole := message[cursor - d..];
    assert whole == kept + MARKER + tail;
    assert whole[|kept|..|kept| + |MARKER|] == MARKER && whole[|kept| + |MARKER|..] == tail;
  }

  /** A credential that starts at a marker takes it in, and one that starts after it goes beyond it. */
  lemma {:induction false} ShortRange(message: string, r: Range, at: nat)
    requires Credential(message, r) && at <= r.start <= r.end
    requires at + |MARKER| <= |message| && message[at..at + |MARKER|] == MARKER
    ensures if at == r.start then r.end >= at + |MARKER| else r.end > at + |MARKER|
  {
    if at == r.start {
      MarkerIsTaken(message, at);
    } else if r.end <= at + |MARKER| {
      NoCredentialInside(message, r, at);
    }
  }

  /** No credential starts inside a marker or right after it. */
  lemma {:induction false} NoCredentialInside(message: string, r: Range, at: nat)
    requires at + |MARKER| <= |message| && message[at..at + |MARKER|] == MARKER
    requires at < r.start && r.end <= at + |MARKER| && r.start <= r.end
    ensures !Credential(message, r)
  {
    var k := r.start - 1 - at;
    assert message[at..at + |MARKER|][k] == message[r.start - 1];
    MarkerCharacters(k);
    if r.start < r.end {
      assert message[at..at + |MARKER|][k + 1] == message[r.start];
      MarkerCharacters(k + 1);
    }
  }

  lemma {:induction false} ChosenCredentials(message: string, ranges: seq<Range>, cursor: nat)
    requires forall r :: r in ranges ==> Credential(message, r)
    ensures AllCredentials(message, Chosen(ranges, cursor))
  {
    if ranges != [] {
      assert ranges[0] in ranges && forall r :: r in ranges[1..] ==> r in ranges;
      ChosenCredentials(message, ranges[1..], cursor);
      ChosenCredentials(message, ranges[1..], ranges[0].end);
      if ranges[0].start >= cursor {
        assert Chosen(ranges, cursor)[1..] == Chosen(ranges[1..], ranges[0].end);
      }
    }
  }

  lemma {:induction false} ReplacedAreCredentials(message: string)
    ensures AllCredentials(message, Replaced(message))
  {
    SortDedupExact(Hits(message));
    forall r | r in SortDedup(Hits(message)) ensures Credential(message, r) {
      HitIsCredential(message, r);
    }
    ChosenCredentials(message, SortDedup(Hits(message)), 0);
  }

  /** Redaction leaves a message alone exactly when everything it would replace reads as the marker. */
  lemma {:induction false} FixedExactly(message: string)
    ensures Redacted(message) == message <==> AllReadMarker(message, Replaced(message))
  {
    RedactedShape(message);
    ReplacedAreCredentials(message);
    assert message[0..] == message;
    if Redacted(message) == message {
      NothingShifts(message, Replaced(message), 0, 0);
    }
    if AllReadMarker(message, Replaced(message)) {
      MarkersStay(message, Replaced(message), 0);
    }
  }
}
