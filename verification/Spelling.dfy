/** Redaction by letters. */
module Spelling {
  import opened Basics
  import opened Text
  import opened Redaction
  import Masking
  import opened Idempotence

  // ---------- Case does not matter ----------

  /** The same character, or the two cases of one ASCII letter. */
  predicate SameLetter(c: char, d: char) {
    || c == d
    || ('a' <= c <= 'z' && 'A' <= d <= 'Z' && c as int - 'a' as int == d as int - 'A' as int)
    || ('A' <= c <= 'Z' && 'a' <= d <= 'z' && c as int - 'A' as int == d as int - 'a' as int)
  }

  predicate SameButCase(a: string, b: string) {
    |a| == |b| && forall i :: 0 <= i < |a| ==> SameLetter(a[i], b[i])
  }

  lemma {:induction false} SameOccurs(a: string, b: string, w: Marker, i: nat)
    requires SameButCase(a, b)
    ensures OccursAt(a, w, i) <==> OccursAt(b, w, i)
  {
    if i + |w| <= |a| {
      forall k | 0 <= k < |w| ensures AsciiLower(a[i + k]) == w[k] <==> AsciiLower(b[i + k]) == w[k] {
        assert SameLetter(a[i + k], b[i + k]);
      }
    }
  }

  lemma {:induction false} SameFind(a: string, b: string, w: Marker, i: nat)
    requires SameButCase(a, b)
    ensures FindFrom(a, w, i) == FindFrom(b, w, i)
  {
    var x, y := FindFrom(a, w, i), FindFrom(b, w, i);
    if x.Some? {
      SameOccurs(a, b, w, x.value);
    }
    if y.Some? {
      SameOccurs(a, b, w, y.value);
    }
  }

  /** White space, delimiters and quotes are no letters. */
  lemma {:induction false} SameKind(c: char, d: char)
    requires SameLetter(c, d)
    ensures IsWhitespace(c) == IsWhitespace(d) && Stops(c) == Stops(d)
    ensures c in {'\'', '"', '=', ':'} || d in {'\'', '"', '=', ':'} ==> c == d
  {
  }

  lemma {:induction false} SameSkip(a: string, b: string, i: nat)
    requires SameButCase(a, b)
    ensures SkipSpace(a, i) == SkipSpace(b, i)
    decreases |a| - i
  {
    if i < |a| {
      SameKind(a[i], b[i]);
      SameSkip(a, b, i + 1);
    }
  }

  lemma {:induction false} SameQuote(a: string, b: string, quote: char, i: nat)
    requires SameButCase(a, b) && quote in {'\'', '"'}
    ensures FindQuote(a, quote, i) == FindQuote(b, quote, i)
    decreases |a| - i
  {
    if i < |a| {
      SameKind(a[i], b[i]);
      SameQuote(a, b, quote, i + 1);
    }
  }

  lemma {:induction false} SameStop(a: string, b: string, i: nat)
    requires SameButCase(a, b)
    ensures FindStop(a, i) == FindStop(b, i)
    decreases |a| - i
  {
    if i < |a| {
      SameKind(a[i], b[i]);
      SameStop(a, b, i + 1);
    }
  }

  lemma {:induction false} SameEnd(a: string, b: string, start: nat)
    requires SameButCase(a, b)
    ensures CredentialEnd(a, start) == CredentialEnd(b, start)
  {
    SameStop(a, b, start);
    if start < |a| {
      SameKind(a[start], b[start]);
      if a[start] == '\'' || a[start] == '"' {
        SameQuote(a, b, a[start], start + 1);
      }
    }
  }

  lemma {:induction false} SameNameHit(a: string, b: string, after: nat)
    requires SameButCase(a, b)
    ensures NameHit(a, after) == NameHit(b, after)
  {
    var separator := SkipSpace(a, after);
    SameSkip(a, b, after);
    SameSkip(a, b, separator + 1);
    if separator < |a| {
      SameKind(a[separator], b[separator]);
    }
    SameEnd(a, b, SkipSpace(a, separator + 1));
  }

  lemma {:induction false} SameValueHits(a: string, b: string, marker: ValueMarker, offset: nat)
    requires SameButCase(a, b)
    ensures ValueHits(a, marker, offset) == ValueHits(b, marker, offset)
    decreases |a| - offset
  {
    var first := FindFrom(a, marker.Text(), offset);
    SameFind(a, b, marker.Text(), offset);
    if first.Some? {
      ValueScanAdvances(a, marker, first.value);
      var start := ValueStart(marker, first.value);
      SameEnd(a, b, start);
      SameValueHits(a, b, marker, CredentialEnd(a, start));
    }
  }

  lemma {:induction false} SameFinders(
    a: string, b: string, marker: Marker, f: Finder, g: Finder, offset: nat, before: seq<Range>)
    requires SameButCase(a, b) && forall after: nat :: f(after) == g(after)
    ensures NameHits(a, marker, f, offset, before) == NameHits(b, marker, g, offset, before)
    decreases |a| - offset
  {
    var first := FindFrom(a, marker, offset);
    SameFind(a, b, marker, offset);
    if first.Some? {
      var after := first.value + |marker|;
      var grown := With(before, f(after));
      SameFinders(a, b, marker, f, g, after, grown);
      NextName(a, marker, f, offset, before, after, grown);
      NextName(b, marker, g, offset, before, after, grown);
    }
  }

  lemma {:induction false} NextName(
    message: string, marker: Marker, find: Finder, offset: nat, before: seq<Range>, after: nat, grown: seq<Range>)
    requires FindFrom(message, marker, offset).Some? && after == FindFrom(message, marker, offset).value + |marker|
    requires grown == With(before, find(after))
    ensures NameHits(message, marker, find, offset, before) == NameHits(message, marker, find, after, grown)
  {
  }

  lemma {:induction false} SameNameHits(a: string, b: string, marker: Marker, before: seq<Range>)
    requires SameButCase(a, b)
    ensures NameHits(a, marker, FinderIn(a), 0, before) == NameHits(b, marker, FinderIn(b), 0, before)
  {
    var f, g := FinderIn(a), FinderIn(b);
    forall after: nat ensures f(after) == g(after) {
      SameNameHit(a, b, after);
    }
    SameFinders(a, b, marker, f, g, 0, before);
  }

  lemma {:induction false} SameNames(a: string, b: string, markers: seq<Marker>, before: seq<Range>)
    requires SameButCase(a, b)
    ensures AllNameHits(a, markers, before) == AllNameHits(b, markers, before)
  {
    if markers != [] {
      var rest, last := markers[..|markers| - 1], markers[|markers| - 1];
      SameNames(a, b, rest, before);
      SameNameHits(a, b, last, AllNameHits(a, rest, before));
    }
  }

  /** Messages that differ only in the case of ASCII letters have the same hits. */
  lemma {:induction false} SameHits(a: string, b: string)
    requires SameButCase(a, b)
    ensures Hits(a) == Hits(b)
  {
    BothValues(a);
    BothValues(b);
    SameValueHits(a, b, Bearer, 0);
    SameValueHits(a, b, Key, 0);
    SameNames(a, b, NAMES, AllValueHits(a, VALUE_MARKERS));
  }

  // ---------- What is spelled out is hit ----------

  /** The message spells a lower-case word at a position, in any mix of cases. */
  predicate Reads(message: string, word: string, i: nat) {
    && i + |word| <= |message|
    && forall k :: 0 <= k < |word| ==>
         || message[i + k] == word[k]
         || ('a' <= word[k] <= 'z' && message[i + k] as int == word[k] as int - 'a' as int + 'A' as int)
  }

  predicate LowerCase(word: string) {
    forall k :: 0 <= k < |word| ==> !('A' <= word[k] <= 'Z')
  }

  lemma {:induction false} ReadsOccurs(message: string, word: Marker, i: nat)
    requires LowerCase(word)
    ensures Reads(message, word, i) <==> OccursAt(message, word, i)
  {
    if i + |word| <= |message| {
      forall k | 0 <= k < |word|
        ensures AsciiLower(message[i + k]) == word[k] <==>
                  || message[i + k] == word[k]
                  || ('a' <= word[k] <= 'z' && message[i + k] as int == word[k] as int - 'a' as int + 'A' as int)
      {
      }
    }
  }

  predicate SecretName(word: string) {
    word in {"api_key", "api-key", "apikey", "token", "password", "secret"}
  }

  predicate Blanks(message: string, from: nat, to: nat) {
    from <= to <= |message| && forall k :: from <= k < to ==> IsWhitespace(message[k])
  }

  /** A name, an equals sign or colon with white space around it, and something at `v`. */
  predicate Assigned(message: string, word: string, i: nat, s: nat, v: nat) {
    && SecretName(word) && Reads(message, word, i)
    && Blanks(message, i + |word|, s) && s < |message| && (message[s] == '=' || message[s] == ':')
    && Blanks(message, s + 1, v) && v < |message| && !IsWhitespace(message[v])
  }

  lemma {:induction false} SkipsBlanks(message: string, from: nat, to: nat)
    requires Blanks(message, from, to) && (to < |message| ==> !IsWhitespace(message[to]))
    ensures SkipSpace(message, from) == to
    decreases |message| - from
  {
    if from < to {
      SkipsBlanks(message, from + 1, to);
    }
  }

  lemma {:induction false} NamesAre(word: Marker)
    ensures SecretName(word) <==> exists n :: 0 <= n < |NAMES| && NAMES[n] == word
    ensures SecretName(word) ==> LowerCase(word)
  {
    assert NAMES[0] == "api_key" && NAMES[1] == "api-key" && NAMES[2] == "apikey";
    assert NAMES[3] == "token" && NAMES[4] == "password" && NAMES[5] == "secret";
  }

  ghost predicate HitAt(message: string, start: nat) {
    exists r :: r in Hits(message) && r.start == start
  }

  ghost predicate HitOver(message: string, p: nat) {
    exists r :: r in Hits(message) && r.start <= p < r.end
  }

  /** The value of each of the six names is hit, however the name is spelled. */
  lemma {:induction false} AssignedIsHit(message: string, word: Marker, i: nat, s: nat, v: nat)
    requires Assigned(message, word, i, s, v)
    ensures HitAt(message, v)
  {
    NamesAre(word);
    var n :| 0 <= n < |NAMES| && NAMES[n] == word;
    ReadsOccurs(message, word, i);
    SkipsBlanks(message, i + |word|, s);
    SkipsBlanks(message, s + 1, v);
    NameIsHit(message, n, i);
  }

  /** What follows `bearer` is hit, or a hit that began earlier goes over it. */
  lemma {:induction false} BearerIsHit(message: string, i: nat)
    requires Reads(message, "bearer ", i)
    ensures HitAt(message, i + 7) || HitOver(message, i)
  {
    ReadsOccurs(message, Bearer.Text(), i);
    ValuesAreHit(message, Bearer, 0, i);
    var hits := ValueHits(message, Bearer, 0);
    var k :| 0 <= k < |hits| && (hits[k].start == ValueStart(Bearer, i) || hits[k].start <= i < hits[k].end);
    ValueIsHit(message, Bearer, hits[k]);
  }

  /** A key is hit from its first character, or a hit that began earlier goes over it. */
  lemma {:induction false} KeyIsHit(message: string, i: nat)
    requires Reads(message, "sk-", i)
    ensures HitAt(message, i) || HitOver(message, i)
  {
    ReadsOccurs(message, Key.Text(), i);
    ValuesAreHit(message, Key, 0, i);
    var hits := ValueHits(message, Key, 0);
    var k :| 0 <= k < |hits| && (hits[k].start == ValueStart(Key, i) || hits[k].start <= i < hits[k].end);
    ValueIsHit(message, Key, hits[k]);
  }

  // ---------- And nothing else is ----------

  lemma {:induction false} ValueCause(message: string, marker: ValueMarker, offset: nat, r: Range)
    requires r in ValueHits(message, marker, offset)
    ensures exists i: nat :: OccursAt(message, marker.Text(), i) && r.start == ValueStart(marker, i)
    decreases |message| - offset
  {
    var found := FindFrom(message, marker.Text(), offset).value;
    ValueScanAdvances(message, marker, found);
    var start := ValueStart(marker, found);
    var end := CredentialEnd(message, start);
    if r != Range(start, end) {
      ValueCause(message, marker, end, r);
    }
  }

  ghost predicate NamedBy(message: string, name: Marker, r: Range) {
    exists i: nat :: OccursAt(message, name, i) && NameHit(message, i + |name|) == Some(r)
  }

  lemma {:induction false} NameCause(message: string, name: Marker, offset: nat, before: seq<Range>, r: Range)
    requires r in NameHits(message, name, FinderIn(message), offset, before)
    ensures r in before || NamedBy(message, name, r)
    decreases |message| - offset
  {
    var first := FindFrom(message, name, offset);
    if first.Some? {
      var after := first.value + |name|;
      var find := FinderIn(message);
      var grown := With(before, find(after));
      assert NameHits(message, name, find, offset, before) == NameHits(message, name, find, after, grown);
      NameCause(message, name, after, grown, r);
    }
  }

  lemma {:induction false} NamesCause(message: string, markers: seq<Marker>, before: seq<Range>, r: Range)
    requires r in AllNameHits(message, markers, before)
    ensures r in before || exists n :: 0 <= n < |markers| && NamedBy(message, markers[n], r)
  {
    if markers != [] {
      var rest, last := markers[..|markers| - 1], markers[|markers| - 1];
      var inner := AllNameHits(message, rest, before);
      NameCause(message, last, 0, inner, r);
      if r in inner {
        NamesCause(message, rest, before, r);
        if r !in before {
          var n :| 0 <= n < |rest| && NamedBy(message, rest[n], r);
          assert NamedBy(message, markers[n], r);
        }
      } else {
        assert NamedBy(message, markers[|markers| - 1], r);
      }
    }
  }

  lemma {:induction false} SkippedBlanks(message: string, i: nat)
    requires i <= |message|
    ensures Blanks(message, i, SkipSpace(message, i))
    ensures SkipSpace(message, i) < |message| ==> !IsWhitespace(message[SkipSpace(message, i)])
    decreases |message| - i
  {
    if i < |message| && IsWhitespace(message[i]) {
      SkippedBlanks(message, i + 1);
    }
  }

  ghost predicate ValueOfName(message: string, v: nat) {
    exists word: string, i: nat, s: nat :: Assigned(message, word, i, s, v)
  }

  /** Every hit starts where a key is spelled, after `bearer `, or where the value of one of the six names is. */
  lemma {:induction false} HitHasCause(message: string, r: Range)
    requires r in Hits(message)
    ensures Reads(message, "sk-", r.start) || (r.start >= 7 && Reads(message, "bearer ", r.start - 7)) || ValueOfName(message, r.start)
  {
    BothValues(message);
    NamesCause(message, NAMES, AllValueHits(message, VALUE_MARKERS), r);
    if r in ValueHits(message, Bearer, 0) {
      BearerSpelled(message, r);
    } else if r in ValueHits(message, Key, 0) {
      KeySpelled(message, r);
    } else {
      var n :| 0 <= n < |NAMES| && NamedBy(message, NAMES[n], r);
      NameSpelled(message, n, NAMES[n], r);
    }
  }

  lemma {:induction false} KeySpelled(message: string, r: Range)
    requires r in ValueHits(message, Key, 0)
    ensures Reads(message, "sk-", r.start)
  {
    ValueCause(message, Key, 0, r);
    ReadsOccurs(message, "sk-", r.start);
  }

  lemma {:induction false} BearerSpelled(message: string, r: Range)
    requires r in ValueHits(message, Bearer, 0)
    ensures r.start >= 7 && Reads(message, "bearer ", r.start - 7)
  {
    ValueCause(message, Bearer, 0, r);
    var i: nat :| OccursAt(message, Bearer.Text(), i) && r.start == ValueStart(Bearer, i);
    ReadsOccurs(message, "bearer ", i);
  }

  lemma {:induction false} NameSpelled(message: string, n: nat, name: Marker, r: Range)
    requires NamedBy(message, name, r) && n < |NAMES| && NAMES[n] == name
    ensures ValueOfName(message, r.start)
  {
    var i: nat :| OccursAt(message, name, i) && NameHit(message, i + |name|) == Some(r);
    NamesAre(name);
    ReadsOccurs(message, name, i);
    AssignedThere(message, name, i, r);
  }

  lemma {:induction false} AssignedThere(message: string, name: Marker, i: nat, r: Range)
    requires SecretName(name) && Reads(message, name, i) && NameHit(message, i + |name|) == Some(r)
    ensures ValueOfName(message, r.start)
  {
    var s := SkipSpace(message, i + |name|);
    SkippedBlanks(message, i + |name|);
    SkippedBlanks(message, s + 1);
    assert Assigned(message, name, i, s, r.start);
  }

  // ---------- Where a hit ends ----------

  predicate Ends(c: char) {
    IsWhitespace(c) || c == ',' || c == ';' || c == '&'
  }

  predicate IsQuote(c: char) {
    c == '\'' || c == '"'
  }

  /** A quoted credential goes up to and including the next such quote, or to the end. */
  predicate QuotedExtent(message: string, r: Range)
    requires r.start < |message|
  {
    || (r.start + 2 <= r.end <= |message| && message[r.end - 1] == message[r.start]
        && forall k :: r.start < k < r.end - 1 ==> message[k] != message[r.start])
    || (r.end == |message| && forall k :: r.start < k < |message| ==> message[k] != message[r.start])
  }

  /** Any other goes up to the next white space, comma, semicolon or ampersand, or to the end. */
  predicate PlainExtent(message: string, r: Range) {
    && r.start <= r.end <= |message| && (r.end == |message| || Ends(message[r.end]))
    && forall k :: r.start <= k < r.end ==> !Ends(message[k])
  }

  lemma {:induction false} QuoteExtent(message: string, quote: char, i: nat)
    requires i <= |message|
    ensures match FindQuote(message, quote, i)
            case Some(q) => message[q] == quote && forall k :: i <= k < q ==> message[k] != quote
            case None => forall k :: i <= k < |message| ==> message[k] != quote
    decreases |message| - i
  {
    if i < |message| && message[i] != quote {
      QuoteExtent(message, quote, i + 1);
    }
  }

  lemma {:induction false} StopExtent(message: string, i: nat)
    requires i <= |message|
    ensures PlainExtent(message, Range(i, FindStop(message, i)))
    decreases |message| - i
  {
    if i < |message| && !Stops(message[i]) {
      StopExtent(message, i + 1);
    }
  }

  lemma {:induction false} HitExtent(message: string, r: Range)
    requires r in Hits(message)
    ensures if r.start < |message| && IsQuote(message[r.start]) then QuotedExtent(message, r) else PlainExtent(message, r)
  {
    Masking.HitIsCredential(message, r);
    if r.start < |message| && IsQuote(message[r.start]) {
      QuoteExtent(message, message[r.start], r.start + 1);
    } else {
      StopExtent(message, r.start);
    }
  }
}
