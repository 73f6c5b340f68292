/** Messages worked through by hand: what redaction leaks, and what redacting twice
    changes. Each begins with the name `token`, and no other marker occurs in it but
    at most one key. */
module RedactionSamples {
  import opened Basics
  import opened Redaction
  import opened Masking
  import opened Coverage
  import opened Pieces

  /** A credential that starts inside a quoted one and ends after it. */
  const LEAKING: string := "token=\"a sk-b\"c"

  /** A character directly after a quoted credential, and the two results. */
  const TRAILING: string := "token=\"a\"b"
  const ONCE: string := "token=[REDACTED]b"
  const TWICE: string := "token=[REDACTED]"

  // ---------- Messages with one name ----------

  /** From a position on no marker begins, except perhaps at one position. */
  predicate QuietBut(message: string, key: nat, i: nat)
    decreases |message| - i
  {
    if i + 1 >= |message| then true
    else (i == key || !Begins(AsciiLower(message[i]), AsciiLower(message[i + 1]))) && QuietBut(message, key, i + 1)
  }

  lemma {:induction false} QuietAt(message: string, key: nat, i: nat, j: nat)
    requires QuietBut(message, key, i) && i <= j < |message| - 1 && j != key
    ensures !Begins(AsciiLower(message[j]), AsciiLower(message[j + 1]))
    decreases j - i
  {
    if i < j {
      QuietAt(message, key, i + 1, j);
    }
  }

  /** A message that begins with `token`, with at most one `sk-` at a given position. */
  predicate TokenMessage(message: string, key: nat) {
    && OccursAt(message, "token", 0) && QuietBut(message, key, 1) && 5 <= key
    && (key < |message| ==> OccursAt(message, Key.Text(), key))
  }

  lemma {:induction false} TokenFirst(message: string)
    requires |message| >= 5
    requires message[0] == 't' && message[1] == 'o' && message[2] == 'k' && message[3] == 'e' && message[4] == 'n'
    ensures OccursAt(message, "token", 0)
  {
  }

  lemma {:induction false} NotHere(message: string, key: nat, marker: Marker, i: nat)
    requires TokenMessage(message, key) && Known(marker)
    requires if i == 0 then marker[0] != 't' else if i == key then marker[0] != 's' || marker[1] != 'k' else true
    ensures !OccursAt(message, marker, i)
  {
    if i + |marker| <= |message| {
      if i > 0 && i != key {
        QuietAt(message, key, 1, i);
      }
      assert OccursAt(message, "token", 0) ==> AsciiLower(message[0 + 0]) == "token"[0];
      assert i == key ==> AsciiLower(message[key + 0]) == Key.Text()[0] && AsciiLower(message[key + 1]) == Key.Text()[1];
      assert AsciiLower(message[i + 0]) != marker[0] || AsciiLower(message[i + 1]) != marker[1];
    }
  }

  /** No other name occurs. */
  lemma {:induction false} NoHits(message: string, key: nat, marker: Marker, before: seq<Range>)
    requires TokenMessage(message, key) && Known(marker)
    requires marker[0] != 't' && (marker[0] != 's' || marker[1] != 'k')
    ensures NameHits(message, marker, FinderIn(message), 0, before) == before
    ensures FindFrom(message, marker, 0).None?
  {
    var found := FindFrom(message, marker, 0);
    if found.Some? {
      NotHere(message, key, marker, found.value);
    }
  }

  lemma {:induction false} TokenHit(message: string, key: nat, before: seq<Range>)
    requires TokenMessage(message, key)
    ensures NameHits(message, "token", FinderIn(message), 0, before) == With(before, NameHit(message, 5))
  {
    assert FindFrom(message, "token", 0) == Some(0);
    var again := FindFrom(message, "token", 5);
    if again.Some? {
      NotHere(message, key, "token", again.value);
    }
  }

  lemma {:induction false} KeyHit(message: string, key: nat)
    requires TokenMessage(message, key)
    ensures ValueHits(message, Key, 0) == if key < |message| then [Range(key, CredentialEnd(message, key))] else []
  {
    var first := FindFrom(message, Key.Text(), 0);
    if first.Some? && first.value != key {
      NotHere(message, key, Key.Text(), first.value);
    }
    if key < |message| {
      ValueScanAdvances(message, Key, key);
      var again := FindFrom(message, Key.Text(), CredentialEnd(message, key));
      if again.Some? {
        NotHere(message, key, Key.Text(), again.value);
      }
    }
  }

  lemma {:induction false} OneMoreName(message: string, markers: seq<Marker>, m: Marker, before: seq<Range>)
    ensures AllNameHits(message, markers + [m], before) ==
              NameHits(message, m, FinderIn(message), 0, AllNameHits(message, markers, before))
  {
    assert (markers + [m])[..|markers|] == markers;
  }

  const FIRST_NAMES: seq<Marker> := ["api_key", "api-key", "apikey"]

  lemma {:induction false} FirstNames(message: string, key: nat, before: seq<Range>)
    requires TokenMessage(message, key)
    ensures AllNameHits(message, FIRST_NAMES, before) == before
  {
    var none: seq<Marker> := [];
    OneMoreName(message, none, "api_key", before);
    NoHits(message, key, "api_key", before);
    var one := none + ["api_key"];
    OneMoreName(message, one, "api-key", before);
    NoHits(message, key, "api-key", before);
    var two := one + ["api-key"];
    OneMoreName(message, two, "apikey", before);
    NoHits(message, key, "apikey", before);
    assert FIRST_NAMES == two + ["apikey"];
  }

  lemma {:induction false} NamesInTurn(message: string, key: nat, before: seq<Range>)
    requires TokenMessage(message, key)
    ensures AllNameHits(message, NAMES, before) == With(before, NameHit(message, 5))
  {
    FirstNames(message, key, before);
    OneMoreName(message, FIRST_NAMES, "token", before);
    TokenHit(message, key, before);
    var hits := With(before, NameHit(message, 5));
    var four := FIRST_NAMES + ["token"];
    OneMoreName(message, four, "password", before);
    NoHits(message, key, "password", hits);
    var five := four + ["password"];
    OneMoreName(message, five, "secret", before);
    NoHits(message, key, "secret", hits);
    assert NAMES == five + ["secret"];
  }

  /** The hits of such a message: the key, if there is one, and the token's value. */
  lemma {:induction false} TokenHits(message: string, key: nat)
    requires TokenMessage(message, key)
    ensures Hits(message) ==
              With(if key < |message| then [Range(key, CredentialEnd(message, key))] else [], NameHit(message, 5))
  {
    var none: seq<ValueMarker> := [];
    var bearer := none + [Bearer];
    assert bearer[..|bearer| - 1] == none && VALUE_MARKERS[..|VALUE_MARKERS| - 1] == bearer;
    assert AllValueHits(message, none) == [];
    NoHits(message, key, Bearer.Text(), []);
    assert ValueHits(message, Bearer, 0) == [];
    assert AllValueHits(message, bearer) == [];
    KeyHit(message, key);
    assert AllValueHits(message, VALUE_MARKERS) == ValueHits(message, Key, 0);
    NamesInTurn(message, key, AllValueHits(message, VALUE_MARKERS));
  }

  // ---------- The messages ----------

  lemma {:induction false} OneHit(hit: Range)
    ensures SortDedup([hit]) == [hit] && Chosen([hit], 0) == [hit]
  {
    var none: seq<Range> := [];
    var one := none + [hit];
    assert one[..0] == none && one[1..] == none && one == [hit];
    assert SortDedup(none) == none && Chosen(none, hit.end) == none;
  }

  /** The hit found first starts inside the other one. */
  lemma {:induction false} TwoHits(first: Range, second: Range)
    requires second.start < first.start < second.end
    ensures SortDedup([first, second]) == [second, first]
    ensures Chosen([second, first], 0) == [second]
    ensures NoLeak([second, first], 0, 0) <==> first.end <= second.end
  {
    OneHit(first);
    assert [first, second][..1] == [first];
    var none: seq<Range> := [];
    assert [second, first][1..] == [first] && [first][1..] == none;
    assert Chosen(none, second.end) == none;
    assert NoLeak([first], second.end, 0) == NoLeak(none, second.end, first.end);
  }

  /** What is masked when one range is chosen. */
  lemma {:induction false} OneMasked(message: string, hit: Range)
    requires Replaced(message) == [hit]
    ensures hit.start <= hit.end <= |message|
    ensures Redacted(message) == message[..hit.start] + MARKER + message[hit.end..]
  {
    var none: seq<Range> := [];
    RedactedShape(message);
    assert [hit][1..] == none;
    assert Masked(message, none, hit.end) == message[hit.end..];
  }

  /** The outcome for a message with one hit. */
  lemma {:induction false} OneRedacted(message: string, hit: Range)
    requires Hits(message) == [hit]
    ensures hit.start <= hit.end <= |message|
    ensures Redacted(message) == message[..hit.start] + MARKER + message[hit.end..]
  {
    OneHit(hit);
    OneMasked(message, hit);
  }

  /** The outcome for a message with a hit that overhangs another. */
  lemma {:induction false} OverhangRedacted(message: string, first: Range, second: Range)
    requires Hits(message) == [first, second] && second.start < first.start < second.end < first.end
    ensures second.end <= |message| && !AllHidden(message)
    ensures Redacted(message) == message[..second.start] + MARKER + message[second.end..]
  {
    TwoHits(first, second);
    OneMasked(message, second);
    HitsHiddenExactly(message);
  }

  lemma {:induction false} LeakingQuiet()
    ensures QuietBut(LEAKING, 9, 1)
  {
    assert QuietBut(LEAKING, 9, 8);
  }

  lemma {:induction false} LeakingShape()
    ensures TokenMessage(LEAKING, 9)
  {
    LeakingQuiet();
    TokenFirst(LEAKING);
  }

  lemma {:induction false} LeakingValue()
    ensures NameHit(LEAKING, 5) == Some(Range(6, 14))
  {
  }

  lemma {:induction false} LeakingKey()
    ensures CredentialEnd(LEAKING, 9) == 15
  {
    NoStopBefore(LEAKING, 9, 15);
  }

  lemma {:induction false} KeyAndValue(message: string, key: Range, value: Range)
    requires TokenMessage(message, key.start) && key.start < |message|
    requires NameHit(message, 5) == Some(value) && CredentialEnd(message, key.start) == key.end
    requires value.start < key.start < value.end < key.end
    ensures Hits(message) == [key, value] && value.end <= |message| && !AllHidden(message)
    ensures Redacted(message) == message[..value.start] + MARKER + message[value.end..]
  {
    TokenHits(message, key.start);
    OverhangRedacted(message, key, value);
  }

  lemma {:induction false} LeakingText()
    ensures LEAKING[..6] + MARKER + LEAKING[14..] == "token=[REDACTED]c"
  {
    assert LEAKING[..6] == "token=" && LEAKING[14..] == "c";
  }

  /** The character after the quoted value stays although it belongs to the key's hit. */
  lemma {:induction false} HitCanLeak()
    ensures Redacted(LEAKING) == "token=[REDACTED]c"
    ensures !AllHidden(LEAKING)
  {
    LeakingShape();
    LeakingValue();
    LeakingKey();
    KeyAndValue(LEAKING, Range(9, 15), Range(6, 14));
    LeakingText();
  }

  lemma {:induction false} TrailingQuiet()
    ensures QuietBut(TRAILING, 10, 1)
  {
    assert QuietBut(TRAILING, 10, 6);
  }

  lemma {:induction false} TrailingShape()
    ensures TokenMessage(TRAILING, 10)
  {
    TrailingQuiet();
    TokenFirst(TRAILING);
  }

  lemma {:induction false} TrailingHit()
    ensures NameHit(TRAILING, 5) == Some(Range(6, 9))
  {
  }

  lemma {:induction false} OnceQuiet()
    ensures QuietBut(ONCE, 17, 1)
  {
    assert QuietBut(ONCE, 17, 12);
    assert QuietBut(ONCE, 17, 7);
  }

  lemma {:induction false} OnceShape()
    ensures TokenMessage(ONCE, 17)
  {
    OnceQuiet();
    TokenFirst(ONCE);
  }

  lemma {:induction false} OnceHit()
    ensures NameHit(ONCE, 5) == Some(Range(6, 17))
  {
    NoStopBefore(ONCE, 6, 17);
  }

  lemma {:induction false} OneValue(message: string, key: nat, value: Range)
    requires TokenMessage(message, key) && key == |message| && NameHit(message, 5) == Some(value)
    ensures value.start <= value.end <= |message|
    ensures Redacted(message) == message[..value.start] + MARKER + message[value.end..]
  {
    TokenHits(message, key);
    OneRedacted(message, value);
  }

  lemma {:induction false} TrailingText()
    ensures TRAILING[..6] + MARKER + TRAILING[9..] == ONCE
  {
    assert TRAILING[..6] == "token=" && TRAILING[9..] == "b";
  }

  lemma {:induction false} OnceText()
    ensures ONCE[..6] + MARKER + ONCE[17..] == TWICE
  {
    assert ONCE[..6] == "token=" && ONCE[17..] == "";
  }

  /** Redacting twice can remove more than redacting once. */
  lemma {:induction false} TwiceRemovesMore()
    ensures Redacted(TRAILING) == ONCE
    ensures Redacted(ONCE) == TWICE && |TWICE| < |ONCE|
  {
    TrailingShape();
    TrailingHit();
    OneValue(TRAILING, 10, Range(6, 9));
    TrailingText();
    OnceShape();
    OnceHit();
    OneValue(ONCE, 17, Range(6, 17));
    OnceText();
  }
}
