/** What redaction would still find in a piece. */
module Pieces {
  import opened Text
  import opened Redaction

  // A redacted message is made of the pieces that were kept, with a marker between each two. Here is
  // when nothing is left to redact, said of each piece alone.

  /** What comes after a piece: nothing, or a marker; and whether that marker is followed by a character
      that ends a credential, or by nothing. */
  datatype Follows = End | Replacement(delimited: bool)

  predicate Delimits(rest: string) {
    rest == "" || Stops(rest[0])
  }

  /** The credential at a position is a whole marker: the one after the piece, or one in it. */
  predicate ValueSettled(piece: string, v: nat, f: Follows) {
    if v >= |piece| then v == |piece| && f.Replacement? && f.delimited
    else
      var after := v + |MARKER|;
      after <= |piece| && piece[v..after] == MARKER && if after < |piece| then Stops(piece[after]) else f.End?
  }

  predicate Separates(c: char) {
    c == '=' || c == ':'
  }

  /** A name that ends at a position has no credential in its piece, or a settled one. */
  predicate NameSettled(piece: string, after: nat, f: Follows) {
    var separator := SkipSpace(piece, after);
    separator < |piece| && Separates(piece[separator]) ==>
      var v := SkipSpace(piece, separator + 1);
      (v == |piece| && f.End?) || ValueSettled(piece, v, f)
  }

  predicate NameSettledAt(piece: string, f: Follows, i: nat, name: Marker) {
    OccursAt(piece, name, i) ==> NameSettled(piece, i + |name|, f)
  }

  predicate NamesSettledAt(piece: string, f: Follows, i: nat) {
    forall n :: 0 <= n < |NAMES| ==> NameSettledAt(piece, f, i, NAMES[n])
  }

  predicate SettledAt(piece: string, f: Follows, i: nat) {
    && !OccursAt(piece, Key.Text(), i)
    && (OccursAt(piece, Bearer.Text(), i) ==> ValueSettled(piece, i + |Bearer.Text()|, f))
    && NamesSettledAt(piece, f, i)
  }

  /** No key is left in the piece, and what follows each `bearer` and each name is a marker. */
  predicate Settled(piece: string, f: Follows) {
    forall i :: 0 <= i < |piece| ==> SettledAt(piece, f, i)
  }

  // ---------- No marker word meets a replacement ----------

  /** Two characters with which some word begins. */
  predicate Begins(c: char, d: char) {
    || (c == 'b' && d == 'e') || (c == 's' && (d == 'k' || d == 'e')) || (c == 'a' && d == 'p')
    || (c == 't' && d == 'o') || (c == 'p' && d == 'a')
  }

  predicate Known(marker: Marker) {
    |marker| >= 2 && Begins(marker[0], marker[1])
  }

  predicate NoBrackets(marker: Marker) {
    forall k :: 0 <= k < |marker| ==> marker[k] != '[' && marker[k] != ']'
  }

  lemma {:induction false} MarkersKnown()
    ensures forall n :: 0 <= n < |NAMES| ==> Known(NAMES[n]) && NoBrackets(NAMES[n])
    ensures Known(Bearer.Text()) && NoBrackets(Bearer.Text()) && Known(Key.Text()) && NoBrackets(Key.Text())
  {
  }

  /** The characters of a replacement. */
  lemma {:induction false} Letters(j: nat)
    requires j < |MARKER|
    ensures j == 0 <==> MARKER[j] == '['
    ensures j == 9 <==> MARKER[j] == ']'
    ensures !IsWhitespace(MARKER[j]) && !Separates(MARKER[j]) && !Stops(MARKER[j])
    ensures j < 9 ==> !Begins(AsciiLower(MARKER[j]), AsciiLower(MARKER[j + 1]))
  {
  }

  /** The text of a kept piece, a replacement, and the rest. */
  function Glued(k: string, t: string): string {
    k + MARKER + t
  }

  lemma {:induction false} GluedAt(k: string, t: string, i: nat)
    requires i < |Glued(k, t)|
    ensures Glued(k, t)[i] ==
              if i < |k| then k[i] else if i < |k| + |MARKER| then MARKER[i - |k|] else t[i - |k| - |MARKER|]
  {
  }

  /** A word that begins before the replacement ends before it. */
  lemma {:induction false} FrontOccurs(k: string, t: string, w: Marker, i: nat)
    requires NoBrackets(w) && i < |k|
    ensures OccursAt(Glued(k, t), w, i) <==> OccursAt(k, w, i)
  {
    var x := Glued(k, t);
    if i + |w| <= |k| {
      assert forall j :: 0 <= j < |w| ==> (AsciiLower(x[i + j]) == w[j] <==> AsciiLower(k[i + j]) == w[j]);
    } else if i + |w| <= |x| {
      GluedAt(k, t, |k|);
      var j := |k| - i;
      assert AsciiLower(x[i + j]) != w[j];
    }
  }

  /** No word begins inside the replacement. */
  lemma {:induction false} NoneInside(k: string, t: string, w: Marker, i: nat)
    requires NoBrackets(w) && Known(w) && |k| <= i < |k| + |MARKER|
    ensures !OccursAt(Glued(k, t), w, i)
  {
    var x, j := Glued(k, t), i - |k|;
    Letters(j);
    GluedAt(k, t, i);
    if i + |w| <= |x| {
      if j < 9 {
        GluedAt(k, t, i + 1);
      }
      assert AsciiLower(x[i + 0]) != w[0] || AsciiLower(x[i + 1]) != w[1];
    }
  }

  lemma {:induction false} BackOccurs(p: string, t: string, w: Marker, i: nat)
    ensures OccursAt(p + t, w, |p| + i) <==> OccursAt(t, w, i)
  {
    if i + |w| <= |t| {
      var x := p + t;
      assert forall j :: 0 <= j < |w| ==> (AsciiLower(x[|p| + i + j]) == w[j] <==> AsciiLower(t[i + j]) == w[j]);
    }
  }

  lemma {:induction false} FrontSkip(k: string, t: string, i: nat)
    requires i <= |k|
    ensures SkipSpace(Glued(k, t), i) == SkipSpace(k, i)
    decreases |k| - i
  {
    GluedAt(k, t, i);
    if i < |k| {
      if IsWhitespace(k[i]) {
        FrontSkip(k, t, i + 1);
      }
    } else {
      Letters(0);
    }
  }

  lemma {:induction false} BackSkip(p: string, t: string, i: nat)
    ensures SkipSpace(p + t, |p| + i) == |p| + SkipSpace(t, i)
    decreases |t| - i
  {
    if i < |t| && IsWhitespace(t[i]) {
      BackSkip(p, t, i + 1);
    }
  }

  /** A credential that starts in or right after a kept piece. */
  lemma {:induction false} FrontValue(k: string, t: string, v: nat)
    requires v <= |k|
    ensures ValueSettled(Glued(k, t), v, End) <==> ValueSettled(k, v, Replacement(Delimits(t)))
  {
    var x, after := Glued(k, t), v + |MARKER|;
    if v == |k| {
      assert x[v..after] == MARKER;
      assert after < |x| ==> x[after] == t[0];
    } else if after <= |k| {
      assert x[v..after] == k[v..after];
      GluedAt(k, t, after);
      Letters(0);
    } else {
      var j := |k| - v;
      GluedAt(k, t, |k|);
      Letters(j);
      assert after <= |x| ==> x[v..after][j] == '[';
    }
  }

  lemma {:induction false} BackValue(p: string, t: string, v: nat)
    ensures ValueSettled(p + t, |p| + v, End) <==> ValueSettled(t, v, End)
  {
    var after := v + |MARKER|;
    if after <= |t| {
      assert (p + t)[|p| + v..|p| + after] == t[v..after];
    }
  }

  lemma {:induction false} FrontName(k: string, t: string, after: nat)
    requires after <= |k|
    ensures NameSettled(Glued(k, t), after, End) <==> NameSettled(k, after, Replacement(Delimits(t)))
  {
    var x, separator := Glued(k, t), SkipSpace(k, after);
    FrontSkip(k, t, after);
    GluedAt(k, t, separator);
    if separator == |k| {
      Letters(0);
    } else {
      var v := SkipSpace(k, separator + 1);
      assert x[separator] == k[separator];
      FrontSkip(k, t, separator + 1);
      FrontValue(k, t, v);
    }
  }

  lemma {:induction false} BackName(p: string, t: string, after: nat)
    ensures NameSettled(p + t, |p| + after, End) <==> NameSettled(t, after, End)
  {
    var x, separator := p + t, SkipSpace(t, after);
    BackSkip(p, t, after);
    if separator < |t| {
      var v := SkipSpace(t, separator + 1);
      assert x[|p| + separator] == t[separator];
      BackSkip(p, t, separator + 1);
      BackValue(p, t, v);
    }
  }

  lemma {:induction false} FrontSettled(k: string, t: string, i: nat)
    requires i < |k|
    ensures SettledAt(Glued(k, t), End, i) <==> SettledAt(k, Replacement(Delimits(t)), i)
  {
    MarkersKnown();
    FrontOccurs(k, t, Key.Text(), i);
    FrontOccurs(k, t, Bearer.Text(), i);
    if OccursAt(k, Bearer.Text(), i) {
      FrontValue(k, t, i + |Bearer.Text()|);
    }
    FrontNames(k, t, i);
  }

  lemma {:induction false} FrontNameAt(k: string, t: string, i: nat, name: Marker)
    requires i < |k| && NoBrackets(name)
    ensures NameSettledAt(Glued(k, t), End, i, name) <==> NameSettledAt(k, Replacement(Delimits(t)), i, name)
  {
    var after := i + |name|;
    FrontOccurs(k, t, name, i);
    if OccursAt(k, name, i) {
      FrontName(k, t, after);
    }
  }

  lemma {:induction false} FrontNames(k: string, t: string, i: nat)
    requires i < |k|
    ensures NamesSettledAt(Glued(k, t), End, i) <==> NamesSettledAt(k, Replacement(Delimits(t)), i)
  {
    MarkersKnown();
    forall n | 0 <= n < |NAMES|
      ensures NameSettledAt(Glued(k, t), End, i, NAMES[n]) <==> NameSettledAt(k, Replacement(Delimits(t)), i, NAMES[n])
    {
      FrontNameAt(k, t, i, NAMES[n]);
    }
  }

  lemma {:induction false} InsideSettled(k: string, t: string, i: nat)
    requires |k| <= i < |k| + |MARKER|
    ensures SettledAt(Glued(k, t), End, i)
  {
    MarkersKnown();
    NoneInside(k, t, Key.Text(), i);
    NoneInside(k, t, Bearer.Text(), i);
    forall n | 0 <= n < |NAMES| ensures NameSettledAt(Glued(k, t), End, i, NAMES[n]) {
      NoneInside(k, t, NAMES[n], i);
    }
  }

  lemma {:induction false} BackSettled(p: string, t: string, i: nat)
    ensures SettledAt(p + t, End, |p| + i) <==> SettledAt(t, End, i)
  {
    BackOccurs(p, t, Key.Text(), i);
    BackOccurs(p, t, Bearer.Text(), i);
    BackValue(p, t, i + |Bearer.Text()|);
    BackNames(p, t, i);
  }

  lemma {:induction false} BackNameAt(p: string, t: string, i: nat, name: Marker)
    ensures NameSettledAt(p + t, End, |p| + i, name) <==> NameSettledAt(t, End, i, name)
  {
    var after := i + |name|;
    BackOccurs(p, t, name, i);
    BackName(p, t, after);
    assert |p| + after == |p| + i + |name|;
  }

  lemma {:induction false} BackNames(p: string, t: string, i: nat)
    ensures NamesSettledAt(p + t, End, |p| + i) <==> NamesSettledAt(t, End, i)
  {
    forall n | 0 <= n < |NAMES|
      ensures NameSettledAt(p + t, End, |p| + i, NAMES[n]) <==> NameSettledAt(t, End, i, NAMES[n])
    {
      BackNameAt(p, t, i, NAMES[n]);
    }
  }

  /** A kept piece, a replacement and the rest are settled exactly when both sides are. */
  lemma {:induction false} GluedSettled(k: string, t: string)
    ensures Settled(Glued(k, t), End) <==> Settled(k, Replacement(Delimits(t))) && Settled(t, End)
  {
    var x, p := Glued(k, t), k + MARKER;
    assert x == p + t;
    forall i | 0 <= i < |k| ensures SettledAt(x, End, i) <==> SettledAt(k, Replacement(Delimits(t)), i) {
      FrontSettled(k, t, i);
    }
    forall i | |k| <= i < |p| ensures SettledAt(x, End, i) {
      InsideSettled(k, t, i);
    }
    forall i | 0 <= i < |t| ensures SettledAt(x, End, |p| + i) <==> SettledAt(t, End, i) {
      BackSettled(p, t, i);
    }
    if Settled(k, Replacement(Delimits(t))) && Settled(t, End) {
      forall i | 0 <= i < |x| ensures SettledAt(x, End, i) {
        if i >= |p| {
          assert SettledAt(x, End, |p| + (i - |p|)) <==> SettledAt(t, End, i - |p|);
        }
      }
    }
  }
}
