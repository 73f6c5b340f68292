/** Splitting a stream at a separator, the operation behind every framing and
    NUL-record format in the repository, and the laws the parsers rely on: joining
    undoes splitting, splitting undoes joining for pieces without the separator, and
    a stream that ends in the separator is the terminated form of exactly one list. */
module Segments {
  /** A stream that arrived in chunks. */
  function Flatten<T>(chunks: seq<seq<T>>): seq<T> {
    if chunks == [] then [] else Flatten(chunks[..|chunks| - 1]) + chunks[|chunks| - 1]
  }

  /** The pieces after one more symbol has been put in front of the stream. */
  function Push<T(==)>(a: T, parts: seq<seq<T>>, sep: T): seq<seq<T>>
    requires |parts| >= 1
  {
    if a == sep then [[]] + parts else [[a] + parts[0]] + parts[1..]
  }

  /** The pieces between separators. As for a Rust slice, the empty stream has one empty piece. */
  function Split<T(==)>(s: seq<T>, sep: T): (parts: seq<seq<T>>)
    ensures |parts| >= 1
  {
    if s == [] then [[]]
    else Push(s[0], Split(s[1..], sep), sep)
  }

  function Join<T>(parts: seq<seq<T>>, sep: T): seq<T>
    requires |parts| >= 1
  {
    if |parts| == 1 then parts[0] else parts[0] + [sep] + Join(parts[1..], sep)
  }

  /** Every piece followed by the separator. */
  function Terminated<T>(parts: seq<seq<T>>, sep: T): seq<T> {
    if parts == [] then [] else parts[0] + [sep] + Terminated(parts[1..], sep)
  }

  ghost predicate Free<T>(parts: seq<seq<T>>, sep: T) {
    forall i :: 0 <= i < |parts| ==> sep !in parts[i]
  }

  lemma {:induction false} JoinSplit<T>(s: seq<T>, sep: T)
    ensures Join(Split(s, sep), sep) == s
    ensures Free(Split(s, sep), sep)
  {
    if s != [] {
      JoinSplit(s[1..], sep);
      var rest := Split(s[1..], sep);
      var parts := Split(s, sep);
      if s[0] == sep {
        assert parts[1..] == rest;
        assert Join(parts, sep) == [sep] + s[1..];
      } else if |rest| == 1 {
        assert Join(parts, sep) == [s[0]] + s[1..];
      } else {
        assert parts[1..] == rest[1..];
        assert Join(parts, sep) == [s[0]] + Join(rest, sep);
      }
    }
  }

  /** A separator-free piece in front of a separator is the first piece. */
  lemma {:induction false} SplitCons<T>(piece: seq<T>, sep: T, s: seq<T>)
    requires sep !in piece
    ensures Split(piece + [sep] + s, sep) == [piece] + Split(s, sep)
  {
    var whole := piece + [sep] + s;
    if piece == [] {
      assert whole[0] == sep && whole[1..] == s;
    } else {
      assert whole[1..] == piece[1..] + [sep] + s;
      SplitCons(piece[1..], sep, s);
      assert piece[0] in piece && [piece[0]] + piece[1..] == piece;
    }
  }

  lemma {:induction false} SplitPiece<T>(piece: seq<T>, sep: T)
    requires sep !in piece
    ensures Split(piece, sep) == [piece]
  {
    if piece != [] {
      SplitPiece(piece[1..], sep);
      assert piece[0] in piece && [piece[0]] + piece[1..] == piece;
    }
  }

  lemma {:induction false} SplitJoin<T>(parts: seq<seq<T>>, sep: T)
    requires |parts| >= 1 && Free(parts, sep)
    ensures Split(Join(parts, sep), sep) == parts
  {
    if |parts| == 1 {
      SplitPiece(parts[0], sep);
    } else {
      SplitCons(parts[0], sep, Join(parts[1..], sep));
      SplitJoin(parts[1..], sep);
    }
  }

  /** The pieces after one more symbol has arrived at the end of the stream. */
  function Grow<T(==)>(parts: seq<seq<T>>, b: T, sep: T): seq<seq<T>>
    requires |parts| >= 1
  {
    var n := |parts| - 1;
    if b == sep then parts + [[]] else parts[..n] + [parts[n] + [b]]
  }

  lemma {:induction false} PushGrow<T>(a: T, parts: seq<seq<T>>, b: T, sep: T)
    requires |parts| >= 1
    ensures Push(a, Grow(parts, b, sep), sep) == Grow(Push(a, parts, sep), b, sep)
  {
    if a != sep && b != sep && |parts| == 1 {
      assert [a] + (parts[0] + [b]) == [a] + parts[0] + [b];
    }
  }

  lemma {:induction false} SplitSnoc<T>(s: seq<T>, b: T, sep: T)
    ensures Split(s + [b], sep) == Grow(Split(s, sep), b, sep)
  {
    if s == [] {
      assert (s + [b])[1..] == s && Split(s, sep) == [s];
      assert [b] + s == s + [b];
    } else {
      assert (s + [b])[1..] == s[1..] + [b];
      SplitSnoc(s[1..], b, sep);
      PushGrow(s[0], Split(s[1..], sep), b, sep);
    }
  }

  lemma {:induction false} TerminatedJoin<T>(parts: seq<seq<T>>, sep: T)
    requires |parts| >= 1
    ensures Terminated(parts, sep) == Join(parts, sep) + [sep]
  {
    if |parts| > 1 {
      TerminatedJoin(parts[1..], sep);
    }
  }

  lemma {:induction false} TerminatedAppend<T>(a: seq<seq<T>>, b: seq<seq<T>>, sep: T)
    ensures Terminated(a + b, sep) == Terminated(a, sep) + Terminated(b, sep)
  {
    if a == [] {
      assert a + b == b;
    } else {
      assert (a + b)[1..] == a[1..] + b;
      TerminatedAppend(a[1..], b, sep);
    }
  }

  /** A stream ending in the separator is the terminated form of exactly one list of pieces. */
  lemma {:induction false} SplitTerminated<T>(bytes: seq<T>, sep: T)
    requires bytes != [] && bytes[|bytes| - 1] == sep
    ensures var parts := Split(bytes[..|bytes| - 1], sep);
            Free(parts, sep) && Terminated(parts, sep) == bytes
  {
    JoinSplit(bytes[..|bytes| - 1], sep);
    TerminatedJoin(Split(bytes[..|bytes| - 1], sep), sep);
  }

  lemma {:induction false} TerminatedUnique<T>(parts: seq<seq<T>>, bytes: seq<T>, sep: T)
    requires |parts| >= 1 && Free(parts, sep) && Terminated(parts, sep) == bytes
    ensures bytes != [] && bytes[|bytes| - 1] == sep
    ensures Split(bytes[..|bytes| - 1], sep) == parts
  {
    TerminatedJoin(parts, sep);
    assert bytes[..|bytes| - 1] == Join(parts, sep);
    SplitJoin(parts, sep);
  }
}
